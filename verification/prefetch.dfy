/** The `prefetch` function of the crate2nix generator: pick the crates whose
    source still needs a nix hash, take each hash from the crate-hash file when
    it is there and from `nix-prefetch-url` / `nix-prefetch-git` otherwise, write
    every hash back into its crate's source, and rewrite the hash file with
    exactly the hashes of this run when they differ from the old ones.

    The fetch of one crate is a parameter: `Commands.NixFetch` is the one the tool
    uses (`nix-prefetch-url` or `nix-prefetch-git`), and every property below
    holds for any fetcher. Rayon's `par_iter().map().collect()` keeps the input
    order, so it is modelled as a sequential map; when several fetches fail, the
    first failure in input order is the one reported. */
module Prefetcher {
  import opened Wrappers
  import opened Model
  import opened Text

  /** What a missing or unreadable hash file is read as. */
  const EmptyJson: string := "{}"

  /** The hash file: its text (`None` when it is missing or cannot be read) and
      whether writing it would succeed. */
  datatype CacheFile = CacheFile(content: Option<string>, writable: bool)

  /** The old hashes: a missing file counts as `{}`, content that does not decode
      is an error. */
  function LoadOldHashes(decodeHashes: string -> Option<Hashes>, content: Option<string>): (r: Result<Hashes, Error>)
    ensures r.Failure? <==> decodeHashes(content.GetOr(EmptyJson)).None?
    ensures r.Failure? ==> r.error == CacheCorrupt
    ensures r.Success? ==> Some(r.value) == decodeHashes(content.GetOr(EmptyJson))
  {
    match decodeHashes(content.GetOr(EmptyJson))
    case None => Failure(CacheCorrupt)
    case Some(oldHashes) => Success(oldHashes)
  }

  /** A crate is prefetched iff it comes from crates.io without a hash, or from git. */
  predicate NeedsHash(s: Source) {
    match s
    case CratesIo(sha256) => sha256.None?
    case Git(_, _, _, _) => true
    case Other(_) => false
  }

  /** Positions of the crates `prefetch` works on, in input order. */
  function SelectedIndices(ds: seq<CrateDerivation>): (idx: seq<nat>)
    ensures forall k :: 0 <= k < |idx| ==> idx[k] < |ds| && NeedsHash(ds[idx[k]].source)
    ensures forall k, l :: 0 <= k < l < |idx| ==> idx[k] < idx[l]
    ensures forall i :: 0 <= i < |ds| && NeedsHash(ds[i].source) ==> i in idx
  {
    if |ds| == 0 then []
    else
      var front := SelectedIndices(ds[..|ds| - 1]);
      if NeedsHash(ds[|ds| - 1].source) then front + [|ds| - 1] else front
  }

  predicate IndicesInto(idx: seq<nat>, ds: seq<CrateDerivation>) {
    && (forall k :: 0 <= k < |idx| ==> idx[k] < |ds|)
    && (forall k, l :: 0 <= k < l < |idx| ==> idx[k] < idx[l])
  }

  /** The crates at `idx`, in order: the `packages` vector. */
  function Packages(ds: seq<CrateDerivation>, idx: seq<nat>): (ps: seq<CrateDerivation>)
    requires IndicesInto(idx, ds)
    ensures |ps| == |idx|
    ensures forall k :: 0 <= k < |idx| ==> ps[k] == ds[idx[k]]
  {
    seq(|idx|, k requires 0 <= k < |idx| => ds[idx[k]])
  }

  /** The selected crates whose id the old hashes lack, in input order: the
      crates that cost an external fetch. */
  function UncachedPackages(ds: seq<CrateDerivation>, oldHashes: Hashes): (ws: seq<CrateDerivation>)
    ensures |ws| <= |ds|
  {
    if |ds| == 0 then []
    else
      var front := UncachedPackages(ds[..|ds| - 1], oldHashes);
      var last := ds[|ds| - 1];
      if NeedsHash(last.source) && last.packageId !in oldHashes then front + [last] else front
  }

  /** A crate is in the work list iff it is selected and its id is not cached. */
  lemma {:induction false} UncachedPackagesSpec(ds: seq<CrateDerivation>, oldHashes: Hashes)
    ensures forall d :: d in UncachedPackages(ds, oldHashes) <==> d in ds && NeedsHash(d.source) && d.packageId !in oldHashes
  {
    if |ds| > 0 {
      var front := ds[..|ds| - 1];
      UncachedPackagesSpec(front, oldHashes);
      assert ds == front + [ds[|ds| - 1]];
    }
  }

  /** How the hash of a crate without a cached one is obtained. */
  type Fetcher = CrateDerivation -> Result<string, Error>

  /** The hash of one selected crate: the trimmed cached value if the old hashes
      have its id, the fetched one otherwise. */
  function PackageHash(fetch: Fetcher, oldHashes: Hashes, p: CrateDerivation): Result<string, Error> {
    if p.packageId in oldHashes then Success(Trim(oldHashes[p.packageId])) else fetch(p)
  }

  /** One element of the `triples` vector, plus whether it cost a fetch (and so
      one step of the progress bar). */
  datatype Resolved = Resolved(source: Source, id: PackageId, sha256: string, fetched: bool)

  /** The closure mapped over `packages`. */
  function ResolvePackage(fetch: Fetcher, withSha256: (Source, string) -> Source, oldHashes: Hashes, p: CrateDerivation): Result<Resolved, Error> {
    var sha256 :- PackageHash(fetch, oldHashes, p);
    Success(Resolved(withSha256(p.source, sha256), p.packageId, sha256, p.packageId !in oldHashes))
  }

  /** `collect::<Result<Vec<_>, _>>()`: every element in order, or the first failure. */
  function CollectResolved(fetch: Fetcher, withSha256: (Source, string) -> Source, oldHashes: Hashes, ps: seq<CrateDerivation>): (r: Result<seq<Resolved>, Error>)
    ensures r.Success? ==> |r.value| == |ps|
  {
    if |ps| == 0 then Success([])
    else
      var first :- ResolvePackage(fetch, withSha256, oldHashes, ps[0]);
      var rest :- CollectResolved(fetch, withSha256, oldHashes, ps[1..]);
      Success([first] + rest)
  }

  /** The collected vector is there iff every element resolves, and then holds
      each element's value in order; a failure is the failure of some element. */
  lemma {:induction false} CollectResolvedSpec(fetch: Fetcher, withSha256: (Source, string) -> Source, oldHashes: Hashes, ps: seq<CrateDerivation>)
    ensures var r := CollectResolved(fetch, withSha256, oldHashes, ps);
            && (r.Success? <==> forall k :: 0 <= k < |ps| ==> ResolvePackage(fetch, withSha256, oldHashes, ps[k]).Success?)
            && (r.Success? ==> forall k :: 0 <= k < |ps| ==> r.value[k] == ResolvePackage(fetch, withSha256, oldHashes, ps[k]).value)
            && (r.Failure? ==> exists k :: 0 <= k < |ps| && ResolvePackage(fetch, withSha256, oldHashes, ps[k]) == Failure(r.error))
  {
    if |ps| > 0 {
      CollectResolvedSpec(fetch, withSha256, oldHashes, ps[1..]);
      assert forall k :: 1 <= k < |ps| ==> ps[1..][k - 1] == ps[k];
      var r := CollectResolved(fetch, withSha256, oldHashes, ps);
      if ResolvePackage(fetch, withSha256, oldHashes, ps[0]).Success? && r.Failure? {
        var rest := CollectResolved(fetch, withSha256, oldHashes, ps[1..]);
        var k :| 0 <= k < |ps[1..]| && ResolvePackage(fetch, withSha256, oldHashes, ps[1..][k]) == Failure(rest.error);
        assert ResolvePackage(fetch, withSha256, oldHashes, ps[k + 1]) == Failure(r.error);
      }
    }
  }

  /** The ids of the fetched elements, in order: one per `pb.inc(1)`. */
  function FetchedIds(rs: seq<Resolved>): (ids: seq<PackageId>)
    ensures |ids| <= |rs|
  {
    if |rs| == 0 then []
    else
      var front := FetchedIds(rs[..|rs| - 1]);
      if rs[|rs| - 1].fetched then front + [rs[|rs| - 1].id] else front
  }

  /** An id is listed as fetched iff some fetched element carries it. */
  lemma {:induction false} FetchedIdsSpec(rs: seq<Resolved>)
    ensures forall id :: id in FetchedIds(rs) <==> exists k :: 0 <= k < |rs| && rs[k].fetched && rs[k].id == id
  {
    if |rs| > 0 {
      FetchedIdsSpec(rs[..|rs| - 1]);
      assert forall k :: 0 <= k < |rs| - 1 ==> rs[..|rs| - 1][k] == rs[k];
    }
  }

  /** The source half of the first `n` steps of the zip loop: the crate at
      `idx[k]` takes the new source of `rs[k]`. */
  function ApplySources(ds: seq<CrateDerivation>, idx: seq<nat>, rs: seq<Resolved>, n: nat): (out: seq<CrateDerivation>)
    requires IndicesInto(idx, ds)
    requires n <= |idx| == |rs|
    ensures |out| == |ds|
  {
    if n == 0 then ds
    else
      var front := ApplySources(ds, idx, rs, n - 1);
      var i := idx[n - 1];
      front[i := front[i].(source := rs[n - 1].source)]
  }

  /** Only the crates at the first `n` selected positions change, each taking its
      pair's new source, and no field but the source ever changes. */
  lemma {:induction false} ApplySourcesSpec(ds: seq<CrateDerivation>, idx: seq<nat>, rs: seq<Resolved>, n: nat)
    requires IndicesInto(idx, ds)
    requires n <= |idx| == |rs|
    ensures forall i :: 0 <= i < |ds| && i !in idx[..n] ==> ApplySources(ds, idx, rs, n)[i] == ds[i]
    ensures forall k :: 0 <= k < n ==> ApplySources(ds, idx, rs, n)[idx[k]] == ds[idx[k]].(source := rs[k].source)
    ensures forall i :: 0 <= i < |ds| ==> ApplySources(ds, idx, rs, n)[i].(source := ds[i].source) == ds[i]
  {
    if n > 0 {
      ApplySourcesSpec(ds, idx, rs, n - 1);
      var i := idx[n - 1];
      assert idx[..n] == idx[..n - 1] + [i];
      assert forall k :: 0 <= k < n - 1 ==> idx[k] != i;
    }
  }

  /** The map half of the first `n` steps of the zip loop. */
  function InsertHashes(rs: seq<Resolved>, n: nat): (hashes: Hashes)
    requires n <= |rs|
  {
    if n == 0 then map[]
    else InsertHashes(rs, n - 1)[rs[n - 1].id := rs[n - 1].sha256]
  }

  /** The map holds exactly the ids of the first `n` pairs, each bound to the hash
      of a pair carrying it. */
  lemma {:induction false} InsertHashesSpec(rs: seq<Resolved>, n: nat)
    requires n <= |rs|
    ensures InsertHashes(rs, n).Keys == set k | 0 <= k < n :: rs[k].id
    ensures forall id :: id in InsertHashes(rs, n) ==> exists k :: 0 <= k < n && rs[k].id == id && InsertHashes(rs, n)[id] == rs[k].sha256
  {
    if n > 0 {
      InsertHashesSpec(rs, n - 1);
      var front := InsertHashes(rs, n - 1);
      var last := rs[n - 1];
      var hashes := InsertHashes(rs, n);
      assert hashes.Keys == (set k | 0 <= k < n - 1 :: rs[k].id) + {last.id};
      forall id | id in hashes
        ensures exists k :: 0 <= k < n && rs[k].id == id && hashes[id] == rs[k].sha256
      {
        if id == last.id {
          assert rs[n - 1].id == id;
        } else {
          var k :| 0 <= k < n - 1 && rs[k].id == id && front[id] == rs[k].sha256;
        }
      }
    }
  }

  /** What happened to the hash file. */
  datatype CacheWrite =
    | Untouched                   // the new map equals the old one
    | Written(hashes: Hashes)     // rewritten with this map
    | WriteFailed(hashes: Hashes) // this map could not be written

  /** Everything a `prefetch` call leaves behind. */
  datatype PrefetchOutcome = PrefetchOutcome(
    derivations: seq<CrateDerivation>,   // the caller's crates afterwards
    cacheWrite: CacheWrite,              // what happened to the hash file
    fetched: seq<PackageId>,             // the crates actually fetched, in order
    result: Result<Hashes, Error>)       // the returned map, or the error

  /** `prefetch(config, crate_derivations)`, fetching with `fetch`. */
  function Prefetch(env: Env, fetch: Fetcher, file: CacheFile, ds: seq<CrateDerivation>): (out: PrefetchOutcome)
    ensures |out.derivations| == |ds|
    ensures out.cacheWrite.Written? ==> out.result == Success(out.cacheWrite.hashes)
    ensures out.cacheWrite.WriteFailed? ==> out.result == Failure(CacheWriteFailed) && !file.writable
    ensures out.result.Failure? && !out.cacheWrite.WriteFailed? ==> out.derivations == ds && out.fetched == []
  {
    match LoadOldHashes(env.decodeHashes, file.content)
    case Failure(e) => PrefetchOutcome(ds, Untouched, [], Failure(e))
    case Success(oldHashes) =>
      var idx := SelectedIndices(ds);
      match CollectResolved(fetch, env.withSha256, oldHashes, Packages(ds, idx))
      case Failure(e) => PrefetchOutcome(ds, Untouched, [], Failure(e))
      case Success(rs) => WriteBack(file, ds, idx, oldHashes, rs)
  }

  /** The zip loop and the write of the hash file, once every hash is known. */
  function WriteBack(file: CacheFile, ds: seq<CrateDerivation>, idx: seq<nat>, oldHashes: Hashes, rs: seq<Resolved>): (out: PrefetchOutcome)
    requires IndicesInto(idx, ds) && |rs| == |idx|
  {
    var updated := ApplySources(ds, idx, rs, |rs|);
    var hashes := InsertHashes(rs, |rs|);
    var fetched := FetchedIds(rs);
    if hashes == oldHashes then PrefetchOutcome(updated, Untouched, fetched, Success(hashes))
    else if file.writable then PrefetchOutcome(updated, Written(hashes), fetched, Success(hashes))
    else PrefetchOutcome(updated, WriteFailed(hashes), fetched, Failure(CacheWriteFailed))
  }
}
