/** What a `prefetch` call guarantees, for any fetcher: which crates it touches,
    which hashes it returns and where each comes from, when it fetches, when it
    rewrites the hash file, and what a failing fetch leaves behind. */
module PrefetchProperties {
  import opened Wrappers
  import opened Model
  import opened Text
  import opened Prefetcher

  /** Ids of the crates `prefetch` works on. */
  ghost function SelectedIds(ds: seq<CrateDerivation>): set<PackageId> {
    set i | 0 <= i < |ds| && NeedsHash(ds[i].source) :: ds[i].packageId
  }

  /** Cargo gives every package of a workspace its own id. */
  predicate UniqueIds(ds: seq<CrateDerivation>) {
    forall i, j :: 0 <= i < j < |ds| ==> ds[i].packageId != ds[j].packageId
  }

  /** The old hashes a call starts from, when the hash file decodes. */
  predicate StartsFrom(env: Env, file: CacheFile, oldHashes: Hashes) {
    env.decodeHashes(file.content.GetOr(EmptyJson)) == Some(oldHashes)
  }

  /** The ids of some crates, in order. */
  function IdsOf(ps: seq<CrateDerivation>): (ids: seq<PackageId>)
    ensures |ids| == |ps|
    ensures forall k :: 0 <= k < |ps| ==> ids[k] == ps[k].packageId
  {
    seq(|ps|, k requires 0 <= k < |ps| => ps[k].packageId)
  }

  /** The intermediate values of a call whose fetches all succeeded. */
  lemma Collected(env: Env, fetch: Fetcher, file: CacheFile, ds: seq<CrateDerivation>)
    returns (oldHashes: Hashes, idx: seq<nat>, rs: seq<Resolved>)
    requires Prefetch(env, fetch, file, ds).result.Success? || Prefetch(env, fetch, file, ds).cacheWrite.WriteFailed?
    ensures StartsFrom(env, file, oldHashes)
    ensures idx == SelectedIndices(ds) && IndicesInto(idx, ds)
    ensures |rs| == |idx|
    ensures forall k :: 0 <= k < |rs| ==>
              && rs[k].id == ds[idx[k]].packageId
              && PackageHash(fetch, oldHashes, ds[idx[k]]) == Success(rs[k].sha256)
              && rs[k].source == env.withSha256(ds[idx[k]].source, rs[k].sha256)
              && rs[k].fetched == (rs[k].id !in oldHashes)
    ensures Prefetch(env, fetch, file, ds).derivations == ApplySources(ds, idx, rs, |rs|)
    ensures Prefetch(env, fetch, file, ds).fetched == FetchedIds(rs)
    ensures Prefetch(env, fetch, file, ds).result.Success? ==> Prefetch(env, fetch, file, ds).result.value == InsertHashes(rs, |rs|)
    ensures Prefetch(env, fetch, file, ds).cacheWrite.WriteFailed? ==> InsertHashes(rs, |rs|) != oldHashes
    ensures Prefetch(env, fetch, file, ds).cacheWrite.Untouched? <==> InsertHashes(rs, |rs|) == oldHashes
  {
    var loaded := LoadOldHashes(env.decodeHashes, file.content);
    oldHashes := loaded.value;
    idx := SelectedIndices(ds);
    rs := CollectResolved(fetch, env.withSha256, oldHashes, Packages(ds, idx)).value;
    ResolvedPairs(fetch, env.withSha256, oldHashes, ds, idx, rs);
    assert Prefetch(env, fetch, file, ds) == WriteBack(file, ds, idx, oldHashes, rs);
  }

  /** The pairs a successful collection yields, position by position. */
  lemma ResolvedPairs(fetch: Fetcher, withSha256: (Source, string) -> Source, oldHashes: Hashes,
                      ds: seq<CrateDerivation>, idx: seq<nat>, rs: seq<Resolved>)
    requires IndicesInto(idx, ds)
    requires CollectResolved(fetch, withSha256, oldHashes, Packages(ds, idx)) == Success(rs)
    ensures |rs| == |idx|
    ensures forall k :: 0 <= k < |rs| ==>
              && rs[k].id == ds[idx[k]].packageId
              && PackageHash(fetch, oldHashes, ds[idx[k]]) == Success(rs[k].sha256)
              && rs[k].source == withSha256(ds[idx[k]].source, rs[k].sha256)
              && rs[k].fetched == (rs[k].id !in oldHashes)
  {
    var ps := Packages(ds, idx);
    CollectResolvedSpec(fetch, withSha256, oldHashes, ps);
    forall k | 0 <= k < |rs|
      ensures rs[k] == ResolvePackage(fetch, withSha256, oldHashes, ds[idx[k]]).value
    {
      assert ps[k] == ds[idx[k]];
    }
  }

  /** The zip's map has exactly the ids of the selected crates. */
  lemma SelectedKeys(ds: seq<CrateDerivation>, idx: seq<nat>, rs: seq<Resolved>)
    requires idx == SelectedIndices(ds) && |rs| == |idx|
    requires forall k :: 0 <= k < |rs| ==> rs[k].id == ds[idx[k]].packageId
    ensures InsertHashes(rs, |rs|).Keys == SelectedIds(ds)
  {
    var keys := InsertHashes(rs, |rs|).Keys;
    InsertHashesSpec(rs, |rs|);
    forall id | id in SelectedIds(ds)
      ensures id in keys
    {
      var i :| 0 <= i < |ds| && NeedsHash(ds[i].source) && ds[i].packageId == id;
      var k :| 0 <= k < |idx| && idx[k] == i;
      assert rs[k].id == id;
    }
    forall id | id in keys
      ensures id in SelectedIds(ds)
    {
      var k :| 0 <= k < |rs| && rs[k].id == id;
      assert ds[idx[k]].packageId == id;
    }
  }

  /** The returned map has exactly the ids of the selected crates: old entries of
      crates not in this run are dropped. */
  lemma PrefetchKeys(env: Env, fetch: Fetcher, file: CacheFile, ds: seq<CrateDerivation>)
    requires Prefetch(env, fetch, file, ds).result.Success?
    ensures Prefetch(env, fetch, file, ds).result.value.Keys == SelectedIds(ds)
  {
    var oldHashes, idx, rs := Collected(env, fetch, file, ds);
    SelectedKeys(ds, idx, rs);
  }

  /** Whatever the outcome, only the sources of selected crates can change: every
      other crate, and every other field, is left as it was. */
  lemma PrefetchFrame(env: Env, fetch: Fetcher, file: CacheFile, ds: seq<CrateDerivation>)
    ensures |Prefetch(env, fetch, file, ds).derivations| == |ds|
    ensures forall i :: 0 <= i < |ds| && !NeedsHash(ds[i].source) ==> Prefetch(env, fetch, file, ds).derivations[i] == ds[i]
    ensures forall i :: 0 <= i < |ds| ==> Prefetch(env, fetch, file, ds).derivations[i].(source := ds[i].source) == ds[i]
  {
    var out := Prefetch(env, fetch, file, ds);
    if out.result.Success? || out.cacheWrite.WriteFailed? {
      var oldHashes, idx, rs := Collected(env, fetch, file, ds);
      ApplySourcesSpec(ds, idx, rs, |rs|);
      forall i | 0 <= i < |ds| && !NeedsHash(ds[i].source)
        ensures out.derivations[i] == ds[i]
      {
        assert i !in idx[..|rs|];
      }
    }
  }

  /** With unique ids, two selected positions carrying the same id are the same. */
  lemma SameIdSamePosition(ds: seq<CrateDerivation>, idx: seq<nat>, k: nat, k': nat)
    requires UniqueIds(ds) && IndicesInto(idx, ds)
    requires k < |idx| && k' < |idx|
    requires ds[idx[k]].packageId == ds[idx[k']].packageId
    ensures k == k'
  {
    assert idx[k] == idx[k'];
  }

  /** With unique ids, the map the zip builds binds each pair's id to that
      pair's own hash. */
  lemma LookupSelected(ds: seq<CrateDerivation>, idx: seq<nat>, rs: seq<Resolved>, k: nat)
    requires UniqueIds(ds) && IndicesInto(idx, ds)
    requires |rs| == |idx| && k < |rs|
    requires forall j :: 0 <= j < |rs| ==> rs[j].id == ds[idx[j]].packageId
    ensures rs[k].id in InsertHashes(rs, |rs|)
    ensures InsertHashes(rs, |rs|)[rs[k].id] == rs[k].sha256
  {
    var hashes := InsertHashes(rs, |rs|);
    InsertHashesSpec(rs, |rs|);
    assert rs[k].id in hashes.Keys;
    var k' :| 0 <= k' < |rs| && rs[k'].id == rs[k].id && hashes[rs[k].id] == rs[k'].sha256;
    SameIdSamePosition(ds, idx, k, k');
  }

  /** Each selected crate's new source is its old source with the hash the call
      returns for that crate's own id. */
  lemma PrefetchCorrelation(env: Env, fetch: Fetcher, file: CacheFile, ds: seq<CrateDerivation>)
    requires UniqueIds(ds)
    requires Prefetch(env, fetch, file, ds).result.Success?
    ensures forall i :: 0 <= i < |ds| && NeedsHash(ds[i].source) ==>
              && ds[i].packageId in Prefetch(env, fetch, file, ds).result.value
              && Prefetch(env, fetch, file, ds).derivations[i].source ==
                 env.withSha256(ds[i].source, Prefetch(env, fetch, file, ds).result.value[ds[i].packageId])
  {
    var out := Prefetch(env, fetch, file, ds);
    var oldHashes, idx, rs := Collected(env, fetch, file, ds);
    ApplySourcesSpec(ds, idx, rs, |rs|);
    forall i | 0 <= i < |ds| && NeedsHash(ds[i].source)
      ensures ds[i].packageId in out.result.value && out.derivations[i].source == env.withSha256(ds[i].source, out.result.value[ds[i].packageId])
    {
      var k :| 0 <= k < |idx| && idx[k] == i;
      LookupSelected(ds, idx, rs, k);
    }
  }

  /** A selected crate whose id the old hashes have gets the trimmed cached value
      and is not fetched. */
  lemma PrefetchCacheHit(env: Env, fetch: Fetcher, file: CacheFile, ds: seq<CrateDerivation>, oldHashes: Hashes, i: nat)
    requires StartsFrom(env, file, oldHashes)
    requires Prefetch(env, fetch, file, ds).result.Success?
    requires i < |ds| && NeedsHash(ds[i].source) && ds[i].packageId in oldHashes
    ensures ds[i].packageId in Prefetch(env, fetch, file, ds).result.value
    ensures Prefetch(env, fetch, file, ds).result.value[ds[i].packageId] == Trim(oldHashes[ds[i].packageId])
    ensures ds[i].packageId !in Prefetch(env, fetch, file, ds).fetched
  {
    var old', idx, rs := Collected(env, fetch, file, ds);
    var k :| 0 <= k < |idx| && idx[k] == i;
    LookupCached(fetch, ds, idx, oldHashes, rs, k);
    FetchedIdsSpec(rs);
  }

  /** A cached id is bound, in the map the zip builds, to its trimmed old hash. */
  lemma LookupCached(fetch: Fetcher, ds: seq<CrateDerivation>, idx: seq<nat>, oldHashes: Hashes, rs: seq<Resolved>, k: nat)
    requires IndicesInto(idx, ds) && |rs| == |idx| && k < |rs|
    requires forall j :: 0 <= j < |rs| ==>
               && rs[j].id == ds[idx[j]].packageId
               && PackageHash(fetch, oldHashes, ds[idx[j]]) == Success(rs[j].sha256)
    requires rs[k].id in oldHashes
    ensures rs[k].id in InsertHashes(rs, |rs|)
    ensures InsertHashes(rs, |rs|)[rs[k].id] == Trim(oldHashes[rs[k].id])
  {
    var hashes := InsertHashes(rs, |rs|);
    InsertHashesSpec(rs, |rs|);
    assert rs[k].id in hashes.Keys;
    var k' :| 0 <= k' < |rs| && rs[k'].id == rs[k].id && hashes[rs[k].id] == rs[k'].sha256;
    assert PackageHash(fetch, oldHashes, ds[idx[k']]) == Success(Trim(oldHashes[rs[k].id]));
  }

  /** A selected crate whose id the old hashes lack is fetched, and the call
      returns the fetched hash for it. */
  lemma PrefetchCacheMiss(env: Env, fetch: Fetcher, file: CacheFile, ds: seq<CrateDerivation>, oldHashes: Hashes, i: nat)
    requires UniqueIds(ds)
    requires StartsFrom(env, file, oldHashes)
    requires Prefetch(env, fetch, file, ds).result.Success?
    requires i < |ds| && NeedsHash(ds[i].source) && ds[i].packageId !in oldHashes
    ensures fetch(ds[i]).Success?
    ensures ds[i].packageId in Prefetch(env, fetch, file, ds).result.value
    ensures Prefetch(env, fetch, file, ds).result.value[ds[i].packageId] == fetch(ds[i]).value
    ensures ds[i].packageId in Prefetch(env, fetch, file, ds).fetched
  {
    var old', idx, rs := Collected(env, fetch, file, ds);
    var k :| 0 <= k < |idx| && idx[k] == i;
    LookupSelected(ds, idx, rs, k);
    FetchedIdsSpec(rs);
    assert rs[k].fetched && rs[k].id == ds[i].packageId;
  }

  /** The fetched crates are exactly the selected crates without a cached hash,
      in input order: one fetch, and one progress step, each. */
  lemma PrefetchFetchesExactly(env: Env, fetch: Fetcher, file: CacheFile, ds: seq<CrateDerivation>, oldHashes: Hashes)
    requires StartsFrom(env, file, oldHashes)
    requires Prefetch(env, fetch, file, ds).result.Success?
    ensures Prefetch(env, fetch, file, ds).fetched == IdsOf(UncachedPackages(ds, oldHashes))
  {
    var old', idx, rs := Collected(env, fetch, file, ds);
    FetchedIdsAreUncached(ds, oldHashes, rs);
  }

  lemma IdsOfSnoc(ps: seq<CrateDerivation>, p: CrateDerivation)
    ensures IdsOf(ps + [p]) == IdsOf(ps) + [p.packageId]
  {
    assert forall k :: 0 <= k < |ps| ==> (ps + [p])[k] == ps[k];
  }

  /** Over the selected positions, the fetched flags single out exactly the work
      list. */
  lemma {:induction false} FetchedIdsAreUncached(ds: seq<CrateDerivation>, oldHashes: Hashes, rs: seq<Resolved>)
    requires |rs| == |SelectedIndices(ds)|
    requires forall k :: 0 <= k < |rs| ==>
               rs[k].id == ds[SelectedIndices(ds)[k]].packageId && rs[k].fetched == (rs[k].id !in oldHashes)
    ensures FetchedIds(rs) == IdsOf(UncachedPackages(ds, oldHashes))
    decreases |ds|
  {
    if |ds| > 0 {
      var front := ds[..|ds| - 1];
      var last := ds[|ds| - 1];
      var m := |SelectedIndices(front)|;
      FetchedPrefix(ds, oldHashes, rs);
      FetchedIdsAreUncached(front, oldHashes, rs[..m]);
      if NeedsHash(last.source) {
        assert m == |rs| - 1;
        FetchedLast(ds, oldHashes, rs);
      } else {
        assert m == |rs|;
        assert rs == rs[..m];
      }
    }
  }

  /** The induction step of `FetchedIdsAreUncached` when the last crate is selected. */
  lemma FetchedLast(ds: seq<CrateDerivation>, oldHashes: Hashes, rs: seq<Resolved>)
    requires |ds| > 0 && NeedsHash(ds[|ds| - 1].source)
    requires |rs| == |SelectedIndices(ds)|
    requires forall k :: 0 <= k < |rs| ==>
               rs[k].id == ds[SelectedIndices(ds)[k]].packageId && rs[k].fetched == (rs[k].id !in oldHashes)
    requires FetchedIds(rs[..|rs| - 1]) == IdsOf(UncachedPackages(ds[..|ds| - 1], oldHashes))
    ensures FetchedIds(rs) == IdsOf(UncachedPackages(ds, oldHashes))
  {
    var front := ds[..|ds| - 1];
    var last := ds[|ds| - 1];
    assert SelectedIndices(ds)[|rs| - 1] == |ds| - 1;
    assert rs[|rs| - 1].id == last.packageId;
    if last.packageId !in oldHashes {
      IdsOfSnoc(UncachedPackages(front, oldHashes), last);
    }
  }

  /** The pairs of the selected crates before the last one meet the premise of
      `FetchedIdsAreUncached` for the crates before the last one. */
  lemma FetchedPrefix(ds: seq<CrateDerivation>, oldHashes: Hashes, rs: seq<Resolved>)
    requires |ds| > 0
    requires |rs| == |SelectedIndices(ds)|
    requires forall k :: 0 <= k < |rs| ==>
               rs[k].id == ds[SelectedIndices(ds)[k]].packageId && rs[k].fetched == (rs[k].id !in oldHashes)
    ensures |SelectedIndices(ds[..|ds| - 1])| + (if NeedsHash(ds[|ds| - 1].source) then 1 else 0) == |rs|
    ensures var front := ds[..|ds| - 1];
            var rs' := rs[..|SelectedIndices(front)|];
            && |rs'| == |SelectedIndices(front)|
            && forall k :: 0 <= k < |rs'| ==>
                 rs'[k].id == front[SelectedIndices(front)[k]].packageId && rs'[k].fetched == (rs'[k].id !in oldHashes)
  {
    var front := ds[..|ds| - 1];
    var idx' := SelectedIndices(front);
    assert SelectedIndices(ds)[..|idx'|] == idx';
    forall k | 0 <= k < |idx'|
      ensures rs[k].id == front[idx'[k]].packageId
    {
      assert SelectedIndices(ds)[k] == idx'[k];
    }
  }

  /** The hash file is rewritten iff the new map differs from the old one, and
      then with exactly the returned map. */
  lemma PrefetchWritesIffChanged(env: Env, fetch: Fetcher, file: CacheFile, ds: seq<CrateDerivation>, oldHashes: Hashes)
    requires StartsFrom(env, file, oldHashes)
    requires Prefetch(env, fetch, file, ds).result.Success?
    ensures Prefetch(env, fetch, file, ds).cacheWrite.Written? <==> Prefetch(env, fetch, file, ds).result.value != oldHashes
    ensures Prefetch(env, fetch, file, ds).cacheWrite.Untouched? <==> Prefetch(env, fetch, file, ds).result.value == oldHashes
  {
  }

  /** A missing or unreadable hash file is an empty map, when the JSON decoder
      reads `{}` as one. */
  lemma MissingCacheFileIsEmpty(decodeHashes: string -> Option<Hashes>)
    requires decodeHashes(EmptyJson) == Some(map[])
    ensures LoadOldHashes(decodeHashes, None) == Success(map[])
  {
  }

  /** With the old hashes in hand, every fetch succeeds exactly when the call gets
      as far as the hash file; otherwise the failure reported is the failure of
      one of those fetches, no crate changes and the hash file is left alone. */
  lemma PrefetchFetchFailureAborts(env: Env, fetch: Fetcher, file: CacheFile, ds: seq<CrateDerivation>, oldHashes: Hashes)
    requires StartsFrom(env, file, oldHashes)
    ensures (Prefetch(env, fetch, file, ds).result.Success? || Prefetch(env, fetch, file, ds).cacheWrite.WriteFailed?)
            <==> forall i :: 0 <= i < |ds| && NeedsHash(ds[i].source) && ds[i].packageId !in oldHashes ==> fetch(ds[i]).Success?
    ensures Prefetch(env, fetch, file, ds).result.Failure? && !Prefetch(env, fetch, file, ds).cacheWrite.WriteFailed? ==>
              && Prefetch(env, fetch, file, ds).derivations == ds
              && Prefetch(env, fetch, file, ds).cacheWrite.Untouched?
              && (exists i :: 0 <= i < |ds| && NeedsHash(ds[i].source) && ds[i].packageId !in oldHashes
                             && fetch(ds[i]) == Failure(Prefetch(env, fetch, file, ds).result.error))
  {
    assert LoadOldHashes(env.decodeHashes, file.content) == Success(oldHashes);
    CollectOrFail(fetch, env.withSha256, oldHashes, ds);
  }

  /** Collecting the selected crates succeeds iff every uncached one fetches,
      and a failure is the failure of one of those fetches. */
  lemma CollectOrFail(fetch: Fetcher, withSha256: (Source, string) -> Source, oldHashes: Hashes, ds: seq<CrateDerivation>)
    ensures var collected := CollectResolved(fetch, withSha256, oldHashes, Packages(ds, SelectedIndices(ds)));
            && (collected.Success? <==>
                forall i :: 0 <= i < |ds| && NeedsHash(ds[i].source) && ds[i].packageId !in oldHashes ==> fetch(ds[i]).Success?)
            && (collected.Failure? ==>
                exists i :: 0 <= i < |ds| && NeedsHash(ds[i].source) && ds[i].packageId !in oldHashes && fetch(ds[i]) == Failure(collected.error))
  {
    var idx := SelectedIndices(ds);
    var ps := Packages(ds, idx);
    var collected := CollectResolved(fetch, withSha256, oldHashes, ps);
    CollectResolvedSpec(fetch, withSha256, oldHashes, ps);
    if collected.Success? {
      forall i | 0 <= i < |ds| && NeedsHash(ds[i].source) && ds[i].packageId !in oldHashes
        ensures fetch(ds[i]).Success?
      {
        var k :| 0 <= k < |idx| && idx[k] == i;
        assert ResolvePackage(fetch, withSha256, oldHashes, ps[k]).Success?;
      }
    } else {
      var k :| 0 <= k < |ps| && ResolvePackage(fetch, withSha256, oldHashes, ps[k]) == Failure(collected.error);
      assert ps[k] == ds[idx[k]];
    }
  }

  /** A run whose old hashes cover every selected crate fetches nothing, so it
      reaches the hash file whatever the fetcher does. */
  lemma AllCachedProceeds(env: Env, fetch: Fetcher, file: CacheFile, ds: seq<CrateDerivation>, oldHashes: Hashes)
    requires StartsFrom(env, file, oldHashes)
    requires SelectedIds(ds) <= oldHashes.Keys
    ensures Prefetch(env, fetch, file, ds).result.Success? || Prefetch(env, fetch, file, ds).cacheWrite.WriteFailed?
    ensures Prefetch(env, fetch, file, ds).fetched == []
  {
    var idx := SelectedIndices(ds);
    var ps := Packages(ds, idx);
    assert LoadOldHashes(env.decodeHashes, file.content) == Success(oldHashes);
    forall k | 0 <= k < |ps|
      ensures ResolvePackage(fetch, env.withSha256, oldHashes, ps[k]).Success?
    {
      assert ps[k].packageId in SelectedIds(ds);
    }
    CollectResolvedSpec(fetch, env.withSha256, oldHashes, ps);
    var old', idx', rs := Collected(env, fetch, file, ds);
    NothingUncached(ds, oldHashes);
    FetchedIdsAreUncached(ds, oldHashes, rs);
  }

  /** Every value of a map, trimmed. */
  function TrimAll(hashes: Hashes): (r: Hashes)
    ensures r.Keys == hashes.Keys
  {
    map id | id in hashes :: Trim(hashes[id])
  }

  /** Running again on the same crates with the hash file the first run returned
      fetches nothing and returns the same ids with their hashes trimmed. */
  lemma SecondRunFetchesNothing(env: Env, fetch: Fetcher, first: CacheFile, second: CacheFile, ds: seq<CrateDerivation>)
    requires Prefetch(env, fetch, first, ds).result.Success?
    requires StartsFrom(env, second, Prefetch(env, fetch, first, ds).result.value)
    ensures Prefetch(env, fetch, second, ds).fetched == []
    ensures Prefetch(env, fetch, second, ds).result.Success? || Prefetch(env, fetch, second, ds).cacheWrite.WriteFailed?
    ensures Prefetch(env, fetch, second, ds).result.Success? ==>
              Prefetch(env, fetch, second, ds).result.value == TrimAll(Prefetch(env, fetch, first, ds).result.value)
  {
    var hashes := Prefetch(env, fetch, first, ds).result.value;
    PrefetchKeys(env, fetch, first, ds);
    AllCachedProceeds(env, fetch, second, ds, hashes);
    var old', idx, rs := Collected(env, fetch, second, ds);
    RebuildsTrimmed(fetch, ds, hashes, idx, rs);
  }

  /** When every hash the first run returned is already trimmed, the second run
      returns the very same map and leaves the hash file alone. */
  lemma SecondRunIsStable(env: Env, fetch: Fetcher, first: CacheFile, second: CacheFile, ds: seq<CrateDerivation>)
    requires Prefetch(env, fetch, first, ds).result.Success?
    requires StartsFrom(env, second, Prefetch(env, fetch, first, ds).result.value)
    requires forall id :: id in Prefetch(env, fetch, first, ds).result.value ==> IsTrimmed(Prefetch(env, fetch, first, ds).result.value[id])
    ensures Prefetch(env, fetch, second, ds).result == Prefetch(env, fetch, first, ds).result
    ensures Prefetch(env, fetch, second, ds).cacheWrite.Untouched?
  {
    var hashes := Prefetch(env, fetch, first, ds).result.value;
    PrefetchKeys(env, fetch, first, ds);
    AllCachedProceeds(env, fetch, second, ds, hashes);
    var old', idx, rs := Collected(env, fetch, second, ds);
    assert old' == hashes;
    RebuildsTrimmed(fetch, ds, hashes, idx, rs);
    TrimAllTrimmed(hashes);
    assert InsertHashes(rs, |rs|) == hashes;
  }

  /** When some hash the first run returned has whitespace margins (only a git
      hash, taken untrimmed from `nix-prefetch-git`'s JSON, can), the second run
      returns a different map: it rewrites the hash file with the trimmed map
      when the file is writable, and fails otherwise. */
  lemma SecondRunRewritesUntrimmed(env: Env, fetch: Fetcher, first: CacheFile, second: CacheFile, ds: seq<CrateDerivation>, id: PackageId)
    requires Prefetch(env, fetch, first, ds).result.Success?
    requires StartsFrom(env, second, Prefetch(env, fetch, first, ds).result.value)
    requires id in Prefetch(env, fetch, first, ds).result.value
    requires !IsTrimmed(Prefetch(env, fetch, first, ds).result.value[id])
    ensures !Prefetch(env, fetch, second, ds).cacheWrite.Untouched?
    ensures second.writable ==>
              Prefetch(env, fetch, second, ds).cacheWrite == Written(TrimAll(Prefetch(env, fetch, first, ds).result.value))
    ensures !second.writable ==> Prefetch(env, fetch, second, ds).result == Failure(CacheWriteFailed)
  {
    var hashes := Prefetch(env, fetch, first, ds).result.value;
    SecondRunFetchesNothing(env, fetch, first, second, ds);
    assert TrimAll(hashes)[id] != hashes[id];
    if Prefetch(env, fetch, second, ds).result.Success? {
      PrefetchWritesIffChanged(env, fetch, second, ds, hashes);
    }
  }

  /** Trimming a map of trimmed values changes nothing. */
  lemma TrimAllTrimmed(hashes: Hashes)
    requires forall id :: id in hashes ==> IsTrimmed(hashes[id])
    ensures TrimAll(hashes) == hashes
  {
    forall id | id in hashes
      ensures TrimAll(hashes)[id] == hashes[id]
    {
      TrimTrimmed(hashes[id]);
    }
  }

  /** When the old hashes hold exactly the selected ids, the map the zip builds
      is the old map with every value trimmed. */
  lemma RebuildsTrimmed(fetch: Fetcher, ds: seq<CrateDerivation>, hashes: Hashes, idx: seq<nat>, rs: seq<Resolved>)
    requires hashes.Keys == SelectedIds(ds)
    requires idx == SelectedIndices(ds) && |rs| == |idx|
    requires forall k :: 0 <= k < |rs| ==>
               && rs[k].id == ds[idx[k]].packageId
               && PackageHash(fetch, hashes, ds[idx[k]]) == Success(rs[k].sha256)
    ensures InsertHashes(rs, |rs|) == TrimAll(hashes)
  {
    var trimmed := TrimAll(hashes);
    forall k | 0 <= k < |rs|
      ensures rs[k].id in trimmed && rs[k].sha256 == trimmed[rs[k].id]
    {
      var id := ds[idx[k]].packageId;
      assert id in SelectedIds(ds);
      assert PackageHash(fetch, hashes, ds[idx[k]]) == Success(Trim(hashes[id]));
    }
    SelectedKeys(ds, idx, rs);
    InsertAgreeing(rs, trimmed);
  }

  /** Inserting pairs that all agree with a map, and cover its keys, rebuilds it. */
  lemma InsertAgreeing(rs: seq<Resolved>, hashes: Hashes)
    requires forall k :: 0 <= k < |rs| ==> rs[k].id in hashes && rs[k].sha256 == hashes[rs[k].id]
    requires InsertHashes(rs, |rs|).Keys == hashes.Keys
    ensures InsertHashes(rs, |rs|) == hashes
  {
    var built := InsertHashes(rs, |rs|);
    InsertHashesSpec(rs, |rs|);
    forall id | id in built
      ensures built[id] == hashes[id]
    {
      var k :| 0 <= k < |rs| && rs[k].id == id && built[id] == rs[k].sha256;
    }
  }

  /** No selected crate lacks a hash in a map holding every selected id. */
  lemma {:induction false} NothingUncached(ds: seq<CrateDerivation>, hashes: Hashes)
    requires SelectedIds(ds) <= hashes.Keys
    ensures UncachedPackages(ds, hashes) == []
  {
    if |ds| > 0 {
      var front := ds[..|ds| - 1];
      assert SelectedIds(front) <= SelectedIds(ds) by {
        forall id | id in SelectedIds(front)
          ensures id in SelectedIds(ds)
        {
          var i :| 0 <= i < |front| && NeedsHash(front[i].source) && front[i].packageId == id;
          assert ds[i] == front[i];
        }
      }
      NothingUncached(front, hashes);
      if NeedsHash(ds[|ds| - 1].source) {
        assert ds[|ds| - 1].packageId in SelectedIds(ds);
      }
    }
  }
}
