/** The length of the progress bar `prefetch` shows, and how it relates to the
    number of steps the bar is advanced by.

    The length counts the work list (selected crates without a cached hash) with
    repeated sources counted once (`unique_by(|p| &p.source)`), while the bar is
    advanced once per crate that is actually fetched.

    `unique_by` compares sources with the `Eq` of `ResolvedSource`, which is
    defined in resolve.rs, outside this model, and whose variants may carry more
    fields than the ones `Source` keeps. So the identity it compares is a
    parameter `key`. What is known of it is that equal keys mean equal sources,
    so equal modelled sources (`KeyRespectsSource`). `StructuralKey`, the modelled
    source itself, is the coarsest such identity. */
module Progress {
  import opened Wrappers
  import opened Model
  import opened Prefetcher
  import opened PrefetchProperties

  /** No value occurs twice. */
  predicate Distinct<K(==, !new)>(xs: seq<K>) {
    forall i, j :: 0 <= i < j < |xs| ==> xs[i] != xs[j]
  }

  /** The values of a sequence, as a set. */
  function Elements<K(==, !new)>(xs: seq<K>): set<K> {
    set x | x in xs
  }

  /** `unique_by` on the keys themselves: the first occurrence of every value not
      already in `seen`, in order. */
  function UniqueBy<K(==, !new)>(xs: seq<K>, seen: set<K>): (r: seq<K>)
    ensures forall x :: x in r <==> x in xs && x !in seen
    ensures Distinct(r)
    ensures |r| <= |xs|
  {
    if |xs| == 0 then []
    else if xs[0] in seen then UniqueBy(xs[1..], seen)
    else [xs[0]] + UniqueBy(xs[1..], seen + {xs[0]})
  }

  /** An identity of sources is sound when crates it identifies have equal
      modelled sources: `ResolvedSource` equality implies equality of every field
      the model keeps. */
  ghost predicate KeyRespectsSource<K(!new)>(key: CrateDerivation -> K) {
    forall a: CrateDerivation, b: CrateDerivation :: key(a) == key(b) ==> a.source == b.source
  }

  /** The modelled source itself, compared structurally. */
  function StructuralKey(c: CrateDerivation): Source {
    c.source
  }

  /** The keys of the work list, in order. */
  function WorkKeys<K(==, !new)>(ds: seq<CrateDerivation>, oldHashes: Hashes, key: CrateDerivation -> K): (keys: seq<K>)
    ensures |keys| == |UncachedPackages(ds, oldHashes)|
    ensures forall k :: 0 <= k < |keys| ==> keys[k] == key(UncachedPackages(ds, oldHashes)[k])
  {
    var ws := UncachedPackages(ds, oldHashes);
    seq(|ws|, k requires 0 <= k < |ws| => key(ws[k]))
  }

  /** `without_hash_num`: the length the bar is created with. */
  function ProgressTotal<K(==, !new)>(ds: seq<CrateDerivation>, oldHashes: Hashes, key: CrateDerivation -> K): nat {
    |UniqueBy(WorkKeys(ds, oldHashes, key), {})|
  }

  /** The number of fetches: the length that makes the bar end exactly full. */
  function FetchTotal(ds: seq<CrateDerivation>, oldHashes: Hashes): nat {
    |UncachedPackages(ds, oldHashes)|
  }

  /** A sequence without repeats has as many values as positions. */
  lemma {:induction false} DistinctCard<K(!new)>(xs: seq<K>)
    requires Distinct(xs)
    ensures |Elements(xs)| == |xs|
  {
    if |xs| > 0 {
      var rest := xs[1..];
      DistinctCard(rest);
      assert Elements(xs) == {xs[0]} + Elements(rest);
      assert xs[0] !in Elements(rest) by {
        forall k | 0 <= k < |rest|
          ensures rest[k] != xs[0]
        {
          assert rest[k] == xs[k + 1];
        }
      }
    }
  }

  /** A sequence never has more values than positions. */
  lemma {:induction false} CardAtMost<K(!new)>(xs: seq<K>)
    ensures |Elements(xs)| <= |xs|
  {
    if |xs| > 0 {
      CardAtMost(xs[1..]);
      assert Elements(xs) == {xs[0]} + Elements(xs[1..]);
    }
  }

  /** A repeated value leaves fewer values than positions. */
  lemma CardBelowOnRepeat<K(!new)>(xs: seq<K>, k: nat, l: nat)
    requires k < l < |xs| && xs[k] == xs[l]
    ensures |Elements(xs)| < |xs|
  {
    var without := xs[..l] + xs[l + 1..];
    assert Elements(xs) == Elements(without) by {
      assert xs == xs[..l] + [xs[l]] + xs[l + 1..];
      assert without[k] == xs[l];
    }
    CardAtMost(without);
  }

  /** The bar's length is the number of distinct keys in the work list. */
  lemma ProgressTotalCountsSources<K(!new)>(ds: seq<CrateDerivation>, oldHashes: Hashes, key: CrateDerivation -> K)
    ensures ProgressTotal(ds, oldHashes, key) == |Elements(WorkKeys(ds, oldHashes, key))|
  {
    var keys := WorkKeys(ds, oldHashes, key);
    var u := UniqueBy(keys, {});
    assert Elements(u) == Elements(keys);
    DistinctCard(u);
  }

  /** The bar's length equals the number of fetches iff no two crates of the
      work list share a key; otherwise it is smaller. */
  lemma ProgressExactIffDistinct<K(!new)>(ds: seq<CrateDerivation>, oldHashes: Hashes, key: CrateDerivation -> K)
    ensures ProgressTotal(ds, oldHashes, key) <= FetchTotal(ds, oldHashes)
    ensures ProgressTotal(ds, oldHashes, key) == FetchTotal(ds, oldHashes) <==> Distinct(WorkKeys(ds, oldHashes, key))
  {
    var keys := WorkKeys(ds, oldHashes, key);
    ProgressTotalCountsSources(ds, oldHashes, key);
    CardAtMost(keys);
    if Distinct(keys) {
      DistinctCard(keys);
    } else {
      var k, l :| 0 <= k < l < |keys| && keys[k] == keys[l];
      CardBelowOnRepeat(keys, k, l);
    }
  }

  /** Under a sound identity, a bar shorter than the number of fetches means two
      crates of the work list have equal modelled sources. */
  lemma ShortBarNeedsSharedSource<K(!new)>(ds: seq<CrateDerivation>, oldHashes: Hashes, key: CrateDerivation -> K)
    requires KeyRespectsSource(key)
    requires ProgressTotal(ds, oldHashes, key) < FetchTotal(ds, oldHashes)
    ensures exists k, l :: (0 <= k < l < |UncachedPackages(ds, oldHashes)|
                            && UncachedPackages(ds, oldHashes)[k].source == UncachedPackages(ds, oldHashes)[l].source)
  {
    ProgressExactIffDistinct(ds, oldHashes, key);
    var ws := UncachedPackages(ds, oldHashes);
    var keys := WorkKeys(ds, oldHashes, key);
    var k, l :| 0 <= k < l < |keys| && keys[k] == keys[l];
    assert key(ws[k]) == key(ws[l]);
    assert ws[k].source == ws[l].source;
  }

  /** Corrected: a successful call advances the bar exactly `FetchTotal` times,
      so a bar of that length ends full. */
  lemma ProgressCompletes(env: Env, fetch: Fetcher, file: CacheFile, ds: seq<CrateDerivation>, oldHashes: Hashes)
    requires StartsFrom(env, file, oldHashes)
    requires Prefetch(env, fetch, file, ds).result.Success?
    ensures |Prefetch(env, fetch, file, ds).fetched| == FetchTotal(ds, oldHashes)
  {
    PrefetchFetchesExactly(env, fetch, file, ds, oldHashes);
  }

  /** As written: when two crates of the work list share a key, a successful call
      advances the bar more often than its length. */
  lemma ProgressOvershoots<K(!new)>(env: Env, fetch: Fetcher, file: CacheFile, ds: seq<CrateDerivation>, oldHashes: Hashes, key: CrateDerivation -> K, k: nat, l: nat)
    requires StartsFrom(env, file, oldHashes)
    requires Prefetch(env, fetch, file, ds).result.Success?
    requires k < l < |UncachedPackages(ds, oldHashes)|
    requires key(UncachedPackages(ds, oldHashes)[k]) == key(UncachedPackages(ds, oldHashes)[l])
    ensures ProgressTotal(ds, oldHashes, key) < |Prefetch(env, fetch, file, ds).fetched|
  {
    ProgressCompletes(env, fetch, file, ds, oldHashes);
    ProgressExactIffDistinct(ds, oldHashes, key);
    assert WorkKeys(ds, oldHashes, key)[k] == WorkKeys(ds, oldHashes, key)[l];
  }

  /** Two selected crates without cached hashes that share a key: the bar is one
      long and two fetches are made. */
  lemma SharedPairOvershoots<K(!new)>(a: CrateDerivation, b: CrateDerivation, key: CrateDerivation -> K)
    requires NeedsHash(a.source) && NeedsHash(b.source)
    requires key(a) == key(b)
    ensures ProgressTotal([a, b], map[], key) == 1 && FetchTotal([a, b], map[]) == 2
  {
    var ds := [a, b];
    assert ds[..1] == [a];
    assert UncachedPackages(ds[..1], map[]) == [a];
    assert UncachedPackages(ds, map[]) == ds;
    assert WorkKeys(ds, map[], key) == [key(a), key(a)];
    assert UniqueBy([key(a), key(a)], {}) == [key(a)];
  }

  /** Under the structural identity, any two crates.io crates without a hash
      share the source `CratesIo(None)`: the bar is one long and both are fetched. */
  lemma CratesIoPairOvershoots(a: CrateDerivation, b: CrateDerivation)
    requires a.source == CratesIo(None) && b.source == CratesIo(None)
    ensures ProgressTotal([a, b], map[], StructuralKey) == 1 && FetchTotal([a, b], map[]) == 2
  {
    SharedPairOvershoots(a, b, StructuralKey);
  }

  /** Two crates of one git repository at one revision, neither cached: under the
      structural identity the bar is one long and is advanced twice. */
  lemma OvershootExample()
    ensures var src := Git("https://example.org/repo.git", "0123abc", None, None);
            var ds := [CrateDerivation("a 0.1.0", "a", "0.1.0", src), CrateDerivation("b 0.1.0", "b", "0.1.0", src)];
            ProgressTotal(ds, map[], StructuralKey) == 1 && FetchTotal(ds, map[]) == 2
  {
    var src := Git("https://example.org/repo.git", "0123abc", None, None);
    SharedPairOvershoots(CrateDerivation("a 0.1.0", "a", "0.1.0", src), CrateDerivation("b 0.1.0", "b", "0.1.0", src), StructuralKey);
  }

  /** The structural identity is sound. */
  lemma StructuralKeyRespectsSource()
    ensures KeyRespectsSource(StructuralKey)
  {
  }
}
