/** A worked run of the prefetch step: a crates.io crate and a git crate, an empty
    hash file, and tools that answer with fixed output. */
module Scenarios {
  import opened Wrappers
  import opened Model
  import opened Text
  import opened Commands
  import opened Prefetcher
  import opened PrefetchProperties
  import Utf8

  const CrateA: CrateDerivation :=
    CrateDerivation("a 0.1.0", "a", "0.1.0", CratesIo(None))
  const CrateB: CrateDerivation :=
    CrateDerivation("b 0.2.0", "b", "0.2.0", Git(RepoUrl, "0123abc", None, None))

  const RepoUrl: string := "https://example.org/b.git"

  /** `nix-prefetch-url` prints `hashA` and a newline for `CrateA`,
      `nix-prefetch-git` prints `json` for `CrateB`, whose `sha256` field is
      `hashB`, and `{}` decodes to the empty map. */
  predicate FakeTools(env: Env, hashA: string, json: string, hashB: string) {
    && env.run("nix-prefetch-url", CratesIoArgs("a", "0.1.0")) == Completed(Exited(0), Utf8.Encode(hashA + "\n"), [])
    && env.run("nix-prefetch-git", GitArgs(RepoUrl, "0123abc", None)) == Completed(Exited(0), Utf8.Encode(json), [])
    && env.decodeGitInfo(json) == Some(hashB)
    && env.decodeHashes(EmptyJson) == Some(map[])
  }

  /** A line of output loses its newline and nothing else. */
  lemma TrimLine(t: string)
    requires IsTrimmed(t)
    ensures Trim(t + "\n") == t
  {
    var s := t + "\n";
    assert s[..0] == "" && s[0..|t|] == t && s[|t|..] == "\n";
    assert IsTrimOf(t, s);
    TrimUnique(t, s);
  }

  /** The crates.io hash is the tool's output without its newline. */
  lemma FetchA(env: Env, hashA: string, json: string, hashB: string)
    requires FakeTools(env, hashA, json, hashB) && IsTrimmed(hashA)
    ensures NixFetch(env)(CrateA) == Success(hashA)
  {
    CommandOutputOfText(env.run, "nix-prefetch-url", CratesIoArgs("a", "0.1.0"), hashA + "\n");
    TrimLine(hashA);
  }

  /** The git hash is the `sha256` field of the JSON the tool prints. */
  lemma FetchB(env: Env, hashA: string, json: string, hashB: string)
    requires FakeTools(env, hashA, json, hashB) && IsTrimmed(json)
    ensures NixFetch(env)(CrateB) == Success(hashB)
  {
    CommandOutputOfText(env.run, "nix-prefetch-git", GitArgs(RepoUrl, "0123abc", None), json);
    TrimTrimmed(json);
  }

  /** Two crates without a cached hash are both selected and both lack one. */
  lemma TwoSelected(a: CrateDerivation, b: CrateDerivation)
    requires NeedsHash(a.source) && NeedsHash(b.source)
    ensures SelectedIds([a, b]) == {a.packageId, b.packageId}
    ensures UncachedPackages([a, b], map[]) == [a, b]
  {
    var ds := [a, b];
    assert ds[0] == a && ds[1] == b;
    assert ds[..1] == [a];
    assert UncachedPackages(ds[..1], map[]) == [a];
  }

  /** A map with two keys is the display of its two bindings. */
  lemma MapOfTwo(m: Hashes, k1: PackageId, v1: string, k2: PackageId, v2: string)
    requires m.Keys == {k1, k2} && k1 in m && m[k1] == v1 && k2 in m && m[k2] == v2
    ensures m == map[k1 := v1, k2 := v2]
  {
  }

  /** Two crates to prefetch, with distinct ids, no hash file and fetches that
      succeed: the run returns both hashes, writes exactly them, and fetches both
      crates in order. */
  lemma TwoFetched(env: Env, fetch: Fetcher, a: CrateDerivation, b: CrateDerivation, hashA: string, hashB: string)
    requires NeedsHash(a.source) && NeedsHash(b.source) && a.packageId != b.packageId
    requires fetch(a) == Success(hashA) && fetch(b) == Success(hashB)
    requires env.decodeHashes(EmptyJson) == Some(map[])
    ensures var out := Prefetch(env, fetch, CacheFile(None, true), [a, b]);
            var expected := map[a.packageId := hashA, b.packageId := hashB];
            && out.result == Success(expected)
            && out.cacheWrite == Written(expected)
            && out.fetched == [a.packageId, b.packageId]
  {
    var ds := [a, b];
    var file := CacheFile(None, true);
    var out := Prefetch(env, fetch, file, ds);
    assert StartsFrom(env, file, map[]);
    PrefetchFetchFailureAborts(env, fetch, file, ds, map[]);
    assert out.result.Success?;
    assert UniqueIds(ds);
    PrefetchKeys(env, fetch, file, ds);
    TwoSelected(a, b);
    PrefetchCacheMiss(env, fetch, file, ds, map[], 0);
    PrefetchCacheMiss(env, fetch, file, ds, map[], 1);
    MapOfTwo(out.result.value, a.packageId, hashA, b.packageId, hashB);
    PrefetchWritesIffChanged(env, fetch, file, ds, map[]);
    PrefetchFetchesExactly(env, fetch, file, ds, map[]);
  }

  /** With no hash file, the run returns `a` bound to the trimmed crates.io output
      and `b` to the `sha256` of the git JSON, writes exactly that map, and
      fetches both crates, `a` first. */
  lemma EndToEnd(env: Env, hashA: string, json: string, hashB: string)
    requires FakeTools(env, hashA, json, hashB) && IsTrimmed(hashA) && IsTrimmed(json)
    ensures var out := Prefetch(env, NixFetch(env), CacheFile(None, true), [CrateA, CrateB]);
            var expected := map[CrateA.packageId := hashA, CrateB.packageId := hashB];
            && out.result == Success(expected)
            && out.cacheWrite == Written(expected)
            && out.fetched == [CrateA.packageId, CrateB.packageId]
  {
    FetchA(env, hashA, json, hashB);
    FetchB(env, hashA, json, hashB);
    TwoFetched(env, NixFetch(env), CrateA, CrateB, hashA, hashB);
  }
}
