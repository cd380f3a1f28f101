# crate2nix prefetch and build helper, modelled in Dafny

This project models two parts of crate2nix, the tool that turns a Cargo dependency graph into nix build files:

- **The prefetch step** (`crate2nix/src/prefetch.rs`). It finds the nix sha256 of every crate fetched from crates.io or git.
  - It reuses the hashes stored in the crate-hash JSON file.
  - It runs `nix-prefetch-url` or `nix-prefetch-git` for the rest.
  - It writes each hash into the crate's source.
  - It rewrites the hash file when the new id-to-hash map differs from the old one. A value that changed only by trimming counts as a change.
- **The build helper** (`crate2nix/src/nix_build.rs`). It runs `nix build` on a project's `default.nix` with a list of root features. When the build fails, it prints `default.nix` with line numbers before reporting the failure.

Modules:

| file | module | contents |
|---|---|---|
| wrappers.dfy | `Wrappers` | `Option` and `Result` (with `:-` propagation) |
| text.dfy | `Text` | `str::trim` (Unicode `White_Space`), `join`, `split`, decimal formatting, `{:>w}` alignment |
| utf8.dfy | `Utf8` | `String::from_utf8` as a decoder, with the matching encoder and both round trips |
| model.dfy | `Model` | package ids, sources, crate derivations, exit statuses, errors, and the `Env` of outside collaborators |
| commands.dfy | `Commands` | `get_command_output`, the argument vectors of `nix-prefetch-url` and `nix-prefetch-git`, the two fetchers |
| prefetch.dfy | `Prefetcher` | `prefetch` itself: load, select, resolve, zip, write back |
| prefetch_properties.dfy | `PrefetchProperties` | what a `prefetch` call guarantees |
| progress.dfy | `Progress` | the length of the progress bar against the number of fetches |
| scenarios.dfy | `Scenarios` | a run on one crates.io crate and one git crate with an empty hash file |
| nix_build.dfy | `NixBuild` | `nix_build` and `dump_with_lines` |

Outside collaborators are parameters of the model:

- **Processes.** `Env.run` maps a command line to "not started" or to (exit status, stdout, stderr).
- **JSON decoding** (serde).
  - `Env.decodeHashes` reads the hash file as an id-to-string map.
  - `Env.decodeGitInfo` reads the `sha256` field of `nix-prefetch-git`'s output.
- **`ResolvedSource::with_sha256`.** It is `Env.withSha256`.
- **`escape_nix_string`.** It is the `escape` parameter of the build helper.
- **The fetch used by `prefetch`.** It is the `fetch` parameter. `Commands.NixFetch` is the one the program uses.
- **The file system.**
  - The hash file is a `CacheFile`: its text, or none, and whether a write would succeed.
  - `default.nix` is a `DumpFile`: not openable, or its bytes.
  - The `nix build` run is `runNix`.

## Operations

Each function of the two Rust files is one Dafny function. The lemma rows below state what each one guarantees.

| Rust function | source | Dafny function |
|---|---|---|
| `prefetch` | crate2nix/src/prefetch.rs:22-86 | `Prefetcher.Prefetch`. Its steps are `LoadOldHashes` (lines 26-29), `SelectedIndices` and `Packages` (35-42), `UncachedPackages` and `Progress.ProgressTotal` (43-47), `PackageHash`, `ResolvePackage` and `CollectResolved` (54-67), and `WriteBack` with `ApplySources` and `InsertHashes` (69-85). |
| `get_command_output` | crate2nix/src/prefetch.rs:88-107 | `Commands.CommandOutput` |
| `nix_prefetch_from_crates_io` | crate2nix/src/prefetch.rs:110-128 | `Commands.PrefetchFromCratesIo`, with `CratesIoUrl` and `CratesIoArgs` |
| `nix_prefetch_from_git` | crate2nix/src/prefetch.rs:140-165 | `Commands.PrefetchFromGit`, with `GitArgs` |
| the fetch dispatch | crate2nix/src/prefetch.rs:58-62 | `Commands.NixFetch` |
| `nix_build` | crate2nix/src/nix_build.rs:13-58 | `NixBuild.NixBuildCall`, with `BuildArgs` (lines 24-40) and `FeatureList` (33-40) |
| `dump_with_lines` | crate2nix/src/nix_build.rs:61-73 | `NixBuild.DumpWithLines`. Its steps are `ReadLines` (`lines()`, lines 65-68), `DumpLine` (the `{:>5}: {}` format, line 69) and `NumberLines` (the loop, lines 68-72). |

## Model

| member | source | states |
|---|---|---|
| Text.Trim | crate2nix/src/prefetch.rs:104-105 | The result is the input with its Unicode whitespace margins cut off, and has no whitespace at either end. |
| Text.TrimUnique | crate2nix/src/prefetch.rs:104-105 | Any string that is the input minus whitespace margins and has none of its own is exactly what `trim` returns. |
| Text.TrimIdempotent | crate2nix/src/prefetch.rs:56 | Trimming a trimmed hash changes nothing. |
| Text.DecimalRoundTrip | crate2nix/src/nix_build.rs:69 | Reading the printed line number back as digits gives the number. |
| Text.DecimalWidth | crate2nix/src/nix_build.rs:69 | A number prints in at most `w` digits exactly when it is below 10^w. |
| Text.PadLeft | crate2nix/src/nix_build.rs:69 | Right alignment keeps the text as the suffix, fills only with spaces, and never truncates. |
| Utf8.DecodeEncode | crate2nix/src/prefetch.rs:104 | Decoding accepts the UTF-8 encoding of any text and gives back that text. |
| Utf8.EncodeDecode | crate2nix/src/prefetch.rs:104 | Any byte string decoding accepts is the encoding of what it decodes to, so only shortest-form, scalar-value UTF-8 passes. |
| Commands.CommandOutputCases | crate2nix/src/prefetch.rs:88-107 | Outcomes of running a command: <br>• a spawn failure names the command line; <br>• a non-success exit carries the exit code, or -1 without one; <br>• it succeeds exactly when the command started, exited with success and printed UTF-8; <br>• it then yields that text with its whitespace margins cut off. |
| Commands.CommandOutputOfText | crate2nix/src/prefetch.rs:94-106 | A successful command that prints the UTF-8 encoding of a text yields exactly the trimmed text, whatever it wrote to stderr. |
| Commands.CratesIoUrlRoundTrip | crate2nix/src/prefetch.rs:113-126 | The URL given to `nix-prefetch-url` reads back as exactly the crate's name and version. |
| Commands.CratesIoHash | crate2nix/src/prefetch.rs:110-128 | A crates.io hash is the trimmed stdout of a successful `nix-prefetch-url` run on the crate's download URL. |
| Commands.GitArgsRoundTrip | crate2nix/src/prefetch.rs:148-156 | `nix-prefetch-git` gets the url, submodule fetching and the revision, plus `--branch-name` exactly when the source names a ref; the vector reads back to what it was built from. |
| Commands.GitHash | crate2nix/src/prefetch.rs:140-165 | Git fetching: <br>• a non-git source is refused with no command run; <br>• a command failure is passed on unchanged; <br>• it succeeds exactly when the command succeeds and its JSON has a `sha256`, which is the hash. |
| Prefetcher.LoadOldHashes | crate2nix/src/prefetch.rs:26-29 | A missing or unreadable file is read as `{}`. Content that does not decode as a map is an error. Otherwise the result is the decoded map. |
| Prefetcher.SelectedIndices | crate2nix/src/prefetch.rs:35-42 | The crates worked on are exactly the crates.io crates without a hash and all git crates, in input order. |
| Prefetcher.UncachedPackagesSpec | crate2nix/src/prefetch.rs:43-45 | A crate is in the work list iff it is selected and its id has no cached hash. |
| Prefetcher.CollectResolvedSpec | crate2nix/src/prefetch.rs:54-67 | Collecting succeeds iff every crate resolves, and then holds each crate's result in input order. A failure is the failure of one of the crates. |
| Prefetcher.FetchedIdsSpec | crate2nix/src/prefetch.rs:63 | An id counts as fetched iff some element of the collected vector was fetched for it. |
| Prefetcher.ApplySourcesSpec | crate2nix/src/prefetch.rs:69-70 | The zip loop: <br>• it gives each selected crate the new source of its own element; <br>• it leaves every other crate alone; <br>• it never changes a field other than the source. |
| Prefetcher.InsertHashesSpec | crate2nix/src/prefetch.rs:71 | The new map has exactly the ids of the collected elements, each bound to the hash of an element carrying it. |
| Prefetcher.Prefetch | crate2nix/src/prefetch.rs:22-86 | The result and the hash file agree: <br>• a rewritten hash file holds exactly the returned map; <br>• a failed write makes the call fail, and only when the file is not writable; <br>• any other failure leaves the crates unchanged. |
| PrefetchProperties.PrefetchKeys | crate2nix/src/prefetch.rs:31-32 | The returned map has exactly the ids of the selected crates: stale cache entries are dropped. |
| PrefetchProperties.PrefetchFrame | crate2nix/src/prefetch.rs:35-42 | Whatever the outcome, crates that are not selected do not change, and no selected crate changes anything but its source. |
| PrefetchProperties.PrefetchCorrelation | crate2nix/src/prefetch.rs:66-72 | With unique ids, each selected crate's new source is `with_sha256` of its old source and the hash returned for its id. |
| PrefetchProperties.PrefetchCacheHit | crate2nix/src/prefetch.rs:55-56 | A selected crate with a cached hash gets that hash trimmed, and is not fetched. |
| PrefetchProperties.PrefetchCacheMiss | crate2nix/src/prefetch.rs:57-64 | A selected crate without a cached hash is fetched, and gets exactly the fetched hash. |
| PrefetchProperties.PrefetchFetchesExactly | crate2nix/src/prefetch.rs:43-65 | The crates fetched are exactly the work list, in order: one fetch per crate, none for cache hits. |
| PrefetchProperties.PrefetchWritesIffChanged | crate2nix/src/prefetch.rs:74-85 | The hash file is rewritten iff the new map differs from the old one, and is untouched iff they are equal. |
| PrefetchProperties.MissingCacheFileIsEmpty | crate2nix/src/prefetch.rs:26-27 | No hash file means no old hashes. |
| PrefetchProperties.PrefetchFetchFailureAborts | crate2nix/src/prefetch.rs:54-67 | The call gets as far as the hash file iff every fetch it needs succeeds. Otherwise: <br>• the error is one of the failing fetches' errors; <br>• no crate changes; <br>• the hash file is left alone. |
| PrefetchProperties.AllCachedProceeds | crate2nix/src/prefetch.rs:55-56 | When the cache covers every selected crate, nothing is fetched and no fetch can fail the call. |
| PrefetchProperties.SecondRunFetchesNothing | crate2nix/src/prefetch.rs:22-86 | Rerunning with the hash file the first run returned fetches nothing. It returns the first run's map with every value trimmed. |
| PrefetchProperties.SecondRunIsStable | crate2nix/src/prefetch.rs:74-85 | When the first run's hashes have no whitespace margins, the second run returns the same map and leaves the file untouched. |
| PrefetchProperties.SecondRunRewritesUntrimmed | crate2nix/src/prefetch.rs:54-85 | When some hash of the first run has whitespace margins, the second run returns the trimmed map, which differs from the old one. It rewrites the file with that map when the file is writable, and fails with a write error otherwise. |
| Progress.UniqueBy | crate2nix/src/prefetch.rs:46 | `unique_by` keeps exactly the values not seen before, each once. |
| Progress.ProgressTotalCountsSources | crate2nix/src/prefetch.rs:43-47 | The bar's length is the number of distinct source keys in the work list, for any source identity `key`. |
| Progress.ProgressExactIffDistinct | crate2nix/src/prefetch.rs:43-63 | The bar's length never exceeds the number of fetches. It equals it iff no two crates of the work list share a source key. |
| Progress.ShortBarNeedsSharedSource | crate2nix/src/prefetch.rs:43-63 | Under any identity that only equates crates with equal modelled sources, a bar shorter than the number of fetches means two crates of the work list have equal modelled sources. |
| Progress.ProgressCompletes | crate2nix/src/prefetch.rs:63 | A successful call advances the bar exactly once per crate of the work list. |
| Progress.ProgressOvershoots | crate2nix/src/prefetch.rs:43-63 | When two crates of the work list share a source key, a successful call advances the bar more often than its length. |
| Progress.SharedPairOvershoots | crate2nix/src/prefetch.rs:43-63 | Two selected, uncached crates with the same source key give a bar of length 1 and 2 fetches. |
| Progress.CratesIoPairOvershoots | crate2nix/src/prefetch.rs:35-63 | When sources are compared on the modelled fields alone, any two crates.io crates without a hash share the source `CratesIo(None)`, so they give a bar of length 1 and 2 fetches. |
| Progress.OvershootExample | crate2nix/src/prefetch.rs:43-63 | When sources are compared on the modelled fields alone, two uncached crates of one git repository at one revision give a bar of length 1 and 2 fetches. |
| Scenarios.TwoFetched | crate2nix/src/prefetch.rs:22-86 | With two crates to prefetch, no hash file and succeeding fetches, the call: <br>• returns both hashes; <br>• writes exactly that map; <br>• fetches both crates in order. |
| Scenarios.EndToEnd | crate2nix/src/prefetch.rs:22-165 | With `nix-prefetch-url` printing a hash and a newline, and `nix-prefetch-git` printing JSON with a `sha256` field: <br>• the crates.io crate gets the hash without the newline; <br>• the git crate gets the `sha256`; <br>• that map is written. |
| NixBuild.FeatureListEmpty | crate2nix/src/nix_build.rs:33-40 | No features give the literal `[  ]`. |
| NixBuild.FeatureListRoundTrip | crate2nix/src/nix_build.rs:33-40 | The `rootFeatures` literal holds exactly the escaped feature names, in feature order. |
| NixBuild.BuildArgsRoundTrip | crate2nix/src/nix_build.rs:22-40 | `nix` is asked to build the given attribute of `default.nix`, with traces shown and the feature list bound to `rootFeatures`. |
| NixBuild.ReadUnlines | crate2nix/src/nix_build.rs:64-68 | Reading the lines of a file written line by line gives back every line, in order. |
| NixBuild.DumpLineRoundTrip | crate2nix/src/nix_build.rs:69 | A numbered line reads back as its number and its text, whatever the text holds. |
| NixBuild.DumpLineColumns | crate2nix/src/nix_build.rs:69 | Line numbers up to 99999 take exactly five columns. Larger ones are printed in full, unpadded. |
| NixBuild.NumberLinesPrinted | crate2nix/src/nix_build.rs:68-69 | The dump prints the lines read, in order, line `k` with number `n + k`. |
| NixBuild.NumberLinesResult | crate2nix/src/nix_build.rs:68-72 | The dump succeeds iff every line can be read, and then prints one line per line. Otherwise it stops at the first unreadable line and fails. |
| NixBuild.DumpOfText | crate2nix/src/nix_build.rs:61-73 | A UTF-8 file written line by line is printed whole, line `k` numbered `k + 1`. |
| NixBuild.NixBuildOutcomes | crate2nix/src/nix_build.rs:13-58 | Outcomes of a build: <br>• it succeeds exactly when `nix` started with the build arguments and exited with success, and then nothing is dumped; <br>• a spawn failure names the directory and dumps nothing; <br>• any other exit dumps `default.nix`, then reports the exit code (-1 without one), or the dump's own failure. |
| NixBuild.FailedBuildDumpsFile | crate2nix/src/nix_build.rs:46-54 | A failed build of a readable `default.nix` prints the whole file numbered from 1, then reports the exit code. |

## Left out

- Process spawning, stdio inheritance and the `tokio` runtime. Commands are the `run` and `runNix` oracles, and `nix_build` is modelled as a synchronous call.
- File I/O. The hash file is a `CacheFile` and `default.nix` a `DumpFile`, and a write either succeeds or fails as a whole.
- Path handling. `project_dir.join("default.nix")` is not modelled: the `DumpFile` given is that file.
- serde. Decoding the hash file and `nix-prefetch-git`'s JSON are the `decodeHashes` and `decodeGitInfo` oracles. `to_vec_pretty` of a string map cannot fail and its output is not modelled.
- `escape_nix_string` and `ResolvedSource::with_sha256`. They are defined in render.rs and resolve.rs, which are not part of this model, so they are parameters.
- Rayon parallelism. The parallel map is a sequential map in input order, which is the order `collect` keeps.
  - When several fetches fail, the model reports the first in input order.
  - Rayon reports one of them. `PrefetchFetchFailureAborts` and `Prefetcher.CollectResolvedSpec` promise only "one of the failing fetches", so they hold for either.
- Prefetcher.Prefetch: a failed fetch is reported with no fetched ids. Which other fetches rayon had already run at that point is not determined.
- The progress bar's rendering, style and template. Only its length and the number of `inc` steps are modelled (`Progress`).
- `without_hash_num.try_into()` (usize to u64). It cannot fail on the platforms crate2nix supports.
- Console output. This covers:
  - the `eprintln!` messages;
  - the echo of a failing command's stdout and stderr in `get_command_output`, whose write errors would replace the exit error;
  - the stdout writes of `dump_with_lines`, whose write errors are not modelled.
- Read errors in the middle of `default.nix` other than invalid UTF-8. An I/O error while reading is not modelled. An unopenable file is.
- Prefetcher.InsertHashesSpec: does not state that, when two collected elements share an id, the later one wins. Cargo package ids are unique, so the lemmas that need the value for an id assume unique ids (`UniqueIds`).
- NixBuild.FeatureListRoundTrip: requires every escaped name to be nonempty and free of spaces. `escape_nix_string` is not visible, and a name escaped into a quoted string containing a space cannot be read back by splitting at spaces.
- Scenarios.EndToEnd: the tool outputs are general texts without whitespace margins rather than the literals `abc123` and `{"sha256":"def456"}`, which are one instance.
- The equality `unique_by` uses on sources. `ResolvedSource` and its `Eq` are defined in resolve.rs, which is not part of this model, and `Source` keeps only the fields prefetch.rs names. The `..` in `CratesIo { sha256: None, .. }` leaves room for more fields. So `Progress` takes the source identity as a parameter `key`. `Progress.StructuralKey` compares the modelled fields alone, and is the coarsest identity that respects them (`KeyRespectsSource`).
- Integer widths. Exit codes (`i32`) and line numbers (`usize`) are unbounded integers; a file with 2^64 lines is out of reach.

Two behaviours of the code are worth noting:

- A hash file that exists but does not decode is an error (`CacheCorrupt`, prefetch.rs:29), not an empty map. Only a missing or unreadable file counts as `{}` (prefetch.rs:26-27).
- A git hash taken from `nix-prefetch-git`'s JSON is not trimmed (prefetch.rs:157-159). A crates.io hash is trimmed by `get_command_output` (prefetch.rs:104-105), and cached hashes are trimmed when reused (prefetch.rs:56). So only a git hash can carry whitespace margins into the returned map, and a second run then behaves as follows:
  - When no hash of the first run has margins, the map is unchanged and the file is left alone (`SecondRunIsStable`).
  - When some hash has margins, the trimmed map differs from the old one (`SecondRunRewritesUntrimmed`). The file is rewritten if it is writable. Otherwise the call fails with a write error.

## Findings

| source | as written | input that shows it | evidently intended | confidence | as-written member | corrected member |
|---|---|---|---|---|---|---|
| crate2nix/src/prefetch.rs:43-63 | The bar's length counts the work list with shared sources counted once (`unique_by(\|p\| &p.source)`), but `pb.inc(1)` runs once per fetched crate. | Any two uncached crates whose `ResolvedSource` values are equal: length 1, advanced twice. If sources compare on the fields prefetch.rs names, this covers any two uncached crates.io crates (all are `CratesIo { sha256: None }`), which is the common case. It also covers two crates of one git repository at one revision. | The length is the number of fetches, the work list's length, so the bar ends exactly full. | medium, not executed; whether `ResolvedSource` carries more fields (resolve.rs) decides which crates collide | Progress.ProgressOvershoots | Progress.ProgressCompletes |

`Progress.CratesIoPairOvershoots` and `Progress.OvershootExample` exhibit the input under the structural identity, and `Progress.SharedPairOvershoots` under any identity. `Progress.ProgressTotal` is the length as written. `Progress.FetchTotal` is the corrected length, and `Progress.ProgressExactIffDistinct` shows the two agree exactly when no source is shared.
