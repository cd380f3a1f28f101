/** The entities the prefetch step and the build helper work on, the errors they
    report, and the outside world they consult (processes, JSON decoding and the
    source-rewriting helper of the resolver), given as pure oracles. */
module Model {
  import opened Wrappers
  import Utf8

  /** `cargo_metadata::PackageId`: an opaque, unique key of one resolved package. */
  type PackageId = string

  /** The content of the crate-hash file: package id to nix sha256. */
  type Hashes = map<PackageId, string>

  /** `ResolvedSource`: where a crate's content comes from, reduced to the fields
      the prefetch step names. The real variants may carry more. */
  datatype Source =
    | CratesIo(sha256: Option<string>)
    | Git(url: string, rev: string, ref: Option<string>, sha256: Option<string>)
    | Other(origin: string)   // any other kind (a local directory, for one): never prefetched

  /** `CrateDerivation`, reduced to the fields the prefetch step reads or writes. */
  datatype CrateDerivation = CrateDerivation(
    packageId: PackageId,
    crateName: string,
    version: string,
    source: Source)

  /** `std::process::ExitStatus` on Unix: an exit code, or death by a signal (no code). */
  datatype ExitStatus = Exited(exitCode: int) | Signalled {

    predicate IsSuccess() {
      Exited? && exitCode == 0
    }

    /** `status.code().unwrap_or(-1)` */
    function CodeOr(default: int): int {
      if Exited? then exitCode else default
    }
  }

  /** What `Command::output()` yields: the process could not be started, or it ran
      to completion with a status and the bytes it wrote. */
  datatype ProcessOutput =
    | NotStarted
    | Completed(status: ExitStatus, stdout: seq<Utf8.Byte>, stderr: seq<Utf8.Byte>)

  /** Every way the prefetch step or the build helper fails. */
  datatype Error =
    | CacheCorrupt                                   // the hash file is not a JSON id-to-string map
    | SpawnError(cmd: string, args: seq<string>)     // the command could not be started
    | ExitedWith(cmd: string, code: int)             // the command ran and did not succeed
    | NotUtf8(cmd: string, args: seq<string>)        // the command's stdout is not UTF-8
    | GitInfoInvalid(json: string)                   // nix-prefetch-git printed no usable `sha256`
    | NotAGitSource                                  // git prefetch asked for a non-git source
    | CacheWriteFailed                               // the hash file could not be written
    | BuildSpawnError(dir: string)                   // `nix` could not be started
    | BuildFailed(dir: string, code: int)            // `nix build` did not succeed
    | DumpFailed                                     // `default.nix` could not be opened or read

  /** The collaborators the prefetch step cannot see, as total functions. */
  datatype Env = Env(
    run: (string, seq<string>) -> ProcessOutput,   // spawn `cmd args`, wait, capture output
    decodeGitInfo: string -> Option<string>,       // serde: the `sha256` field of the JSON, if any
    decodeHashes: string -> Option<Hashes>,        // serde: the hash file as a map, if it is one
    withSha256: (Source, string) -> Source)        // `ResolvedSource::with_sha256`
}
