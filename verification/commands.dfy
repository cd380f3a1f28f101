/** The external commands of the prefetch step: running one and reading its output
    (`get_command_output`), and the argument vectors of `nix-prefetch-url` for
    crates.io downloads and of `nix-prefetch-git` for git checkouts. */
module Commands {
  import opened Wrappers
  import opened Model
  import opened Text
  import Utf8

  /** `get_command_output`: run `cmd args`; fail unless it started, exited with
      success and printed UTF-8; otherwise its stdout without surrounding whitespace. */
  function CommandOutput(run: (string, seq<string>) -> ProcessOutput, cmd: string, args: seq<string>): Result<string, Error> {
    match run(cmd, args)
    case NotStarted => Failure(SpawnError(cmd, args))
    case Completed(status, stdout, _) =>
      if !status.IsSuccess() then
        Failure(ExitedWith(cmd, status.CodeOr(-1)))
      else
        match Utf8.Decode(stdout)
        case None => Failure(NotUtf8(cmd, args))
        case Some(text) => Success(Trim(text))
  }

  /** The outcomes of running a command: a spawn failure names the command line, a
      non-success exit carries the exit code (-1 when killed by a signal), and
      success needs valid UTF-8 and yields the text without its whitespace margins. */
  lemma CommandOutputCases(run: (string, seq<string>) -> ProcessOutput, cmd: string, args: seq<string>)
    ensures run(cmd, args).NotStarted? ==> CommandOutput(run, cmd, args) == Failure(SpawnError(cmd, args))
    ensures run(cmd, args).Completed? && !run(cmd, args).status.IsSuccess() ==>
              CommandOutput(run, cmd, args) == Failure(ExitedWith(cmd, run(cmd, args).status.CodeOr(-1)))
    ensures CommandOutput(run, cmd, args).Success? <==>
              run(cmd, args).Completed? && run(cmd, args).status.IsSuccess() && Utf8.Decode(run(cmd, args).stdout).Some?
    ensures CommandOutput(run, cmd, args).Success? ==>
              IsTrimOf(CommandOutput(run, cmd, args).value, Utf8.Decode(run(cmd, args).stdout).value)
  {
  }

  /** A command that succeeds and prints the UTF-8 encoding of `text` yields exactly
      the trimmed text, whatever it wrote to stderr. */
  lemma CommandOutputOfText(run: (string, seq<string>) -> ProcessOutput, cmd: string, args: seq<string>, text: string)
    requires run(cmd, args).Completed? && run(cmd, args).status.IsSuccess()
    requires run(cmd, args).stdout == Utf8.Encode(text)
    ensures CommandOutput(run, cmd, args) == Success(Trim(text))
  {
    Utf8.DecodeEncode(text);
  }

  const CratesIoApi: string := "https://crates.io/api/v1/crates/"
  const DownloadSuffix: string := "/download"

  /** The crates.io download URL of one crate version. */
  function CratesIoUrl(name: string, version: string): string {
    CratesIoApi + name + "/" + version + DownloadSuffix
  }

  /** Reads a crates.io download URL back into crate name and version. */
  function ParseCratesIoUrl(url: string): Option<(string, string)> {
    if |url| >= |CratesIoApi| + |DownloadSuffix|
       && url[..|CratesIoApi|] == CratesIoApi
       && url[|url| - |DownloadSuffix|..] == DownloadSuffix
    then
      var path := url[|CratesIoApi|..|url| - |DownloadSuffix|];
      match IndexOf(path, '/')
      case None => None
      case Some(i) =>
        if '/' in path[i + 1..] then None else Some((path[..i], path[i + 1..]))
    else None
  }

  /** Arguments of `nix-prefetch-url`: the download URL, then `--name name-version`. */
  function CratesIoArgs(name: string, version: string): (args: seq<string>)
    ensures |args| == 3 && args[1] == "--name" && args[2] == name + "-" + version
  {
    [CratesIoUrl(name, version), "--name", name + "-" + version]
  }

  /** The URL passed to `nix-prefetch-url` names exactly the crate and version it
      was built from (crate names and versions hold no `/`). */
  lemma CratesIoUrlRoundTrip(name: string, version: string)
    requires '/' !in name && '/' !in version
    ensures ParseCratesIoUrl(CratesIoArgs(name, version)[0]) == Some((name, version))
  {
    var url := CratesIoUrl(name, version);
    assert url[..|CratesIoApi|] == CratesIoApi;
    assert url[|url| - |DownloadSuffix|..] == DownloadSuffix;
    var path := url[|CratesIoApi|..|url| - |DownloadSuffix|];
    assert path == name + "/" + version;
    assert path[..|name|] == name && path[|name|] == '/' && path[|name| + 1..] == version;
  }

  /** `nix_prefetch_from_crates_io`: the trimmed stdout of `nix-prefetch-url`. */
  function PrefetchFromCratesIo(run: (string, seq<string>) -> ProcessOutput, d: CrateDerivation): Result<string, Error> {
    CommandOutput(run, "nix-prefetch-url", CratesIoArgs(d.crateName, d.version))
  }

  /** A crates.io hash is the trimmed stdout of a successful `nix-prefetch-url` run
      on the crate's download URL. */
  lemma CratesIoHash(run: (string, seq<string>) -> ProcessOutput, d: CrateDerivation)
    ensures PrefetchFromCratesIo(run, d).Success? ==>
              var out := run("nix-prefetch-url", CratesIoArgs(d.crateName, d.version));
              && out.Completed? && out.status.IsSuccess()
              && IsTrimmed(PrefetchFromCratesIo(run, d).value)
              && IsTrimOf(PrefetchFromCratesIo(run, d).value, Utf8.Decode(out.stdout).value)
  {
    CommandOutputCases(run, "nix-prefetch-url", CratesIoArgs(d.crateName, d.version));
  }

  /** What `nix-prefetch-git` is asked to fetch. */
  datatype GitRequest = GitRequest(url: string, rev: string, branch: Option<string>)

  /** Reads a `nix-prefetch-git` argument vector back into a request. */
  function ParseGitArgs(args: seq<string>): Option<GitRequest> {
    if |args| >= 5 && args[0] == "--url" && args[2] == "--fetch-submodules" && args[3] == "--rev" then
      if |args| == 5 then Some(GitRequest(args[1], args[4], None))
      else if |args| == 7 && args[5] == "--branch-name" then Some(GitRequest(args[1], args[4], Some(args[6])))
      else None
    else None
  }

  /** Arguments of `nix-prefetch-git`: url, submodules, revision, and the branch
      name exactly when the source names a ref. */
  function GitArgs(url: string, rev: string, ref: Option<string>): (args: seq<string>)
    ensures |args| == (if ref.Some? then 7 else 5)
    ensures args[..5] == ["--url", url, "--fetch-submodules", "--rev", rev]
  {
    var base := ["--url", url, "--fetch-submodules", "--rev", rev];
    match ref
    case None => base
    case Some(branch) => base + ["--branch-name", branch]
  }

  /** `nix-prefetch-git` reads back exactly the repository, revision and branch it
      was given. */
  lemma GitArgsRoundTrip(url: string, rev: string, ref: Option<string>)
    ensures ParseGitArgs(GitArgs(url, rev, ref)) == Some(GitRequest(url, rev, ref))
  {
  }

  /** `nix_prefetch_from_git`: the `sha256` field of the JSON `nix-prefetch-git`
      prints; a source that is not git is refused before anything runs. */
  function PrefetchFromGit(env: Env, d: CrateDerivation): Result<string, Error> {
    match d.source
    case Git(url, rev, ref, _) =>
      var json :- CommandOutput(env.run, "nix-prefetch-git", GitArgs(url, rev, ref));
      (match env.decodeGitInfo(json)
       case None => Failure(GitInfoInvalid(json))
       case Some(sha256) => Success(sha256))
    case _ => Failure(NotAGitSource)
  }

  /** A non-git source is refused without running anything; otherwise the command
      failure, if any, is passed on, and the hash is the `sha256` the JSON decodes to. */
  lemma GitHash(env: Env, d: CrateDerivation)
    ensures !d.source.Git? ==> PrefetchFromGit(env, d) == Failure(NotAGitSource)
    ensures d.source.Git? ==>
              var out := CommandOutput(env.run, "nix-prefetch-git", GitArgs(d.source.url, d.source.rev, d.source.ref));
              && (out.Failure? ==> PrefetchFromGit(env, d) == Failure(out.error))
              && (PrefetchFromGit(env, d).Success? <==> out.Success? && env.decodeGitInfo(out.value).Some?)
              && (PrefetchFromGit(env, d).Success? ==> env.decodeGitInfo(out.value) == Some(PrefetchFromGit(env, d).value))
  {
  }

  /** The fetch `prefetch` performs for a crate without a cached hash: crates.io
      sources go to `nix-prefetch-url`, everything else to `nix-prefetch-git`
      (which refuses non-git sources; `prefetch` only hands it git ones). */
  function NixFetch(env: Env): CrateDerivation -> Result<string, Error> {
    (d: CrateDerivation) => if d.source.CratesIo? then PrefetchFromCratesIo(env.run, d) else PrefetchFromGit(env, d)
  }
}
