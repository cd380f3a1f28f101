/** `nix_build`: build the `default.nix` of a project directory with `nix build`,
    and when the build fails print that file with line numbers (`dump_with_lines`)
    before reporting the failure. */
module NixBuild {
  import opened Wrappers
  import opened Model
  import opened Text
  import Utf8

  /** The feature names, each escaped for a nix string literal, in order. */
  function EscapeAll(features: seq<string>, escape: string -> string): (es: seq<string>)
    ensures |es| == |features|
    ensures forall k :: 0 <= k < |es| ==> es[k] == escape(features[k])
  {
    if |features| == 0 then [] else [escape(features[0])] + EscapeAll(features[1..], escape)
  }

  /** The nix list literal bound to `rootFeatures`: the escaped names between
      `[ ` and ` ]`, separated by single spaces. */
  function FeatureList(features: seq<string>, escape: string -> string): (lit: string)
    ensures |lit| >= 4 && lit[..2] == "[ " && lit[|lit| - 2..] == " ]"
  {
    "[ " + Join(EscapeAll(features, escape), " ") + " ]"
  }

  /** Reads a feature list literal back into its elements, splitting at spaces. */
  function ParseFeatureList(lit: string): Option<seq<string>> {
    if |lit| >= 4 && lit[..2] == "[ " && lit[|lit| - 2..] == " ]" then
      var inner := lit[2..|lit| - 2];
      if inner == "" then Some([]) else Some(Split(inner, ' '))
    else None
  }

  /** A nonempty joined list is nonempty. */
  lemma JoinNonEmpty(xs: seq<string>, sep: string)
    requires |xs| >= 1 && xs[0] != ""
    ensures Join(xs, sep) != ""
  {
    assert Join(xs, sep)[..|xs[0]|] == xs[0];
  }

  /** The parser finds the text between the brackets. */
  lemma ParseBracketed(inner: string)
    ensures ParseFeatureList("[ " + inner + " ]") == if inner == "" then Some([]) else Some(Split(inner, ' '))
  {
    var lit := "[ " + inner + " ]";
    assert lit[..2] == "[ " && lit[|lit| - 2..] == " ]";
    assert lit[2..|lit| - 2] == inner;
  }

  /** No features give an empty list literal. */
  lemma FeatureListEmpty(escape: string -> string)
    ensures FeatureList([], escape) == "[  ]"
  {
    assert Join(EscapeAll([], escape), " ") == "";
  }

  /** The literal holds exactly the escaped names, in the order of the features,
      as long as no escaped name is empty or contains a space. */
  lemma FeatureListRoundTrip(features: seq<string>, escape: string -> string)
    requires forall k :: 0 <= k < |features| ==> escape(features[k]) != "" && ' ' !in escape(features[k])
    ensures ParseFeatureList(FeatureList(features, escape)) == Some(EscapeAll(features, escape))
  {
    var es := EscapeAll(features, escape);
    var inner := Join(es, " ");
    ParseBracketed(inner);
    if |es| > 0 {
      JoinNonEmpty(es, " ");
      assert " " == [' '];
      SplitJoin(es, ' ');
    }
  }

  /** What `nix` is asked to do. */
  datatype BuildRequest = BuildRequest(file: string, attr: string, argName: string, argValue: string, showTrace: bool)

  /** Reads an argument vector of the shape `nix_build` uses back into a request. */
  function ParseBuildArgs(args: seq<string>): Option<BuildRequest> {
    var trace := |args| > 0 && args[0] == "--show-trace";
    var rest := if trace then args[1..] else args;
    if |rest| == 7 && rest[0] == "build" && rest[1] == "-f" && rest[4] == "--arg" then
      Some(BuildRequest(rest[2], rest[3], rest[5], rest[6], trace))
    else None
  }

  /** The arguments of `nix`: build attribute `attr` of `default.nix` with traces
      shown, binding `rootFeatures` to the feature list literal. */
  function BuildArgs(attr: string, features: seq<string>, escape: string -> string): (args: seq<string>)
    ensures |args| == 8
  {
    ["--show-trace", "build", "-f", "default.nix", attr, "--arg", "rootFeatures", FeatureList(features, escape)]
  }

  /** `nix` builds `attr` of `default.nix`, shows traces, and gets the features as
      the `rootFeatures` argument, whatever the attribute and the features are. */
  lemma BuildArgsRoundTrip(attr: string, features: seq<string>, escape: string -> string)
    ensures ParseBuildArgs(BuildArgs(attr, features, escape))
            == Some(BuildRequest("default.nix", attr, "rootFeatures", FeatureList(features, escape), true))
  {
    var args := BuildArgs(attr, features, escape);
    assert args[1..] == ["build", "-f", "default.nix", attr, "--arg", "rootFeatures", FeatureList(features, escape)];
  }

  /** One item of `BufRead::lines`: a line of text, or the error reading it. */
  datatype LineRead = Line(text: string) | LineError

  /** `default.nix` as `File::open` finds it: not openable, or its bytes. */
  datatype DumpFile = OpenFailed | Opened(content: seq<Utf8.Byte>)

  /** The `\n` that ended a line, and a `\r` before it, removed. */
  function DropNewline(s: string): string {
    if |s| > 0 && s[|s| - 1] == '\n' then
      var t := s[..|s| - 1];
      if |t| > 0 && t[|t| - 1] == '\r' then t[..|t| - 1] else t
    else s
  }

  /** One line read by `read_line`: its bytes, with the `\n` if there is one, must
      be UTF-8. */
  function LineOf(raw: seq<Utf8.Byte>): LineRead {
    match Utf8.Decode(raw)
    case None => LineError
    case Some(s) => Line(DropNewline(s))
  }

  /** `BufRead::lines` on a file's bytes: one item per `\n`-terminated line and one
      for a last line without `\n`; a file ending in `\n` has no empty last line. */
  function ReadLines(bs: seq<Utf8.Byte>): (ls: seq<LineRead>)
    ensures |ls| <= |bs|
    decreases |bs|
  {
    if |bs| == 0 then []
    else
      match IndexOf(bs, 0x0A)
      case None => [LineOf(bs)]
      case Some(i) => [LineOf(bs[..i + 1])] + ReadLines(bs[i + 1..])
  }

  /** A text made of lines, each followed by `\n`. */
  function Unlines(ls: seq<string>): string {
    if |ls| == 0 then "" else ls[0] + "\n" + Unlines(ls[1..])
  }

  /** A line that `lines()` reads back unchanged: no `\n`, and no `\r` at its end. */
  predicate PlainLine(l: string) {
    '\n' !in l && (|l| == 0 || l[|l| - 1] != '\r')
  }

  /** The bytes of a line followed by `\n` and more text. */
  lemma EncodeLine(l: string, rest: string)
    ensures Utf8.Encode(l + "\n" + rest) == Utf8.Encode(l) + [0x0A] + Utf8.Encode(rest)
    ensures Utf8.Encode(l) + [0x0A] == Utf8.Encode(l + "\n")
  {
    Utf8.EncodeAppend(l + "\n", rest);
    Utf8.EncodeAppend(l, "\n");
    assert Utf8.Encode("\n") == [0x0A];
  }

  /** A plain line followed by `\n` is read back as itself. */
  lemma LineOfPlain(l: string)
    requires PlainLine(l)
    ensures LineOf(Utf8.Encode(l + "\n")) == Line(l)
  {
    Utf8.DecodeEncode(l + "\n");
    assert (l + "\n")[..|l|] == l;
  }

  /** One step of `ReadUnlines`: the first line is read back, and reading goes on
      right after its `\n`. */
  lemma ReadFirstLine(l: string, rest: string)
    requires PlainLine(l)
    ensures ReadLines(Utf8.Encode(l + "\n" + rest)) == [Line(l)] + ReadLines(Utf8.Encode(rest))
  {
    var e := Utf8.Encode(l);
    var bs := Utf8.Encode(l + "\n" + rest);
    EncodeLine(l, rest);
    Utf8.AsciiByteNotIn(l, '\n');
    IndexOfFirst(e, 0x0A, Utf8.Encode(rest));
    assert bs[..|e| + 1] == e + [0x0A];
    assert bs[|e| + 1..] == Utf8.Encode(rest);
    LineOfPlain(l);
  }

  /** Reading the lines of a text written line by line gives back every line, in
      order. */
  lemma {:induction false} ReadUnlines(ls: seq<string>)
    requires forall k :: 0 <= k < |ls| ==> PlainLine(ls[k])
    ensures |ReadLines(Utf8.Encode(Unlines(ls)))| == |ls|
    ensures forall k :: 0 <= k < |ls| ==> ReadLines(Utf8.Encode(Unlines(ls)))[k] == Line(ls[k])
  {
    if |ls| > 0 {
      var tail := ls[1..];
      ReadFirstLine(ls[0], Unlines(tail));
      ReadUnlines(tail);
      var rs := ReadLines(Utf8.Encode(Unlines(ls)));
      var rt := ReadLines(Utf8.Encode(Unlines(tail)));
      assert rs == [Line(ls[0])] + rt;
      forall k | 1 <= k < |ls|
        ensures rs[k] == Line(ls[k])
      {
        assert rs[k] == rt[k - 1];
        assert tail[k - 1] == ls[k];
      }
    }
  }

  /** The line `writeln!` prints for line `n`: the number right-aligned in five columns,
      a colon, a space and the text. */
  function DumpLine(n: nat, text: string): (line: string)
  {
    PadLeft(Decimal(n), 5) + ": " + text
  }

  /** Reads a numbered line back into its number and text. */
  function ParseDumpLine(line: string): Option<(nat, string)> {
    match IndexOf(line, ':')
    case None => None
    case Some(i) =>
      var num := Trim(line[..i]);
      if |num| > 0 && AllDigits(num) && i + 1 < |line| && line[i + 1] == ' ' then
        Some((DigitsValue(num), line[i + 2..]))
      else None
  }

  /** The number column holds spaces and digits only, so no `:`. */
  lemma NoColonInNumber(n: nat)
    ensures ':' !in PadLeft(Decimal(n), 5)
  {
    var d := Decimal(n);
    var pad := PadLeft(d, 5);
    var i := |pad| - |d|;
    forall k | 0 <= k < |pad|
      ensures pad[k] != ':'
    {
      if k >= i {
        assert pad[k] == pad[i..][k - i] == d[k - i];
      }
    }
  }

  /** The first `:` of `pad + ": " + text` is the one after `pad` when `pad` has
      none. */
  lemma ColonAfter(pad: string, text: string)
    requires ':' !in pad
    ensures var line := pad + ": " + text;
            && IndexOf(line, ':') == Some(|pad|)
            && line[..|pad|] == pad
            && |pad| + 1 < |line| && line[|pad| + 1] == ' '
            && line[|pad| + 2..] == text
  {
    var line := pad + ": " + text;
    assert line == pad + [':'] + (" " + text);
    IndexOfFirst(pad, ':', " " + text);
  }

  /** A numbered line gives back its number and its text, whatever the text holds. */
  lemma DumpLineRoundTrip(n: nat, text: string)
    ensures ParseDumpLine(DumpLine(n, text)) == Some((n, text))
  {
    var d := Decimal(n);
    NoColonInNumber(n);
    ColonAfter(PadLeft(d, 5), text);
    DecimalTrimmed(n);
    TrimPadLeft(d, 5);
    DecimalRoundTrip(n);
  }

  /** Line numbers up to 99999 fill exactly five columns; longer ones are printed
      in full, without padding and without truncation. */
  lemma DumpLineColumns(n: nat, text: string)
    ensures n < 100000 ==> |DumpLine(n, text)| == 7 + |text|
    ensures n >= 100000 ==> DumpLine(n, text) == Decimal(n) + ": " + text
  {
    DecimalWidth(n, 5);
    assert Pow10(5) == 100000;
    var d := Decimal(n);
    if n >= 100000 {
      assert PadLeft(d, 5)[|PadLeft(d, 5)| - |d|..] == d;
    }
  }

  /** What `dump_with_lines` prints, and how it ends. */
  datatype DumpOutcome = DumpOutcome(printed: seq<string>, result: Result<(), Error>)

  /** The lines numbered from `n` and written out by `fmt`, stopping at the first
      one that cannot be read. */
  function NumberLines(ls: seq<LineRead>, n: nat, fmt: (nat, string) -> string): (d: DumpOutcome)
    ensures |d.printed| <= |ls|
    decreases |ls|
  {
    if |ls| == 0 then DumpOutcome([], Success(()))
    else
      match ls[0]
      case LineError => DumpOutcome([], Failure(DumpFailed))
      case Line(t) =>
        var rest := NumberLines(ls[1..], n + 1, fmt);
        DumpOutcome([fmt(n, t)] + rest.printed, rest.result)
  }

  /** Every line could be read. */
  predicate AllRead(ls: seq<LineRead>) {
    forall k :: 0 <= k < |ls| ==> ls[k].Line?
  }

  /** Numbering prints the lines read, in order, each with its number. */
  lemma {:induction false} NumberLinesPrinted(ls: seq<LineRead>, n: nat, fmt: (nat, string) -> string)
    ensures forall k :: 0 <= k < |NumberLines(ls, n, fmt).printed| ==>
              ls[k].Line? && NumberLines(ls, n, fmt).printed[k] == fmt(n + k, ls[k].text)
    decreases |ls|
  {
    if |ls| > 0 && ls[0].Line? {
      NumberLinesPrinted(ls[1..], n + 1, fmt);
      var d := NumberLines(ls, n, fmt);
      var rest := NumberLines(ls[1..], n + 1, fmt);
      assert d.printed == [fmt(n, ls[0].text)] + rest.printed;
      forall k | 1 <= k < |d.printed|
        ensures ls[k].Line? && d.printed[k] == fmt(n + k, ls[k].text)
      {
        assert d.printed[k] == rest.printed[k - 1];
        assert ls[1..][k - 1] == ls[k];
      }
    }
  }

  /** Numbering succeeds exactly when every line could be read, and then prints
      one line per line read; otherwise it stops at the first line that could
      not be read, and reports the dump as failed. */
  lemma {:induction false} NumberLinesResult(ls: seq<LineRead>, n: nat, fmt: (nat, string) -> string)
    ensures NumberLines(ls, n, fmt).result.Success? <==> AllRead(ls)
    ensures NumberLines(ls, n, fmt).result.Success? ==> |NumberLines(ls, n, fmt).printed| == |ls|
    ensures NumberLines(ls, n, fmt).result.Failure? ==>
              && NumberLines(ls, n, fmt).result == Failure(DumpFailed)
              && |NumberLines(ls, n, fmt).printed| < |ls|
              && ls[|NumberLines(ls, n, fmt).printed|].LineError?
    decreases |ls|
  {
    if |ls| > 0 && ls[0].Line? {
      NumberLinesResult(ls[1..], n + 1, fmt);
      var d := NumberLines(ls, n, fmt);
      var rest := NumberLines(ls[1..], n + 1, fmt);
      assert |d.printed| == 1 + |rest.printed| && d.result == rest.result;
      if d.result.Success? {
        forall k | 0 <= k < |ls|
          ensures ls[k].Line?
        {
          if k > 0 {
            assert ls[1..][k - 1] == ls[k];
          }
        }
      } else {
        assert ls[1..][|rest.printed|] == ls[|d.printed|];
        assert !AllRead(ls);
      }
    }
  }

  /** `dump_with_lines`: an unopenable file fails before printing anything;
      otherwise every line is printed with its 1-based number. */
  function DumpWithLines(file: DumpFile): (d: DumpOutcome) {
    match file
    case OpenFailed => DumpOutcome([], Failure(DumpFailed))
    case Opened(content) => NumberLines(ReadLines(content), 1, DumpLine)
  }

  /** Lines that could all be read are all printed, line `k` numbered `n + k`. */
  lemma NumberReadable(rs: seq<LineRead>, ls: seq<string>, n: nat, fmt: (nat, string) -> string)
    requires |rs| == |ls| && forall k :: 0 <= k < |rs| ==> rs[k] == Line(ls[k])
    ensures NumberLines(rs, n, fmt).result == Success(())
    ensures |NumberLines(rs, n, fmt).printed| == |ls|
    ensures forall k :: 0 <= k < |ls| ==> NumberLines(rs, n, fmt).printed[k] == fmt(n + k, ls[k])
  {
    assert AllRead(rs);
    NumberLinesResult(rs, n, fmt);
    NumberLinesPrinted(rs, n, fmt);
    assert NumberLines(rs, n, fmt).result.value == ();
    forall k | 0 <= k < |ls|
      ensures NumberLines(rs, n, fmt).printed[k] == fmt(n + k, ls[k])
    {
      assert rs[k].text == ls[k];
    }
  }

  /** A file written line by line (UTF-8, `\n` after every line) is printed whole:
      line `k` as `DumpLine(1 + k, ls[k])`, and the dump succeeds. */
  lemma DumpOfText(ls: seq<string>)
    requires forall k :: 0 <= k < |ls| ==> PlainLine(ls[k])
    ensures var d := DumpWithLines(Opened(Utf8.Encode(Unlines(ls))));
            && d.result == Success(())
            && |d.printed| == |ls|
            && forall k :: 0 <= k < |ls| ==> d.printed[k] == DumpLine(1 + k, ls[k])
  {
    ReadUnlines(ls);
    NumberReadable(ReadLines(Utf8.Encode(Unlines(ls))), ls, 1, DumpLine);
  }

  /** What `nix build` came to: `nix` could not be started, or it ran and ended
      with a status. */
  datatype BuildSpawn = NotSpawned | Finished(status: ExitStatus)

  /** What `nix_build` did: the dump it printed, if any, and its result. */
  datatype BuildOutcome = BuildOutcome(dump: Option<DumpOutcome>, result: Result<(), Error>)

  /** `nix_build`: run `nix` in `dir`; a spawn failure and a successful build end
      the call at once, and a failed build dumps `default.nix` first. */
  function NixBuildCall(dir: string, attr: string, features: seq<string>, escape: string -> string,
                        runNix: (string, seq<string>) -> BuildSpawn, defaultNix: DumpFile): (o: BuildOutcome)
  {
    match runNix(dir, BuildArgs(attr, features, escape))
    case NotSpawned => BuildOutcome(None, Failure(BuildSpawnError(dir)))
    case Finished(status) =>
      if status.IsSuccess() then BuildOutcome(None, Success(()))
      else
        var dump := DumpWithLines(defaultNix);
        if dump.result.Failure? then BuildOutcome(Some(dump), Failure(DumpFailed))
        else BuildOutcome(Some(dump), Failure(BuildFailed(dir, status.CodeOr(-1))))
  }

  /** The build succeeds exactly when `nix`, given the build arguments, started and
      exited with success, and then nothing is dumped; a spawn failure reports the
      directory and dumps nothing; any other exit dumps `default.nix` and reports
      the exit code (-1 for a signal), unless the dump itself failed. */
  lemma NixBuildOutcomes(dir: string, attr: string, features: seq<string>, escape: string -> string,
                         runNix: (string, seq<string>) -> BuildSpawn, defaultNix: DumpFile)
    ensures var spawn := runNix(dir, BuildArgs(attr, features, escape));
            var o := NixBuildCall(dir, attr, features, escape, runNix, defaultNix);
            && (o.result.Success? <==> spawn.Finished? && spawn.status.IsSuccess())
            && (o.dump.Some? <==> spawn.Finished? && !spawn.status.IsSuccess())
            && (spawn.NotSpawned? ==> o.result == Failure(BuildSpawnError(dir)))
            && (o.dump.Some? ==> o.dump.value == DumpWithLines(defaultNix))
            && (o.dump.Some? && o.dump.value.result.Success? ==>
                  o.result == Failure(BuildFailed(dir, spawn.status.CodeOr(-1))))
            && (o.dump.Some? && o.dump.value.result.Failure? ==> o.result == Failure(DumpFailed))
  {
  }

  /** A failed build of a readable `default.nix` prints the whole file, numbered
      from 1, and then reports the exit code. */
  lemma FailedBuildDumpsFile(dir: string, attr: string, features: seq<string>, escape: string -> string,
                             runNix: (string, seq<string>) -> BuildSpawn, ls: seq<string>, code: int)
    requires forall k :: 0 <= k < |ls| ==> PlainLine(ls[k])
    requires runNix(dir, BuildArgs(attr, features, escape)) == Finished(Exited(code)) && code != 0
    ensures var o := NixBuildCall(dir, attr, features, escape, runNix, Opened(Utf8.Encode(Unlines(ls))));
            && o.result == Failure(BuildFailed(dir, code))
            && o.dump.Some?
            && |o.dump.value.printed| == |ls|
            && forall k :: 0 <= k < |ls| ==> o.dump.value.printed[k] == DumpLine(1 + k, ls[k])
  {
    DumpOfText(ls);
  }
}
