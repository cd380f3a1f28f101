/** String helpers with the exact behaviour of the Rust standard-library calls the
    prefetch and build code relies on: `str::trim`, `[String]::join`, `str::split`,
    decimal formatting of an unsigned integer and right alignment to a width. */
module Text {
  import opened Wrappers

  /** `char::is_whitespace`: the Unicode `White_Space` property. */
  predicate IsWhitespace(c: char) {
    var n := c as int;
    || 0x09 <= n <= 0x0D
    || n == 0x20 || n == 0x85 || n == 0xA0 || n == 0x1680
    || 0x2000 <= n <= 0x200A
    || n == 0x2028 || n == 0x2029 || n == 0x202F || n == 0x205F || n == 0x3000
  }

  predicate AllWhitespace(s: string) {
    forall k :: 0 <= k < |s| ==> IsWhitespace(s[k])
  }

  /** Neither begins nor ends with whitespace. */
  predicate IsTrimmed(s: string) {
    |s| == 0 || (!IsWhitespace(s[0]) && !IsWhitespace(s[|s| - 1]))
  }

  /** `r` is what remains of `s` once its whitespace margins are cut off. */
  predicate IsTrimOf(r: string, s: string) {
    && IsTrimmed(r)
    && exists i, j :: 0 <= i <= j <= |s| && r == s[i..j] && AllWhitespace(s[..i]) && AllWhitespace(s[j..])
  }

  /** Number of whitespace characters `s` starts with. */
  function LeadingWhitespace(s: string): (n: nat)
    ensures n <= |s|
    ensures forall k :: 0 <= k < n ==> IsWhitespace(s[k])
    ensures n < |s| ==> !IsWhitespace(s[n])
  {
    if |s| == 0 || !IsWhitespace(s[0]) then 0 else 1 + LeadingWhitespace(s[1..])
  }

  /** Number of whitespace characters `s` ends with. */
  function TrailingWhitespace(s: string): (n: nat)
    ensures n <= |s|
    ensures forall k :: |s| - n <= k < |s| ==> IsWhitespace(s[k])
    ensures n < |s| ==> !IsWhitespace(s[|s| - n - 1])
  {
    if |s| == 0 || !IsWhitespace(s[|s| - 1]) then 0 else 1 + TrailingWhitespace(s[..|s| - 1])
  }

  /** `str::trim`. */
  function Trim(s: string): (r: string)
    ensures IsTrimOf(r, s)
  {
    var i := LeadingWhitespace(s);
    var n := TrailingWhitespace(s[i..]);
    CoreIsTrim(s, i, |s| - n);
    s[i..|s| - n]
  }

  /** Cutting whitespace margins that stop at non-whitespace leaves a trim. */
  lemma CoreIsTrim(s: string, i: nat, j: nat)
    requires i <= |s| && forall k :: 0 <= k < i ==> IsWhitespace(s[k])
    requires i < |s| ==> !IsWhitespace(s[i])
    requires j == |s| - TrailingWhitespace(s[i..])
    ensures i <= j && IsTrimOf(s[i..j], s)
  {
    var t := s[i..];
    var n := TrailingWhitespace(t);
    forall k | j <= k < |s|
      ensures IsWhitespace(s[k])
    {
      assert s[k] == t[k - i];
    }
    assert forall k :: 0 <= k < |s[j..]| ==> s[j..][k] == s[k + j];
    assert forall k :: 0 <= k < |s[..i]| ==> s[..i][k] == s[k];
    if i < j {
      assert s[i..j][j - i - 1] == t[|t| - n - 1];
    }
  }

  /** Trimming is determined by its specification: any trimmed core of `s`
      with whitespace margins is the one `Trim` returns. */
  lemma TrimUnique(r: string, s: string)
    requires IsTrimOf(r, s)
    ensures Trim(s) == r
  {
    var i, j :| 0 <= i <= j <= |s| && r == s[i..j] && AllWhitespace(s[..i]) && AllWhitespace(s[j..]);
    MarginsWhitespace(s, i, j);
    CoreEnds(s, i, j);
    if i < j {
      TrimAt(s, i, j);
    } else {
      LeadingIsCore(s, |s|);
    }
  }

  /** A nonempty core starts at the first non-whitespace character and ends
      after the last one, which is where `Trim` cuts. */
  lemma TrimAt(s: string, i: nat, j: nat)
    requires i < j <= |s|
    requires forall k :: 0 <= k < i ==> IsWhitespace(s[k])
    requires forall k :: j <= k < |s| ==> IsWhitespace(s[k])
    requires !IsWhitespace(s[i]) && !IsWhitespace(s[j - 1])
    ensures Trim(s) == s[i..j]
  {
    LeadingIsCore(s, i);
    var t := s[i..];
    forall k | j - i <= k < |t|
      ensures IsWhitespace(t[k])
    {
      assert t[k] == s[k + i];
    }
    assert t[j - i - 1] == s[j - 1];
    TrailingIsCore(t, |s| - j);
  }

  /** A nonempty trimmed core begins and ends with non-whitespace. */
  lemma CoreEnds(s: string, i: nat, j: nat)
    requires i <= j <= |s| && IsTrimmed(s[i..j])
    ensures i < j ==> !IsWhitespace(s[i]) && !IsWhitespace(s[j - 1])
  {
    if i < j {
      assert s[i..j][0] == s[i];
      assert s[i..j][j - i - 1] == s[j - 1];
    }
  }

  /** Whitespace up to `i` and none at `i` means `i` leading whitespace characters. */
  lemma {:induction false} LeadingIsCore(s: string, i: nat)
    requires i <= |s|
    requires forall k :: 0 <= k < i ==> IsWhitespace(s[k])
    requires i < |s| ==> !IsWhitespace(s[i])
    ensures LeadingWhitespace(s) == i
    decreases i
  {
    if i > 0 {
      assert forall k :: 0 <= k < |s| - 1 ==> s[1..][k] == s[k + 1];
      LeadingIsCore(s[1..], i - 1);
    }
  }

  /** Whitespace in the last `n` places and none just before means `n` trailing
      whitespace characters. */
  lemma {:induction false} TrailingIsCore(t: string, n: nat)
    requires n <= |t|
    requires forall k :: |t| - n <= k < |t| ==> IsWhitespace(t[k])
    requires n < |t| ==> !IsWhitespace(t[|t| - n - 1])
    ensures TrailingWhitespace(t) == n
    decreases n
  {
    if n > 0 {
      var front := t[..|t| - 1];
      assert forall k :: 0 <= k < |front| ==> front[k] == t[k];
      TrailingIsCore(front, n - 1);
    }
  }

  /** Pointwise reading of "the margins outside `i..j` are whitespace". */
  lemma MarginsWhitespace(s: string, i: nat, j: nat)
    requires i <= j <= |s|
    requires AllWhitespace(s[..i]) && AllWhitespace(s[j..])
    ensures forall k :: 0 <= k < i ==> IsWhitespace(s[k])
    ensures forall k :: j <= k < |s| ==> IsWhitespace(s[k])
  {
    forall k | 0 <= k < i
      ensures IsWhitespace(s[k])
    {
      assert s[..i][k] == s[k];
    }
    forall k | j <= k < |s|
      ensures IsWhitespace(s[k])
    {
      assert s[j..][k - j] == s[k];
    }
  }

  /** Trimming a string without whitespace margins leaves it as it is. */
  lemma TrimTrimmed(s: string)
    requires IsTrimmed(s)
    ensures Trim(s) == s
  {
    assert s[..0] == [] && s[|s|..] == [];
    assert s == s[0..|s|];
    TrimUnique(s, s);
  }

  /** Trimming twice changes nothing. */
  lemma TrimIdempotent(s: string)
    ensures Trim(Trim(s)) == Trim(s)
  {
    var r := Trim(s);
    assert r[..0] == [] && r[|r|..] == [];
    assert r == r[0..|r|];
    TrimUnique(r, r);
  }

  /** `xs.join(sep)`: the elements in order, `sep` between neighbours. */
  function Join(xs: seq<string>, sep: string): (r: string)
  {
    if |xs| == 0 then "" else if |xs| == 1 then xs[0] else xs[0] + sep + Join(xs[1..], sep)
  }

  /** Position of the first `c` in `s`. */
  function IndexOf<T(==)>(s: seq<T>, c: T): (r: Option<nat>)
    ensures r.None? <==> c !in s
    ensures r.Some? ==> r.value < |s| && s[r.value] == c && c !in s[..r.value]
  {
    if |s| == 0 then None
    else if s[0] == c then Some(0)
    else
      var r := IndexOf(s[1..], c);
      assert s[1..] == s[..][1..];
      if r.None? then None
      else
        assert s[..r.value + 1] == [s[0]] + s[1..][..r.value];
        Some(r.value + 1)
  }

  /** `s.split(c)`: the maximal pieces between occurrences of `c`; never empty. */
  function Split(s: string, c: char): (r: seq<string>)
    ensures |r| >= 1
    decreases |s|
  {
    match IndexOf(s, c)
    case None => [s]
    case Some(i) => [s[..i]] + Split(s[i + 1..], c)
  }

  /** The first `c` in `a + [c] + b` is the one after `a` when `a` has none. */
  lemma {:induction false} IndexOfFirst<T>(a: seq<T>, c: T, b: seq<T>)
    requires c !in a
    ensures IndexOf(a + [c] + b, c) == Some(|a|)
  {
    if |a| > 0 {
      IndexOfFirst(a[1..], c, b);
      assert (a + [c] + b)[1..] == a[1..] + [c] + b;
    }
  }

  /** Splitting undoes joining as long as no element contains the separator. */
  lemma {:induction false} SplitJoin(xs: seq<string>, c: char)
    requires |xs| >= 1
    requires forall k :: 0 <= k < |xs| ==> c !in xs[k]
    ensures Split(Join(xs, [c]), c) == xs
  {
    if |xs| == 1 {
    } else {
      var rest := Join(xs[1..], [c]);
      var s := xs[0] + [c] + rest;
      IndexOfFirst(xs[0], c, rest);
      assert s[..|xs[0]|] == xs[0];
      assert s[|xs[0]| + 1..] == rest;
      assert Split(Join(xs, [c]), c) == [xs[0]] + Split(rest, c);
      SplitJoin(xs[1..], c);
    }
  }

  predicate IsDigit(c: char) {
    '0' <= c <= '9'
  }

  predicate AllDigits(s: string) {
    forall k :: 0 <= k < |s| ==> IsDigit(s[k])
  }

  /** Decimal rendering of a natural number, as `format!("{}", n)` prints it. */
  function Decimal(n: nat): (r: string)
    ensures 1 <= |r|
    ensures AllDigits(r)
    ensures |r| > 1 ==> r[0] != '0'
  {
    var last := ['0' + (n % 10) as char];
    if n < 10 then last else Decimal(n / 10) + last
  }

  /** Value of a string of decimal digits, most significant first. */
  function DigitsValue(s: string): nat
    requires AllDigits(s)
  {
    if |s| == 0 then 0 else 10 * DigitsValue(s[..|s| - 1]) + (s[|s| - 1] - '0') as nat
  }

  /** Reading the decimal rendering back gives the number. */
  lemma {:induction false} DecimalRoundTrip(n: nat)
    ensures DigitsValue(Decimal(n)) == n
  {
    if n >= 10 {
      DecimalRoundTrip(n / 10);
      var s := Decimal(n);
      assert s[..|s| - 1] == Decimal(n / 10);
    }
  }

  /** The rendering fits in `w` digits exactly when `n < 10^w`. */
  lemma {:induction false} DecimalWidth(n: nat, w: nat)
    requires w >= 1
    ensures |Decimal(n)| <= w <==> n < Pow10(w)
  {
    if n >= 10 && w > 1 {
      DecimalWidth(n / 10, w - 1);
    } else if n >= 10 {
      assert |Decimal(n / 10)| >= 1;
    } else {
      Pow10Positive(w - 1);
      assert Pow10(w) >= 10;
      assert |Decimal(n)| == 1;
    }
  }

  function Pow10(w: nat): (p: nat)
  {
    if w == 0 then 1 else 10 * Pow10(w - 1)
  }

  lemma {:induction false} Pow10Positive(w: nat)
    ensures Pow10(w) >= 1
  {
    if w > 0 { Pow10Positive(w - 1); }
  }

  function Spaces(n: nat): (r: string)
    ensures |r| == n
    ensures forall k :: 0 <= k < n ==> r[k] == ' '
  {
    seq(n, _ => ' ')
  }

  /** Right-aligned in a field of `w` characters, never truncated. */
  function PadLeft(s: string, w: nat): (r: string)
    ensures |r| == if |s| < w then w else |s|
    ensures r[|r| - |s|..] == s
    ensures forall k :: 0 <= k < |r| - |s| ==> r[k] == ' '
  {
    if |s| < w then Spaces(w - |s|) + s else s
  }

  /** Digits are not whitespace, so a decimal rendering has no margins. */
  lemma DecimalTrimmed(n: nat)
    ensures IsTrimmed(Decimal(n))
  {
    var d := Decimal(n);
    assert IsDigit(d[0]) && IsDigit(d[|d| - 1]);
  }

  /** Trimming undoes right alignment of a string without margins. */
  lemma TrimPadLeft(s: string, w: nat)
    requires IsTrimmed(s)
    ensures Trim(PadLeft(s, w)) == s
  {
    var r := PadLeft(s, w);
    var i := |r| - |s|;
    assert AllWhitespace(r[..i]) by {
      forall k | 0 <= k < i
        ensures IsWhitespace(r[..i][k])
      {
        assert r[..i][k] == r[k] == ' ';
      }
    }
    assert r[|r|..] == "";
    assert s == r[i..|r|];
    assert IsTrimOf(s, r);
    TrimUnique(s, r);
  }
}
