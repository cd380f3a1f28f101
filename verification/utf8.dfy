/** UTF-8 as Rust's `String::from_utf8` accepts it (RFC 3629: shortest form only,
    no surrogate code points, nothing above U+10FFFF), with the matching encoder. */
module Utf8 {
  import opened Wrappers

  type Byte = b: int | 0 <= b < 0x100

  predicate IsContinuation(b: Byte) {
    0x80 <= b < 0xC0
  }

  /** Code points that are Unicode scalar values, i.e. that a `char` can hold. */
  predicate IsScalar(n: int) {
    (0 <= n < 0xD800) || (0xE000 <= n < 0x11_0000)
  }

  /** The one to four bytes that encode `c`. */
  function EncodeChar(c: char): (bs: seq<Byte>)
    ensures 1 <= |bs| <= 4
  {
    var n := c as int;
    if n < 0x80 then [n]
    else if n < 0x800 then [0xC0 + n / 0x40, 0x80 + n % 0x40]
    else if n < 0x1_0000 then [0xE0 + n / 0x1000, 0x80 + n / 0x40 % 0x40, 0x80 + n % 0x40]
    else [0xF0 + n / 0x4_0000, 0x80 + n / 0x1000 % 0x40, 0x80 + n / 0x40 % 0x40, 0x80 + n % 0x40]
  }

  function Encode(s: string): (bs: seq<Byte>)
  {
    if |s| == 0 then [] else EncodeChar(s[0]) + Encode(s[1..])
  }

  /** The character `bs` starts with and the number of bytes it takes, or `None`
      when `bs` does not start with a well-formed sequence. */
  function DecodeFirst(bs: seq<Byte>): (r: Option<(char, nat)>)
    requires |bs| > 0
    ensures r.Some? ==> 1 <= r.value.1 <= |bs|
  {
    var b0 := bs[0] as int;
    if b0 < 0x80 then
      Some((b0 as char, 1))
    else if 0xC2 <= b0 < 0xE0 && |bs| >= 2 && IsContinuation(bs[1]) then
      Some((((b0 - 0xC0) * 0x40 + (bs[1] as int - 0x80)) as char, 2))
    else if 0xE0 <= b0 < 0xF0 && |bs| >= 3 && IsContinuation(bs[1]) && IsContinuation(bs[2]) then
      var n := (b0 - 0xE0) * 0x1000 + (bs[1] as int - 0x80) * 0x40 + (bs[2] as int - 0x80);
      if 0x800 <= n && IsScalar(n) then Some((n as char, 3)) else None
    else if 0xF0 <= b0 < 0xF5 && |bs| >= 4 && IsContinuation(bs[1]) && IsContinuation(bs[2]) && IsContinuation(bs[3]) then
      var n := (b0 - 0xF0) * 0x4_0000 + (bs[1] as int - 0x80) * 0x1000 + (bs[2] as int - 0x80) * 0x40 + (bs[3] as int - 0x80);
      if 0x1_0000 <= n < 0x11_0000 then Some((n as char, 4)) else None
    else
      None
  }

  /** `String::from_utf8`: the text `bs` encodes, or `None` if it is not valid UTF-8. */
  function Decode(bs: seq<Byte>): (r: Option<string>)
    decreases |bs|
  {
    if |bs| == 0 then Some("")
    else
      match DecodeFirst(bs)
      case None => None
      case Some((c, k)) =>
        match Decode(bs[k..])
        case None => None
        case Some(rest) => Some([c] + rest)
  }

  /** Whole-quotient and remainder facts for the 6-bit groups of a code point. */
  lemma Split6(q: int, r: int)
    requires 0 <= r < 0x40
    ensures (q * 0x40 + r) / 0x40 == q
    ensures (q * 0x40 + r) % 0x40 == r
  {
  }

  /** The decoder reads an encoded character back, whatever follows it. */
  lemma DecodeFirstEncodeChar(c: char, rest: seq<Byte>)
    ensures DecodeFirst(EncodeChar(c) + rest) == Some((c, |EncodeChar(c)|))
  {
    var n := c as int;
    if n < 0x80 {
    } else if n < 0x800 {
      DecodeFirstTwo(c, rest);
    } else if n < 0x1_0000 {
      DecodeFirstThree(c, rest);
    } else {
      DecodeFirstFour(c, rest);
    }
  }

  lemma DecodeFirstTwo(c: char, rest: seq<Byte>)
    requires 0x80 <= c as int < 0x800
    ensures DecodeFirst(EncodeChar(c) + rest) == Some((c, 2))
  {
    var n := c as int;
    var bs := EncodeChar(c) + rest;
    assert bs[0] == 0xC0 + n / 0x40 && bs[1] == 0x80 + n % 0x40;
    assert (n / 0x40) * 0x40 + n % 0x40 == n;
  }

  lemma DecodeFirstThree(c: char, rest: seq<Byte>)
    requires 0x800 <= c as int < 0x1_0000
    ensures DecodeFirst(EncodeChar(c) + rest) == Some((c, 3))
  {
    var n := c as int;
    var bs := EncodeChar(c) + rest;
    var a, b, d := n / 0x1000, n / 0x40 % 0x40, n % 0x40;
    assert bs[0] == 0xE0 + a && bs[1] == 0x80 + b && bs[2] == 0x80 + d;
    assert n / 0x40 == a * 0x40 + b;
    assert n == (a * 0x40 + b) * 0x40 + d;
  }

  lemma DecodeFirstFour(c: char, rest: seq<Byte>)
    requires 0x1_0000 <= c as int
    ensures DecodeFirst(EncodeChar(c) + rest) == Some((c, 4))
  {
    var n := c as int;
    var bs := EncodeChar(c) + rest;
    var a, b, d, e := n / 0x4_0000, n / 0x1000 % 0x40, n / 0x40 % 0x40, n % 0x40;
    assert bs[0] == 0xF0 + a && bs[1] == 0x80 + b && bs[2] == 0x80 + d && bs[3] == 0x80 + e;
    assert n / 0x1000 == a * 0x40 + b;
    assert n / 0x40 == (a * 0x40 + b) * 0x40 + d;
    assert n == ((a * 0x40 + b) * 0x40 + d) * 0x40 + e;
  }

  /** An accepted first character is exactly the encoder's bytes for it: the
      decoder takes shortest forms only. */
  lemma EncodeCharDecodeFirst(bs: seq<Byte>)
    requires |bs| > 0 && DecodeFirst(bs).Some?
    ensures EncodeChar(DecodeFirst(bs).value.0) == bs[..DecodeFirst(bs).value.1]
  {
    var b0 := bs[0] as int;
    if b0 < 0x80 {
    } else if b0 < 0xE0 {
      Split6(b0 - 0xC0, bs[1] - 0x80);
    } else if b0 < 0xF0 {
      EncodeThree(bs);
    } else {
      EncodeFour(bs);
    }
  }

  lemma EncodeThree(bs: seq<Byte>)
    requires |bs| > 0 && 0xE0 <= bs[0] < 0xF0 && DecodeFirst(bs).Some?
    ensures EncodeChar(DecodeFirst(bs).value.0) == bs[..3]
  {
    var n := DecodeFirst(bs).value.0 as int;
    var hi: int := (bs[0] as int - 0xE0) * 0x40 + (bs[1] as int - 0x80);
    assert n == hi * 0x40 + (bs[2] as int - 0x80);
    Split6(hi, bs[2] - 0x80);
    Split6(bs[0] as int - 0xE0, bs[1] - 0x80);
    assert n / 0x1000 == hi / 0x40;
  }

  lemma EncodeFour(bs: seq<Byte>)
    requires |bs| > 0 && 0xF0 <= bs[0] && DecodeFirst(bs).Some?
    ensures EncodeChar(DecodeFirst(bs).value.0) == bs[..4]
  {
    var n := DecodeFirst(bs).value.0 as int;
    var top: int := (bs[0] as int - 0xF0) * 0x40 + (bs[1] as int - 0x80);
    var hi: int := top * 0x40 + (bs[2] as int - 0x80);
    assert n == hi * 0x40 + (bs[3] as int - 0x80);
    Split6(hi, bs[3] - 0x80);
    Split6(top, bs[2] - 0x80);
    Split6(bs[0] as int - 0xF0, bs[1] - 0x80);
    assert n / 0x1000 == hi / 0x40;
    assert n / 0x4_0000 == top / 0x40;
  }

  /** Decoding an encoding gives back the text. */
  lemma {:induction false} DecodeEncode(s: string)
    ensures Decode(Encode(s)) == Some(s)
  {
    if |s| > 0 {
      var bs := Encode(s);
      DecodeFirstEncodeChar(s[0], Encode(s[1..]));
      assert bs[|EncodeChar(s[0])|..] == Encode(s[1..]);
      DecodeEncode(s[1..]);
      assert s == [s[0]] + s[1..];
    }
  }

  /** Every byte sequence that decodes is the encoding of what it decodes to:
      decoding is injective and accepts nothing but encoder output. */
  lemma {:induction false} EncodeDecode(bs: seq<Byte>)
    requires Decode(bs).Some?
    ensures Encode(Decode(bs).value) == bs
    decreases |bs|
  {
    if |bs| > 0 {
      var c, k, rest := DecodeStep(bs);
      EncodeDecode(bs[k..]);
      EncodeCons(c, rest);
      assert bs == bs[..k] + bs[k..];
    }
  }

  lemma EncodeCons(c: char, rest: string)
    ensures Encode([c] + rest) == EncodeChar(c) + Encode(rest)
  {
    assert ([c] + rest)[1..] == rest;
  }

  /** A decoded text is a first character, encoded by exactly the bytes it was
      read from, followed by the decoding of the bytes after them. */
  lemma DecodeStep(bs: seq<Byte>) returns (c: char, k: nat, rest: string)
    requires |bs| > 0 && Decode(bs).Some?
    ensures 1 <= k <= |bs|
    ensures EncodeChar(c) == bs[..k]
    ensures Decode(bs[k..]) == Some(rest)
    ensures Decode(bs).value == [c] + rest
  {
    c, k := DecodeFirst(bs).value.0, DecodeFirst(bs).value.1;
    rest := Decode(bs[k..]).value;
    EncodeCharDecodeFirst(bs);
  }

  /** Encoding distributes over concatenation. */
  lemma {:induction false} EncodeAppend(a: string, b: string)
    ensures Encode(a + b) == Encode(a) + Encode(b)
  {
    if |a| == 0 {
      assert a + b == b;
    } else {
      assert (a + b)[0] == a[0];
      assert (a + b)[1..] == a[1..] + b;
      EncodeAppend(a[1..], b);
    }
  }

  /** Only the character `c` is encoded with the byte `c` when `c` is ASCII: every
      byte of a longer encoding is 0x80 or above. */
  lemma {:induction false} AsciiByteNotIn(s: string, c: char)
    requires c as int < 0x80 && c !in s
    ensures c as int !in Encode(s)
  {
    if |s| > 0 {
      AsciiByteNotIn(s[1..], c);
      assert s[0] != c;
    }
  }
}
