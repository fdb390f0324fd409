/**
 * UTF-8, as Python's `str.encode()` / `bytes.decode('utf-8')` and Java's
 * stream readers use it: the encoder of Unicode scalar values and the strict
 * decoder, which accepts only the well-formed byte sequences of section 3.9
 * of the Unicode Standard (Table 3-7: no overlong forms, no surrogates,
 * nothing above U+10FFFF) and otherwise fails as `UnicodeDecodeError` does.
 */
module Utf8 {
  import opened Wrappers

  type byte = b: int | 0 <= b < 256

  /** Continuation bytes are 10xxxxxx. */
  predicate IsCont(b: byte) {
    0x80 <= b < 0xC0
  }

  /** The one- to four-byte encoding of a single scalar value. */
  function EncodeChar(c: char): (r: seq<byte>)
    ensures 1 <= |r| <= 4
  {
    var n := c as int;
    if n < 0x80 then [n]
    else if n < 0x800 then [0xC0 + n / 64, 0x80 + n % 64]
    else if n < 0x10000 then [0xE0 + n / 4096, 0x80 + (n / 64) % 64, 0x80 + n % 64]
    else [0xF0 + n / 262144, 0x80 + (n / 4096) % 64, 0x80 + (n / 64) % 64, 0x80 + n % 64]
  }

  /** `s.encode('utf-8')`. */
  function Encode(s: string): (r: seq<byte>)
    ensures |r| >= |s|
  {
    if s == [] then [] else EncodeChar(s[0]) + Encode(s[1..])
  }

  /** The code point of a two-, three- or four-byte sequence with these bytes. */
  function Point2(b0: int, b1: int): int { (b0 - 0xC0) * 64 + (b1 - 0x80) }
  function Point3(b0: int, b1: int, b2: int): int { Point2(b0 - 0x20, b1) * 64 + (b2 - 0x80) }
  function Point4(b0: int, b1: int, b2: int, b3: int): int { Point3(b0 - 0x10, b1, b2) * 64 + (b3 - 0x80) }

  /**
   * The scalar value at the front of `b` and the number of bytes it takes,
   * or None when `b` does not start with a well-formed sequence.
   */
  function DecodeChar(b: seq<byte>): (r: Option<(char, nat)>)
    ensures r.Some? ==> 1 <= r.value.1 <= |b| && r.value.1 <= 4
  {
    if b == [] then None
    else
      var b0: int := b[0];
      if b0 < 0x80 then Some((b0 as char, 1))
      else if 0xC2 <= b0 <= 0xDF then
        if |b| >= 2 && IsCont(b[1]) then Some((Point2(b0, b[1]) as char, 2))
        else None
      else if 0xE0 <= b0 <= 0xEF then
        var lo := if b0 == 0xE0 then 0xA0 else 0x80;
        var hi := if b0 == 0xED then 0xA0 else 0xC0;
        if |b| >= 3 && lo <= b[1] < hi && IsCont(b[2]) then Some((Point3(b0, b[1], b[2]) as char, 3))
        else None
      else if 0xF0 <= b0 <= 0xF4 then
        var lo := if b0 == 0xF0 then 0x90 else 0x80;
        var hi := if b0 == 0xF4 then 0x90 else 0xC0;
        if |b| >= 4 && lo <= b[1] < hi && IsCont(b[2]) && IsCont(b[3]) then
          Some((Point4(b0, b[1], b[2], b[3]) as char, 4))
        else None
      else None
  }

  /** `b.decode('utf-8')`: None where Python raises `UnicodeDecodeError`. */
  function Decode(b: seq<byte>): (r: Option<string>)
    decreases |b|
  {
    if b == [] then Some("")
    else match DecodeChar(b)
      case None => None
      case Some((c, k)) =>
        match Decode(b[k..])
        case None => None
        case Some(s) => Some([c] + s)
  }

  lemma Decode2(n: int)
    requires 0x80 <= n < 0x800
    ensures var b0, b1 := 0xC0 + n / 64, 0x80 + n % 64;
      0xC2 <= b0 <= 0xDF && 0x80 <= b1 < 0xC0 && Point2(b0, b1) == n
  {
  }

  lemma Decode3(n: int)
    requires 0x800 <= n < 0x10000 && !(0xD800 <= n < 0xE000)
    ensures var b0, b1, b2 := 0xE0 + n / 4096, 0x80 + (n / 64) % 64, 0x80 + n % 64;
      && 0xE0 <= b0 <= 0xEF && 0x80 <= b1 < 0xC0 && 0x80 <= b2 < 0xC0
      && (b0 == 0xE0 ==> b1 >= 0xA0) && (b0 == 0xED ==> b1 < 0xA0)
      && Point3(b0, b1, b2) == n
  {
    var q := n / 64;
    assert q / 64 == n / 4096;
  }

  lemma Decode4(n: int)
    requires 0x10000 <= n <= 0x10FFFF
    ensures var b0, b1, b2, b3 := 0xF0 + n / 262144, 0x80 + (n / 4096) % 64, 0x80 + (n / 64) % 64, 0x80 + n % 64;
      && 0xF0 <= b0 <= 0xF4 && 0x80 <= b1 < 0xC0 && 0x80 <= b2 < 0xC0 && 0x80 <= b3 < 0xC0
      && (b0 == 0xF0 ==> b1 >= 0x90) && (b0 == 0xF4 ==> b1 < 0x90)
      && Point4(b0, b1, b2, b3) == n
  {
    var q := n / 64;
    var q2 := q / 64;
    assert q2 == n / 4096 && q2 / 64 == n / 262144;
  }

  lemma DecodeEncodeChar(c: char, rest: seq<byte>)
    ensures DecodeChar(EncodeChar(c) + rest) == Some((c, |EncodeChar(c)|))
  {
    var n := c as int;
    if n < 0x80 {
    } else if n < 0x800 {
      Decode2(n);
    } else if n < 0x10000 {
      Decode3(n);
    } else {
      Decode4(n);
    }
  }

  lemma Split64(n: int, hi: int, lo: int)
    requires n == hi * 64 + lo && 0 <= lo < 64
    ensures n / 64 == hi && n % 64 == lo
  {
  }

  lemma Reencode2(b0: int, b1: int)
    requires 0xC2 <= b0 <= 0xDF && 0x80 <= b1 < 0xC0
    ensures var n := Point2(b0, b1); 0x80 <= n < 0x800 && 0xC0 + n / 64 == b0 && 0x80 + n % 64 == b1
  {
    Split64(Point2(b0, b1), b0 - 0xC0, b1 - 0x80);
  }

  lemma Reencode3(b0: int, b1: int, b2: int)
    requires 0xE0 <= b0 <= 0xEF && 0x80 <= b1 < 0xC0 && 0x80 <= b2 < 0xC0 && (b0 == 0xE0 ==> b1 >= 0xA0)
    ensures var n := Point3(b0, b1, b2);
      && 0x800 <= n < 0x10000
      && 0xE0 + n / 4096 == b0 && 0x80 + (n / 64) % 64 == b1 && 0x80 + n % 64 == b2
  {
    var n := Point3(b0, b1, b2);
    var q := Point2(b0 - 0x20, b1);
    Split64(n, q, b2 - 0x80);
    Split64(q, b0 - 0xE0, b1 - 0x80);
    assert n / 4096 == q / 64;
  }

  lemma Reencode4(b0: int, b1: int, b2: int, b3: int)
    requires 0xF0 <= b0 <= 0xF4 && 0x80 <= b1 < 0xC0 && 0x80 <= b2 < 0xC0 && 0x80 <= b3 < 0xC0
    requires b0 == 0xF0 ==> b1 >= 0x90
    ensures var n := Point4(b0, b1, b2, b3);
      && 0x10000 <= n
      && 0xF0 + n / 262144 == b0 && 0x80 + (n / 4096) % 64 == b1
      && 0x80 + (n / 64) % 64 == b2 && 0x80 + n % 64 == b3
  {
    var n := Point4(b0, b1, b2, b3);
    var q2 := Point2(b0 - 0x30, b1);
    var q := Point3(b0 - 0x10, b1, b2);
    Split64(n, q, b3 - 0x80);
    Split64(q, q2, b2 - 0x80);
    Split64(q2, b0 - 0xF0, b1 - 0x80);
    assert n / 4096 == q2 && n / 262144 == q2 / 64;
  }

  lemma EncodeDecodeChar(b: seq<byte>)
    requires DecodeChar(b).Some?
    ensures var (c, k) := DecodeChar(b).value; EncodeChar(c) == b[..k]
  {
    var (c, k) := DecodeChar(b).value;
    if k == 2 {
      Reencode2(b[0], b[1]);
    } else if k == 3 {
      Reencode3(b[0], b[1], b[2]);
    } else if k == 4 {
      Reencode4(b[0], b[1], b[2], b[3]);
    }
  }

  /** Decoding what was encoded gives the text back. */
  lemma {:induction false} DecodeEncode(s: string)
    ensures Decode(Encode(s)) == Some(s)
  {
    if s != [] {
      var e := EncodeChar(s[0]);
      assert Encode(s) == e + Encode(s[1..]);
      DecodeEncodeChar(s[0], Encode(s[1..]));
      assert Encode(s)[|e|..] == Encode(s[1..]);
      DecodeEncode(s[1..]);
      assert [s[0]] + s[1..] == s;
    }
  }

  /** A successful decode is the first scalar value followed by the decode of the remaining bytes. */
  lemma DecodeCons(b: seq<byte>)
    requires b != [] && Decode(b).Some?
    ensures DecodeChar(b).Some? && Decode(b[DecodeChar(b).value.1..]).Some?
    ensures Decode(b).value == [DecodeChar(b).value.0] + Decode(b[DecodeChar(b).value.1..]).value
  {
  }

  lemma Reassemble(b: seq<byte>, c: char, k: nat, t: string)
    requires k <= |b| && EncodeChar(c) == b[..k] && Encode(t) == b[k..]
    ensures Encode([c] + t) == b
  {
    assert ([c] + t)[1..] == t;
    assert b == b[..k] + b[k..];
  }

  /** The decoder accepts only the encoder's output: what decodes re-encodes to the same bytes. */
  lemma {:induction false} EncodeDecode(b: seq<byte>)
    requires Decode(b).Some?
    ensures Encode(Decode(b).value) == b
    decreases |b|
  {
    if b != [] {
      DecodeCons(b);
      var (c, k) := DecodeChar(b).value;
      EncodeDecodeChar(b);
      EncodeDecode(b[k..]);
      Reassemble(b, c, k, Decode(b[k..]).value);
    }
  }

  /** Different texts have different encodings. */
  lemma EncodeInjective(s: string, t: string)
    requires Encode(s) == Encode(t)
    ensures s == t
  {
    DecodeEncode(s);
    DecodeEncode(t);
  }

  lemma {:induction false} EncodeAppend(s: string, t: string)
    ensures Encode(s + t) == Encode(s) + Encode(t)
  {
    if s == [] {
      assert s + t == t;
    } else {
      assert (s + t)[1..] == s[1..] + t;
      EncodeAppend(s[1..], t);
    }
  }

  /** A slice of a text encodes to no more bytes than the text. */
  lemma EncodeSlice(s: string, i: nat, j: nat)
    requires i <= j <= |s|
    ensures |Encode(s[i..j])| <= |Encode(s)|
  {
    assert s == s[..i] + s[i..j] + s[j..];
    EncodeAppend(s[..i] + s[i..j], s[j..]);
    EncodeAppend(s[..i], s[i..j]);
  }

  /** No character takes more than four bytes. */
  lemma {:induction false} EncodeLength(s: string)
    ensures |Encode(s)| <= 4 * |s|
  {
    if s != [] {
      EncodeLength(s[1..]);
    }
  }

  /** ASCII text encodes one byte per character. */
  lemma {:induction false} EncodeAscii(s: string)
    requires forall i | 0 <= i < |s| :: s[i] as int < 0x80
    ensures |Encode(s)| == |s|
    ensures forall i | 0 <= i < |s| :: Encode(s)[i] == s[i] as int
  {
    if s != [] {
      EncodeAscii(s[1..]);
    }
  }
}
