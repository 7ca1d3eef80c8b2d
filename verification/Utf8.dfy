/** UTF-8 as section 4 of RFC 3629 defines it: the encoding of scalar values, strict
    validation, and the character boundaries that byte indices must respect. */
module Utf8 {
  import opened Wrappers

  type Byte = b: int | 0 <= b < 256

  /** A byte that cannot start a character. */
  predicate IsContinuation(b: Byte) {
    0x80 <= b < 0xC0
  }

  /** `char::len_utf8`. */
  function CharLen(c: char): (n: nat)
    ensures 1 <= n <= 4
  {
    var v := c as int;
    if v < 0x80 then 1 else if v < 0x800 then 2 else if v < 0x10000 then 3 else 4
  }

  function EncodeChar(c: char): (r: seq<Byte>)
    ensures |r| == CharLen(c)
    ensures !IsContinuation(r[0]) && forall i :: 1 <= i < |r| ==> IsContinuation(r[i])
  {
    var v := c as int;
    if v < 0x80 then [v]
    else if v < 0x800 then [0xC0 + v / 64, 0x80 + v % 64]
    else if v < 0x10000 then [0xE0 + v / 4096, 0x80 + v / 64 % 64, 0x80 + v % 64]
    else [0xF0 + v / 262144, 0x80 + v / 4096 % 64, 0x80 + v / 64 % 64, 0x80 + v % 64]
  }

  function Encode(s: string): seq<Byte> {
    if s == "" then [] else EncodeChar(s[0]) + Encode(s[1..])
  }

  /** The payload of a continuation byte. */
  function Low6(b: Byte): int {
    b - 0x80
  }

  /** The scalar value at the head of `b` and how many bytes it takes; none if `b`
      does not start with a well-formed sequence. */
  function DecodeFirst(b: seq<Byte>): (r: Option<(char, nat)>)
    requires b != []
    ensures r.Some? ==> 1 <= r.value.1 <= |b|
  {
    var b0: int := b[0];
    if b0 < 0x80 then Some((b0 as char, 1))
    else if 0xC2 <= b0 <= 0xDF then
      if |b| >= 2 && IsContinuation(b[1]) then Some((((b0 - 0xC0) * 64 + Low6(b[1])) as char, 2)) else None
    else if 0xE0 <= b0 <= 0xEF then
      if |b| >= 3 && IsContinuation(b[1]) && IsContinuation(b[2])
         && (b0 == 0xE0 ==> b[1] >= 0xA0) && (b0 == 0xED ==> b[1] < 0xA0)
      then Some((((b0 - 0xE0) * 4096 + Low6(b[1]) * 64 + Low6(b[2])) as char, 3))
      else None
    else if 0xF0 <= b0 <= 0xF4 then
      if |b| >= 4 && IsContinuation(b[1]) && IsContinuation(b[2]) && IsContinuation(b[3])
         && (b0 == 0xF0 ==> b[1] >= 0x90) && (b0 == 0xF4 ==> b[1] < 0x90)
      then Some((((b0 - 0xF0) * 262144 + Low6(b[1]) * 4096 + Low6(b[2]) * 64 + Low6(b[3])) as char, 4))
      else None
    else None
  }

  /** `std::str::from_utf8`. */
  function Decode(b: seq<Byte>): Option<string>
    decreases |b|
  {
    if b == [] then Some("")
    else
      match DecodeFirst(b)
      case None => None
      case Some((c, n)) =>
        match Decode(b[n..])
        case None => None
        case Some(rest) => Some([c] + rest)
  }

  // ---- one character ------------------------------------------------------------------

  lemma Divide64(hi: int, lo: int)
    requires 0 <= lo < 64
    ensures (hi * 64 + lo) / 64 == hi && (hi * 64 + lo) % 64 == lo
  {
  }

  lemma DecodesChar(c: char, rest: seq<Byte>)
    ensures DecodeFirst(EncodeChar(c) + rest) == Some((c, CharLen(c)))
  {
    var v := c as int;
    var e := EncodeChar(c);
    var b := e + rest;
    assert b[0] == e[0];
    if 0x80 <= v {
      assert b[1] == e[1];
      if 0x800 <= v {
        assert b[2] == e[2];
        if 0x10000 <= v {
          assert b[3] == e[3];
          assert v / 4096 == v / 64 / 64 && v / 262144 == v / 4096 / 64;
        } else {
          assert v / 4096 == v / 64 / 64;
        }
      }
    }
  }

  lemma EncodesTwo(h: int, x: int, c: char)
    requires 2 <= h < 32 && 0 <= x < 64 && c as int == h * 64 + x
    ensures EncodeChar(c) == [0xC0 + h, 0x80 + x]
  {
  }

  lemma EncodesThree(h: int, x: int, y: int, c: char)
    requires 0 <= h < 16 && 0 <= x < 64 && 0 <= y < 64 && c as int == h * 4096 + x * 64 + y
    requires c as int >= 0x800
    ensures EncodeChar(c) == [0xE0 + h, 0x80 + x, 0x80 + y]
  {
    var v := c as int;
    Divide64(h * 64 + x, y);
    Divide64(h, x);
    assert v == (h * 64 + x) * 64 + y && v / 4096 == v / 64 / 64;
  }

  lemma EncodesFour(h: int, x: int, y: int, z: int, c: char)
    requires 0 <= h < 8 && 0 <= x < 64 && 0 <= y < 64 && 0 <= z < 64
    requires c as int == h * 262144 + x * 4096 + y * 64 + z && c as int >= 0x10000
    ensures EncodeChar(c) == [0xF0 + h, 0x80 + x, 0x80 + y, 0x80 + z]
  {
    var v := c as int;
    Divide64((h * 64 + x) * 64 + y, z);
    Divide64(h * 64 + x, y);
    Divide64(h, x);
    assert v == ((h * 64 + x) * 64 + y) * 64 + z && v / 4096 == v / 64 / 64 && v / 262144 == v / 64 / 64 / 64;
  }

  lemma EncodesDecoded(b: seq<Byte>)
    requires b != [] && DecodeFirst(b).Some?
    ensures var (c, n) := DecodeFirst(b).value; EncodeChar(c) == b[..n]
  {
    var (c, n) := DecodeFirst(b).value;
    if n == 1 {
      assert b[..1] == [b[0]];
    } else if n == 2 {
      EncodesTwo(b[0] - 0xC0, b[1] - 0x80, c);
      assert b[..2] == [b[0], b[1]];
    } else if n == 3 {
      EncodesThree(b[0] - 0xE0, b[1] - 0x80, b[2] - 0x80, c);
      assert b[..3] == [b[0], b[1], b[2]];
    } else if n == 4 {
      EncodesFour(b[0] - 0xF0, b[1] - 0x80, b[2] - 0x80, b[3] - 0x80, c);
      assert b[..4] == [b[0], b[1], b[2], b[3]];
    }
  }

  // ---- whole strings -----------------------------------------------------------------------

  lemma {:induction false} DecodeEncode(s: string)
    ensures Decode(Encode(s)) == Some(s)
  {
    if s != "" {
      DecodesChar(s[0], Encode(s[1..]));
      DecodeEncode(s[1..]);
      assert Encode(s)[CharLen(s[0])..] == Encode(s[1..]);
      assert s == [s[0]] + s[1..];
    }
  }

  lemma {:induction false} EncodeDecode(b: seq<Byte>)
    requires Decode(b).Some?
    ensures Encode(Decode(b).value) == b
    decreases |b|
  {
    if b != [] {
      var (c, n) := DecodeFirst(b).value;
      EncodesDecoded(b);
      EncodeDecode(b[n..]);
      assert ([c] + Decode(b[n..]).value)[1..] == Decode(b[n..]).value;
      assert b == b[..n] + b[n..];
    }
  }

  lemma {:induction false} EncodeAppends(a: string, b: string)
    ensures Encode(a + b) == Encode(a) + Encode(b)
  {
    if a == "" {
      assert a + b == b;
    } else {
      assert (a + b)[1..] == a[1..] + b;
      EncodeAppends(a[1..], b);
    }
  }

  lemma EncodeOne(c: char)
    ensures Encode([c]) == EncodeChar(c)
  {
    assert [c][1..] == "";
  }

  // ---- character boundaries -----------------------------------------------------------------

  /** `str::is_char_boundary`. */
  predicate IsCharBoundary(b: seq<Byte>, i: nat) {
    i == 0 || i == |b| || (i < |b| && !IsContinuation(b[i]))
  }

  /** `i` is where the first `k` characters of `s` end. */
  predicate EndsPrefix(s: string, k: nat, i: nat) {
    k <= |s| && i == |Encode(s[..k])|
  }

  lemma PrefixEndIsBoundary(s: string, k: nat)
    requires k <= |s|
    ensures |Encode(s[..k])| <= |Encode(s)|
    ensures IsCharBoundary(Encode(s), |Encode(s[..k])|)
    ensures Encode(s)[..|Encode(s[..k])|] == Encode(s[..k])
    ensures Encode(s)[|Encode(s[..k])|..] == Encode(s[k..])
  {
    assert s == s[..k] + s[k..];
    EncodeAppends(s[..k], s[k..]);
    if k < |s| {
      assert Encode(s[k..])[0] == EncodeChar(s[k])[0];
    }
  }

  lemma InsideChar(s: string, i: nat)
    requires s != "" && 0 < i < CharLen(s[0])
    ensures i < |Encode(s)| && IsContinuation(Encode(s)[i])
  {
    assert Encode(s)[i] == EncodeChar(s[0])[i];
  }

  /** The boundaries of an encoded string are exactly the ends of its encoded
      prefixes. */
  lemma {:induction false} BoundaryEndsPrefix(s: string, i: nat) returns (k: nat)
    requires i <= |Encode(s)| && IsCharBoundary(Encode(s), i)
    ensures EndsPrefix(s, k, i)
  {
    if i == 0 {
      k := 0;
      assert s[..0] == "";
    } else {
      var n := CharLen(s[0]);
      if i < n {
        InsideChar(s, i);
        assert false;
      }
      assert n < i < |Encode(s)| ==> Encode(s)[i] == Encode(s[1..])[i - n];
      var rest := BoundaryEndsPrefix(s[1..], i - n);
      k := rest + 1;
      assert s[..k][1..] == s[1..][..rest];
    }
  }
}
