/** What the line reader's text check accepts: exactly the encodings of sequences of Unicode scalar values. */
module Utf8 {
  import opened Wrappers
  import opened Bytes
  import opened Resp

  /** A code point that is not a surrogate. */
  type Scalar = c: nat | c < 0xD800 || 0xE000 <= c < 0x11_0000

  /** The UTF-8 form of a scalar value: six bits in each byte after the first. */
  function Encoded(c: Scalar): (s: seq<Byte>)
    ensures 1 <= |s| <= 4
  {
    if c < 0x80 then [c]
    else if c < 0x800 then [0xC0 + c / 64, 0x80 + c % 64]
    else if c < 0x1_0000 then [0xE0 + c / 4096, 0x80 + c / 64 % 64, 0x80 + c % 64]
    else [0xF0 + c / 262_144, 0x80 + c / 4096 % 64, 0x80 + c / 64 % 64, 0x80 + c % 64]
  }

  function Forms(cs: seq<Scalar>): (fs: seq<seq<Byte>>)
    ensures |fs| == |cs| && forall i :: 0 <= i < |cs| ==> fs[i] == Encoded(cs[i])
  {
    if cs == [] then [] else Forms(cs[..|cs| - 1]) + [Encoded(cs[|cs| - 1])]
  }

  function Joined(parts: seq<seq<Byte>>): seq<Byte> {
    if parts == [] then [] else parts[0] + Joined(parts[1..])
  }

  function EncodedText(cs: seq<Scalar>): seq<Byte> { Joined(Forms(cs)) }

  lemma {:induction false} JoinedAppend(parts: seq<seq<Byte>>, last: seq<Byte>)
    ensures Joined(parts + [last]) == Joined(parts) + last
  {
    var all := parts + [last];
    if parts == [] {
      assert all[1..] == [] && all[0] == last;
    } else {
      JoinedAppend(parts[1..], last);
      assert all[1..] == parts[1..] + [last] && all[0] == parts[0];
    }
  }

  lemma {:induction false} Prepended(c: Scalar, rest: seq<Scalar>)
    ensures EncodedText([c] + rest) == Encoded(c) + EncodedText(rest)
  {
    var all := Forms([c] + rest);
    assert all[0] == Encoded(c) && all[1..] == Forms(rest);
  }

  lemma {:induction false} AfterTwo(a: Byte, b: Byte, rest: seq<Byte>)
    requires 0xC2 <= a <= 0xDF && IsCont(b)
    ensures ValidUtf8([a, b] + rest) <==> ValidUtf8(rest)
  {
    assert ([a, b] + rest)[2..] == rest;
  }

  lemma {:induction false} AfterThree(a: Byte, b: Byte, d: Byte, rest: seq<Byte>)
    requires 0xE0 <= a <= 0xEF && IsCont(b) && IsCont(d) && (a == 0xE0 ==> b >= 0xA0) && (a == 0xED ==> b <= 0x9F)
    ensures ValidUtf8([a, b, d] + rest) <==> ValidUtf8(rest)
  {
    assert ([a, b, d] + rest)[3..] == rest;
  }

  lemma {:induction false} AfterFour(a: Byte, b: Byte, d: Byte, e: Byte, rest: seq<Byte>)
    requires 0xF0 <= a <= 0xF4 && IsCont(b) && IsCont(d) && IsCont(e)
    requires (a == 0xF0 ==> b >= 0x90) && (a == 0xF4 ==> b <= 0x8F)
    ensures ValidUtf8([a, b, d, e] + rest) <==> ValidUtf8(rest)
  {
    assert ([a, b, d, e] + rest)[4..] == rest;
  }

  lemma {:induction false} EncodedIsValid(c: Scalar, rest: seq<Byte>)
    ensures ValidUtf8(Encoded(c) + rest) <==> ValidUtf8(rest)
  {
    var s := Encoded(c);
    if c < 0x80 {
      assert (s + rest)[1..] == rest;
    } else if c < 0x800 {
      AfterTwo(s[0], s[1], rest);
    } else if c < 0x1_0000 {
      AfterThree(s[0], s[1], s[2], rest);
    } else {
      AfterFour(s[0], s[1], s[2], s[3], rest);
    }
  }

  lemma {:induction false} TwoBytes(a: Byte, b: Byte) returns (c: Scalar)
    requires 0xC2 <= a <= 0xDF && IsCont(b)
    ensures Encoded(c) == [a, b]
  {
    var x: int, y: int := a - 0xC0, b - 0x80;
    c := x * 64 + y;
  }

  lemma {:induction false} ThreeBytes(a: Byte, b: Byte, d: Byte) returns (c: Scalar)
    requires 0xE0 <= a <= 0xEF && IsCont(b) && IsCont(d) && (a == 0xE0 ==> b >= 0xA0) && (a == 0xED ==> b <= 0x9F)
    ensures Encoded(c) == [a, b, d]
  {
    var x: int, y: int, z: int := a - 0xE0, b - 0x80, d - 0x80;
    c := (x * 64 + y) * 64 + z;
    assert c / 64 == x * 64 + y;
  }

  lemma {:induction false} FourBytes(a: Byte, b: Byte, d: Byte, e: Byte) returns (c: Scalar)
    requires 0xF0 <= a <= 0xF4 && IsCont(b) && IsCont(d) && IsCont(e)
    requires (a == 0xF0 ==> b >= 0x90) && (a == 0xF4 ==> b <= 0x8F)
    ensures Encoded(c) == [a, b, d, e]
  {
    var w: int, x: int, y: int, z: int := a - 0xF0, b - 0x80, d - 0x80, e - 0x80;
    c := ((w * 64 + x) * 64 + y) * 64 + z;
    assert c / 64 == (w * 64 + x) * 64 + y;
    assert c / 4096 == w * 64 + x;
  }

  /** Valid text starts with the encoding of a scalar value, and goes on valid. */
  lemma {:induction false} FirstScalar(s: seq<Byte>) returns (c: Scalar, tail: seq<Byte>)
    requires ValidUtf8(s) && s != []
    ensures s == Encoded(c) + tail && ValidUtf8(tail)
  {
    if s[0] < 0x80 {
      c := s[0];
    } else if s[0] < 0xE0 {
      c := TwoBytes(s[0], s[1]);
    } else if s[0] < 0xF0 {
      c := ThreeBytes(s[0], s[1], s[2]);
    } else {
      c := FourBytes(s[0], s[1], s[2], s[3]);
    }
    tail := s[|Encoded(c)|..];
  }

  /** The check accepts a byte string if and only if it is the encoding of some text. */
  lemma {:induction false} ValidIsEncoded(s: seq<Byte>)
    ensures ValidUtf8(s) <==> exists cs: seq<Scalar> :: s == EncodedText(cs)
  {
    if ValidUtf8(s) {
      var cs := Decoded(s);
      assert s == EncodedText(cs);
    }
    forall cs: seq<Scalar> | s == EncodedText(cs) ensures ValidUtf8(s) {
      TextIsValid(cs);
    }
  }

  lemma {:induction false} TextIsValid(cs: seq<Scalar>)
    ensures ValidUtf8(EncodedText(cs))
  {
    if cs != [] {
      assert cs == [cs[0]] + cs[1..];
      Prepended(cs[0], cs[1..]);
      TextIsValid(cs[1..]);
      EncodedIsValid(cs[0], EncodedText(cs[1..]));
    }
  }

  lemma {:induction false} Decoded(s: seq<Byte>) returns (cs: seq<Scalar>)
    requires ValidUtf8(s)
    ensures s == EncodedText(cs)
  {
    if s == [] {
      cs := [];
    } else {
      var c, tail := FirstScalar(s);
      var rest := Decoded(tail);
      cs := [c] + rest;
      Prepended(c, rest);
    }
  }
}
