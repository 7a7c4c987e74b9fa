/** Text helpers: white space, trimming, decimal numerals. */
module Text {

  /** The characters with the Unicode White_Space property. */
  predicate IsWhitespace(c: char) {
    || '\t' <= c <= '\r' || c == ' ' || c == '\U{85}' || c == '\U{A0}' || c == '\U{1680}'
    || '\U{2000}' <= c <= '\U{200A}' || c == '\U{2028}' || c == '\U{2029}' || c == '\U{202F}'
    || c == '\U{205F}' || c == '\U{3000}'
  }

  /** The kinds of characters that the modelled programs trim. */
  datatype Trimmable = Blanks | PythonBlanks | Signs | Dots {
    predicate Drops(c: char) {
      match this
      case Blanks => IsWhitespace(c)
      case PythonBlanks => IsWhitespace(c) || '\U{1C}' <= c <= '\U{1F}'
      case Signs => c == '-' || c == '+'
      case Dots => c == '.'
    }
  }

  /** The same by code: the 25 white-space characters of Unicode, and the four more that Python strips. */
  lemma {:induction false} WhiteSpaceCodes(c: char)
    ensures IsWhitespace(c)
       <==> c as int in {9, 10, 11, 12, 13, 32, 133, 160, 5760, 8192, 8193, 8194, 8195, 8196, 8197, 8198, 8199, 8200,
                         8201, 8202, 8232, 8233, 8239, 8287, 12288}
    ensures PythonBlanks.Drops(c) <==> IsWhitespace(c) || c as int in {28, 29, 30, 31}
  {
  }

  predicate IsDigit(c: char) { '0' <= c <= '9' }

  predicate AllDigits(s: string) { forall i :: 0 <= i < |s| ==> IsDigit(s[i]) }

  function TrimStart(s: string, kind: Trimmable): (r: string)
    ensures |r| <= |s|
    ensures r != "" ==> !kind.Drops(r[0])
    ensures s != "" && !kind.Drops(s[0]) ==> r == s
  {
    if s != "" && kind.Drops(s[0]) then TrimStart(s[1..], kind) else s
  }

  function TrimEnd(s: string, kind: Trimmable): (r: string)
    ensures |r| <= |s|
    ensures r != "" ==> r[0] == s[0] && !kind.Drops(r[|r| - 1])
    ensures s != "" && !kind.Drops(s[|s| - 1]) ==> r == s
  {
    if s != "" && kind.Drops(s[|s| - 1]) then TrimEnd(s[..|s| - 1], kind) else s
  }

  function Trim(s: string, kind: Trimmable): (r: string)
    ensures |r| <= |s|
    ensures r != "" ==> !kind.Drops(r[0]) && !kind.Drops(r[|r| - 1])
    ensures s != "" && !kind.Drops(s[0]) && !kind.Drops(s[|s| - 1]) ==> r == s
  {
    TrimEnd(TrimStart(s, kind), kind)
  }

  /** Text that starts and ends with kept characters survives any padding. */
  lemma {:induction false} TrimPadded(left: string, s: string, right: string, kind: Trimmable)
    requires forall i :: 0 <= i < |left| ==> kind.Drops(left[i])
    requires forall i :: 0 <= i < |right| ==> kind.Drops(right[i])
    requires s != "" && !kind.Drops(s[0]) && !kind.Drops(s[|s| - 1])
    ensures Trim(left + s + right, kind) == s
  {
    var t := s + right;
    assert left + s + right == left + t;
    assert t[0] == s[0];
    TrimStartPadded(left, t, kind);
    TrimEndPadded(s, right, kind);
  }

  lemma {:induction false} TrimStartPadded(left: string, s: string, kind: Trimmable)
    requires forall i :: 0 <= i < |left| ==> kind.Drops(left[i])
    requires s != "" && !kind.Drops(s[0])
    ensures TrimStart(left + s, kind) == s
  {
    if left == "" {
      assert left + s == s;
    } else {
      assert (left + s)[1..] == left[1..] + s;
      TrimStartPadded(left[1..], s, kind);
    }
  }

  lemma {:induction false} TrimEndPadded(s: string, right: string, kind: Trimmable)
    requires forall i :: 0 <= i < |right| ==> kind.Drops(right[i])
    requires s != "" && !kind.Drops(s[|s| - 1])
    ensures TrimEnd(s + right, kind) == s
  {
    if right == "" {
      assert s + right == s;
    } else {
      var all := s + right;
      assert all[..|all| - 1] == s + right[..|right| - 1];
      TrimEndPadded(s, right[..|right| - 1], kind);
    }
  }

  // ---------------------------------------------------------------- searching

  /** The position of the first `c`, or the length. */
  function IndexOf(s: string, c: char): (i: nat)
    ensures i <= |s|
    ensures i < |s| ==> s[i] == c
    ensures forall j :: 0 <= j < i ==> s[j] != c
  {
    if s == "" || s[0] == c then 0 else 1 + IndexOf(s[1..], c)
  }

  lemma {:induction false} IndexOfAt(a: string, c: char, rest: string)
    requires c !in a
    ensures IndexOf(a + [c] + rest, c) == |a|
  {
    var s := a + [c] + rest;
    assert s[|a|] == c;
    assert forall j :: 0 <= j < |a| ==> s[j] == a[j];
  }

  // ---------------------------------------------------------------- decimal numerals

  function DigitChar(d: nat): (c: char)
    requires d < 10
    ensures IsDigit(c)
  {
    '0' + d as char
  }

  function DigitValue(c: char): (d: nat)
    requires IsDigit(c)
    ensures d < 10 && DigitChar(d) == c
  {
    (c - '0') as nat
  }

  /** A natural number in decimal, without leading zeros. */
  function Decimal(n: nat): (s: string)
    ensures s != "" && AllDigits(s)
  {
    if n < 10 then [DigitChar(n)] else Decimal(n / 10) + [DigitChar(n % 10)]
  }

  function DigitsValue(s: string): (n: nat)
    requires AllDigits(s)
  {
    if s == "" then 0 else 10 * DigitsValue(s[..|s| - 1]) + DigitValue(s[|s| - 1])
  }

  /** Printing and reading a natural number is the identity. */
  lemma {:induction false} DecimalRoundTrip(n: nat)
    ensures DigitsValue(Decimal(n)) == n
  {
    if n >= 10 {
      DecimalRoundTrip(n / 10);
      var s := Decimal(n);
      assert s[..|s| - 1] == Decimal(n / 10);
    } else {
      assert Decimal(n)[..0] == "";
    }
  }
}
