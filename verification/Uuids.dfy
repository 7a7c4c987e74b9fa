/**
 Identifiers and their printed form: 128-bit numbers shown as 32 lower-case
 hexadecimal digits in groups of 8-4-4-4-12.
 */
module Uuids {

  const UUID_LIMIT: nat := 0x1_0000_0000_0000_0000_0000_0000_0000_0000

  /** Two identifiers compare as big-endian byte strings, hence as numbers. */
  type Uuid = n: nat | n < UUID_LIMIT

  const HEX_DIGITS: string := "0123456789abcdef"

  function Pow16(width: nat): (p: nat)
    ensures p > 0
  {
    if width == 0 then 1 else 16 * Pow16(width - 1)
  }

  /** The last `width` hexadecimal digits of `n`. */
  function HexFixed(n: nat, width: nat): (s: string)
    ensures |s| == width
  {
    if width == 0 then "" else HexFixed(n / 16, width - 1) + [HEX_DIGITS[n % 16]]
  }

  /** The digits from position `i` on, with a hyphen before the 9th, 13th, 17th and 21st. */
  function Grouped(digits: string, i: nat): string
    decreases |digits| - i
  {
    if i >= |digits| then ""
    else (if i == 8 || i == 12 || i == 16 || i == 20 then "-" else "") + [digits[i]] + Grouped(digits, i + 1)
  }

  function Hyphenated(u: Uuid): string { Grouped(HexFixed(u, 32), 0) }

  lemma {:induction false} HexDigitInjective(a: nat, b: nat)
    requires a < 16 && b < 16
    requires HEX_DIGITS[a] == HEX_DIGITS[b]
    ensures a == b
  {
  }

  lemma {:induction false} HexFixedInjective(a: nat, b: nat, width: nat)
    requires a < Pow16(width) && b < Pow16(width)
    requires HexFixed(a, width) == HexFixed(b, width)
    ensures a == b
  {
    if width > 0 {
      var x, y := HexFixed(a, width), HexFixed(b, width);
      assert x[..width - 1] == HexFixed(a / 16, width - 1) && y[..width - 1] == HexFixed(b / 16, width - 1);
      assert x[width - 1] == HEX_DIGITS[a % 16] && y[width - 1] == HEX_DIGITS[b % 16];
      HexDigitInjective(a % 16, b % 16);
      HexFixedInjective(a / 16, b / 16, width - 1);
    }
  }

  lemma {:induction false} Pow16Of32()
    ensures Pow16(32) == UUID_LIMIT
  {
    assert Pow16(8) == 0x1_0000_0000;
    assert Pow16(16) == 0x1_0000_0000_0000_0000;
    assert Pow16(24) == 0x1_0000_0000_0000_0000_0000_0000;
  }

  lemma {:induction false} GroupedInjective(a: string, b: string, i: nat)
    requires |a| == |b| && i <= |a| && Grouped(a, i) == Grouped(b, i)
    ensures a[i..] == b[i..]
    decreases |a| - i
  {
    if i < |a| {
      var x, y, k := Grouped(a, i), Grouped(b, i), if i == 8 || i == 12 || i == 16 || i == 20 then 1 else 0;
      assert x[k] == a[i] && y[k] == b[i];
      assert x[k + 1..] == Grouped(a, i + 1) && y[k + 1..] == Grouped(b, i + 1);
      GroupedInjective(a, b, i + 1);
      assert a[i..] == [a[i]] + a[i + 1..] && b[i..] == [b[i]] + b[i + 1..];
    }
  }

  /** Distinct identifiers print differently. */
  lemma {:induction false} HyphenatedInjective(a: Uuid, b: Uuid)
    requires Hyphenated(a) == Hyphenated(b)
    ensures a == b
  {
    var x, y := HexFixed(a, 32), HexFixed(b, 32);
    GroupedInjective(x, y, 0);
    assert x[0..] == x && y[0..] == y;
    Pow16Of32();
    HexFixedInjective(a, b, 32);
  }
}
