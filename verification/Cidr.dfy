/** Address prefixes: the byte-and-mask comparison of the allowlist and what it means arithmetically. */
module Cidr {
  import opened Bytes

  function Pow2(k: nat): (p: nat)
    ensures p > 0
  {
    if k == 0 then 1 else 2 * Pow2(k - 1)
  }

  /** Bitwise conjunction of two numbers. */
  function BitAnd(a: nat, b: nat): (r: nat)
    decreases a
  {
    if a == 0 then 0 else 2 * BitAnd(a / 2, b / 2) + (if a % 2 == 1 && b % 2 == 1 then 1 else 0)
  }

  /** `255 << k` in eight bits. */
  function Mask(k: nat): nat { (255 * Pow2(k)) % 256 }

  predicate PrefixMatches(network: seq<Byte>, client: seq<Byte>, prefixLen: nat, maxPrefixLen: nat)
    requires |network| == |client| && maxPrefixLen == 8 * |network|
  {
    if prefixLen > maxPrefixLen then false
    else
      var fullBytes, remainingBits := prefixLen / 8, prefixLen % 8;
      if network[..fullBytes] != client[..fullBytes] then false
      else if remainingBits == 0 then true
      else
        var mask := Mask(8 - remainingBits);
        BitAnd(network[fullBytes], mask) == BitAnd(client[fullBytes], mask)
  }

  /** An address as one number, most significant octet first. */
  function BigEndian(s: seq<Byte>): (n: nat) {
    if s == [] then 0 else 256 * BigEndian(s[..|s| - 1]) + s[|s| - 1]
  }

  // ---------------------------------------------------------------- shifting one bit at a time

  /** `n` without its last `k` bits. */
  function Shift(n: nat, k: nat): nat {
    if k == 0 then n else Shift(n / 2, k - 1)
  }

  /** `n` followed by `k` zero bits. */
  function Pad(n: nat, k: nat): nat {
    if k == 0 then n else 2 * Pad(n, k - 1)
  }

  lemma {:induction false} ShiftShift(n: nat, a: nat, b: nat)
    ensures Shift(Shift(n, a), b) == Shift(n, a + b)
  {
    if a > 0 {
      ShiftShift(n / 2, a - 1, b);
    }
  }

  /** Dropping the low `k` bits of `x` followed by `w` bits `b`. */
  lemma {:induction false} ShiftPadded(x: nat, b: nat, w: nat, k: nat)
    requires k <= w && b < Pow2(w)
    ensures Shift(Pad(x, w) + b, k) == Pad(x, w - k) + Shift(b, k) && Shift(b, k) < Pow2(w - k)
  {
    if k > 0 {
      assert (Pad(x, w) + b) / 2 == Pad(x, w - 1) + b / 2;
      ShiftPadded(x, b / 2, w - 1, k - 1);
    }
  }

  lemma {:induction false} PaddedUnique(x: nat, y: nat, d: nat, e: nat, w: nat)
    requires d < Pow2(w) && e < Pow2(w)
    ensures Pad(x, w) + d == Pad(y, w) + e <==> x == y && d == e
  {
    if w > 0 {
      PaddedUnique(x, y, d / 2, e / 2, w - 1);
    }
  }

  // ---------------------------------------------------------------- one octet

  lemma {:induction false} AndOnes(a: nat, bits: nat)
    requires a < Pow2(bits)
    ensures BitAnd(a, Pow2(bits) - 1) == a
    decreases bits
  {
    if a != 0 {
      var ones := Pow2(bits) - 1;
      assert Pow2(bits) == 2 * Pow2(bits - 1);
      assert ones / 2 == Pow2(bits - 1) - 1 && ones % 2 == 1;
      AndOnes(a / 2, bits - 1);
      assert BitAnd(a, ones) == 2 * BitAnd(a / 2, ones / 2) + a % 2;
    }
  }

  lemma {:induction false} AndPadded(a: nat, m: nat, k: nat)
    ensures BitAnd(a, Pad(m, k)) == Pad(BitAnd(Shift(a, k), m), k)
    decreases k
  {
    if k > 0 {
      AndPadded(a / 2, m, k - 1);
      if a == 0 {
        assert BitAnd(a / 2, Pad(m, k - 1)) == 0;
      }
    }
  }

  lemma {:induction false} MaskIsPaddedOnes(k: nat)
    requires 0 < k < 8
    ensures Mask(k) == Pad(Pow2(8 - k) - 1, k)
  {
    assert Pow2(1) == 2 && Pow2(2) == 4 && Pow2(3) == 8 && Pow2(4) == 16;
    assert Pow2(5) == 32 && Pow2(6) == 64 && Pow2(7) == 128;
    match k
    case 1 => assert Pad(127, 1) == 254;
    case 2 => assert Pad(63, 2) == 252;
    case 3 => assert Pad(31, 3) == 248;
    case 4 => assert Pad(15, 4) == 240;
    case 5 => assert Pad(7, 5) == 224;
    case 6 => assert Pad(3, 6) == 192;
    case 7 => assert Pad(1, 7) == 128;
  }

  lemma {:induction false} OctetBits()
    ensures Pow2(8) == 256
  {
    assert Pow2(4) == 16;
  }

  lemma {:induction false} MaskedValue(a: Byte, k: nat)
    requires 0 < k < 8
    ensures BitAnd(a, Mask(k)) == Pad(Shift(a, k), k)
  {
    OctetBits();
    MaskIsPaddedOnes(k);
    AndPadded(a, Pow2(8 - k) - 1, k);
    ShiftPadded(0, a, 8, k);
    PadZero(8);
    PadZero(8 - k);
    AndOnes(Shift(a, k), 8 - k);
  }

  lemma {:induction false} PadZero(k: nat)
    ensures Pad(0, k) == 0
  {
    if k > 0 {
      PadZero(k - 1);
    }
  }

  /** Two octets agree under the mask exactly when their leading bits do. */
  lemma {:induction false} MaskedEqual(a: Byte, b: Byte, k: nat)
    requires 0 < k < 8
    ensures BitAnd(a, Mask(k)) == BitAnd(b, Mask(k)) <==> Shift(a, k) == Shift(b, k)
  {
    MaskedValue(a, k);
    MaskedValue(b, k);
    PaddedUnique(Shift(a, k), Shift(b, k), 0, 0, k);
  }

  // ---------------------------------------------------------------- whole addresses

  lemma {:induction false} BigEndianInjective(s: seq<Byte>, t: seq<Byte>)
    requires |s| == |t|
    ensures BigEndian(s) == BigEndian(t) <==> s == t
  {
    if s != [] && BigEndian(s) == BigEndian(t) {
      BigEndianInjective(s[..|s| - 1], t[..|t| - 1]);
      assert s == s[..|s| - 1] + [s[|s| - 1]] && t == t[..|t| - 1] + [t[|t| - 1]];
    }
  }

  /** Appending an octet pads by eight bits. */
  lemma {:induction false} AppendOctet(x: nat, b: Byte)
    ensures 256 * x + b == Pad(x, 8) + b
  {
    assert Pad(x, 1) == 2 * x;
    assert Pad(x, 2) == 4 * x;
    assert Pad(x, 3) == 8 * x;
    assert Pad(x, 4) == 16 * x;
    assert Pad(x, 5) == 32 * x;
    assert Pad(x, 6) == 64 * x;
    assert Pad(x, 7) == 128 * x;
  }

  /** Dropping whole octets. */
  lemma {:induction false} DropOctets(s: seq<Byte>, m: nat)
    requires m <= |s|
    ensures Shift(BigEndian(s), 8 * (|s| - m)) == BigEndian(s[..m])
    decreases |s|
  {
    if m == |s| {
      assert s[..m] == s;
    } else {
      var front, b := s[..|s| - 1], s[|s| - 1];
      DropOctets(front, m);
      assert front[..m] == s[..m];
      OctetBits();
      AppendOctet(BigEndian(front), b);
      ShiftPadded(BigEndian(front), b, 8, 8);
      ShiftShift(BigEndian(s), 8, 8 * (|front| - m));
    }
  }

  /** The top `r` bits of the last octet, and all the others. */
  lemma {:induction false} TopOfLast(s: seq<Byte>, r: nat)
    requires s != [] && 0 < r < 8
    ensures var k := |s| - 1;
            Shift(BigEndian(s), 8 - r) == Pad(BigEndian(s[..k]), r) + Shift(s[k], 8 - r) && Shift(s[k], 8 - r) < Pow2(r)
  {
    var x, b := BigEndian(s[..|s| - 1]), s[|s| - 1];
    OctetBits();
    AppendOctet(x, b);
    ShiftPadded(x, b, 8, 8 - r);
  }

  /** The leading `8 * n + r` bits: the first `n` octets and the top `r` bits of the next. */
  lemma {:induction false} LeadingBits(s: seq<Byte>, n: nat, r: nat)
    requires n < |s| && 0 < r < 8
    ensures Shift(BigEndian(s), 8 * |s| - (8 * n + r)) == Pad(BigEndian(s[..n]), r) + Shift(s[n], 8 - r)
    ensures Shift(s[n], 8 - r) < Pow2(r)
  {
    var head, drop := s[..n + 1], 8 * (|s| - (n + 1));
    assert head[..n] == s[..n] && head[n] == s[n];
    TopOfLast(head, r);
    DropOctets(s, n + 1);
    ShiftShift(BigEndian(s), drop, 8 - r);
    assert drop + (8 - r) == 8 * |s| - (8 * n + r);
  }

  /** A prefix that ends inside an octet. */
  lemma {:induction false} SplitOctet(network: seq<Byte>, client: seq<Byte>, n: nat, r: nat)
    requires |network| == |client| && n < |network| && 0 < r < 8
    ensures network[..n] == client[..n] && BitAnd(network[n], Mask(8 - r)) == BitAnd(client[n], Mask(8 - r))
       <==> var low := 8 * |network| - (8 * n + r); Shift(BigEndian(network), low) == Shift(BigEndian(client), low)
  {
    LeadingBits(network, n, r);
    LeadingBits(client, n, r);
    MaskedEqual(network[n], client[n], 8 - r);
    PaddedUnique(BigEndian(network[..n]), BigEndian(client[..n]), Shift(network[n], 8 - r), Shift(client[n], 8 - r), r);
    BigEndianInjective(network[..n], client[..n]);
  }

  lemma {:induction false} PrefixIsShift(network: seq<Byte>, client: seq<Byte>, prefixLen: nat, maxPrefixLen: nat)
    requires |network| == |client| && maxPrefixLen == 8 * |network| && prefixLen <= maxPrefixLen
    ensures PrefixMatches(network, client, prefixLen, maxPrefixLen)
       <==> Shift(BigEndian(network), maxPrefixLen - prefixLen) == Shift(BigEndian(client), maxPrefixLen - prefixLen)
  {
    var n, r := prefixLen / 8, prefixLen % 8;
    if r == 0 {
      DropOctets(network, n);
      DropOctets(client, n);
      BigEndianInjective(network[..n], client[..n]);
      assert 8 * (|network| - n) == maxPrefixLen - prefixLen;
    } else {
      SplitOctet(network, client, n, r);
      assert 8 * |network| - (8 * n + r) == maxPrefixLen - prefixLen;
    }
  }

  // ---------------------------------------------------------------- in terms of division

  lemma {:induction false} HalfQuotient(n: nat, d: nat)
    requires d > 0
    ensures n / (2 * d) == (n / 2) / d
  {
    var h := n / 2;
    var q, r := h / d, h % d;
    assert h == d * q + r;
    assert n == (2 * d) * q + (2 * r + n % 2) by {
      assert (2 * d) * q == 2 * (d * q);
    }
    QuotientUnique(n, 2 * d, q, 2 * r + n % 2);
  }

  /** A multiple of `d` other than zero is at least `d` in magnitude. */
  lemma {:induction false} MultipleReaches(d: int, x: int)
    requires d > 0
    ensures x >= 1 ==> d * x >= d
    ensures x <= -1 ==> d * x <= -d
    decreases if x < 0 then -x else x
  {
    if x > 1 {
      MultipleReaches(d, x - 1);
      assert d * x == d * (x - 1) + d;
    } else if x < -1 {
      MultipleReaches(d, x + 1);
      assert d * x == d * (x + 1) - d;
    }
  }

  lemma {:induction false} QuotientUnique(n: int, d: nat, q: int, r: nat)
    requires d > 0 && n == d * q + r && r < d
    ensures n / d == q
  {
    var q', r' := n / d, n % d;
    assert d * (q - q') == r' - r;
    MultipleReaches(d, q - q');
  }

  /** Dropping `k` bits is division by `2^k`. */
  lemma {:induction false} ShiftIsDivision(n: nat, k: nat)
    ensures Shift(n, k) == n / Pow2(k)
  {
    if k > 0 {
      ShiftIsDivision(n / 2, k - 1);
      HalfQuotient(n, Pow2(k - 1));
    }
  }

  /**
   The allowlist comparison is arithmetic prefix equality: it holds if and
   only if the prefix length is in range and both addresses, read as
   big-endian numbers, have the same quotient by `2^(width - prefix)`.
   */
  lemma {:induction false} PrefixIsArithmetic(network: seq<Byte>, client: seq<Byte>, prefixLen: nat, maxPrefixLen: nat)
    requires |network| == |client| && maxPrefixLen == 8 * |network|
    ensures PrefixMatches(network, client, prefixLen, maxPrefixLen)
       <==> prefixLen <= maxPrefixLen
            && BigEndian(network) / Pow2(maxPrefixLen - prefixLen) == BigEndian(client) / Pow2(maxPrefixLen - prefixLen)
  {
    if prefixLen <= maxPrefixLen {
      PrefixIsShift(network, client, prefixLen, maxPrefixLen);
      ShiftIsDivision(BigEndian(network), maxPrefixLen - prefixLen);
      ShiftIsDivision(BigEndian(client), maxPrefixLen - prefixLen);
    }
  }

  /** A match at a longer prefix is a match at every shorter one. */
  lemma {:induction false} ShorterPrefixMatches(network: seq<Byte>, client: seq<Byte>, longer: nat, shorter: nat,
                                                maxPrefixLen: nat)
    requires |network| == |client| && maxPrefixLen == 8 * |network| && shorter <= longer
    requires PrefixMatches(network, client, longer, maxPrefixLen)
    ensures PrefixMatches(network, client, shorter, maxPrefixLen)
  {
    PrefixIsShift(network, client, longer, maxPrefixLen);
    PrefixIsShift(network, client, shorter, maxPrefixLen);
    ShiftShift(BigEndian(network), maxPrefixLen - longer, longer - shorter);
    ShiftShift(BigEndian(client), maxPrefixLen - longer, longer - shorter);
  }

  /** The number of a four-octet address. */
  lemma {:induction false} NumberOfAddress(a: Byte, b: Byte, c: Byte, d: Byte)
    ensures BigEndian([a, b, c, d]) == 16_777_216 * a + 65_536 * b + 256 * c + d
  {
    assert [a, b, c, d][..3] == [a, b, c] && [a, b, c][..2] == [a, b] && [a, b][..1] == [a] && [a][..0] == [];
    assert BigEndian([a]) == a;
    assert BigEndian([a, b]) == 256 * a + b;
    assert BigEndian([a, b, c]) == 256 * BigEndian([a, b]) + c;
  }
}
