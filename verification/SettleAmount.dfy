/** The text of a settle amount: rated costs arrive and leave as decimal text. */
module SettleAmount {
  import opened Wrappers
  import opened Text

  predicate IsSign(c: char) { c == '-' || c == '+' }

  predicate HasNonzeroDigit(s: string) {
    exists i :: 0 <= i < |s| && IsDigit(s[i]) && s[i] != '0'
  }

  function SettleLedgerAmount(finalCost: string): Option<string> {
    var cost := Trim(finalCost, Blanks);
    if !HasNonzeroDigit(TrimStart(cost, Signs)) then None
    else if cost[0] == '-' then Some(cost)
    else Some("-" + cost)
  }

  // ---------------------------------------------------------------- what decimal text means

  /** Digits with at most one point among them, and at least one digit. */
  predicate IsUnsigned(s: string) {
    && (exists i :: 0 <= i < |s| && IsDigit(s[i]))
    && (forall i :: 0 <= i < |s| ==> IsDigit(s[i]) || s[i] == '.')
    && (forall i, j :: 0 <= i < j < |s| && s[i] == '.' ==> s[j] != '.')
  }

  /** What the numeric column reads, without exponents: an optional sign and an unsigned decimal. */
  predicate IsDecimal(s: string) {
    s != "" && if IsSign(s[0]) then IsUnsigned(s[1..]) else IsUnsigned(s)
  }

  function Unsigned(s: string): string
    requires IsDecimal(s)
  {
    if IsSign(s[0]) then s[1..] else s
  }

  /** The digits read as one integer, the point ignored. */
  function Mantissa(s: string): nat {
    if s == "" then 0
    else if IsDigit(s[|s| - 1]) then 10 * Mantissa(s[..|s| - 1]) + DigitValue(s[|s| - 1])
    else Mantissa(s[..|s| - 1])
  }

  /** How many digits follow the point. */
  function Scale(s: string): nat {
    if s == "" then 0 else if s[0] == '.' then |s| - 1 else Scale(s[1..])
  }

  /** The value is `numerator / 10^scale`. */
  datatype Value = Value(numerator: int, scale: nat)

  function ValueOf(s: string): Value
    requires IsDecimal(s)
  {
    var m := Mantissa(Unsigned(s));
    Value(if s[0] == '-' then 0 - m else m, Scale(Unsigned(s)))
  }

  lemma {:induction false} MantissaZero(s: string)
    ensures Mantissa(s) == 0 <==> !HasNonzeroDigit(s)
  {
    if s != "" {
      MantissaZero(s[..|s| - 1]);
      if HasNonzeroDigit(s[..|s| - 1]) {
        var i :| 0 <= i < |s| - 1 && IsDigit(s[..|s| - 1][i]) && s[..|s| - 1][i] != '0';
        assert IsDigit(s[i]) && s[i] != '0';
      }
    }
  }

  lemma {:induction false} SignStripped(s: string)
    requires IsDecimal(s)
    ensures TrimStart(s, Signs) == Unsigned(s)
  {
    if IsSign(s[0]) {
      assert !IsSign(s[1]);
    }
  }

  function Magnitude(n: int): nat { if n < 0 then -n else n }

  lemma {:induction false} PlusIsNoDecimal(cost: string)
    requires cost != "" && cost[0] == '+'
    ensures !IsDecimal("-" + cost)
  {
    var negated := "-" + cost;
    assert negated[1..] == cost;
    assert !IsDigit(negated[1..][0]) && negated[1..][0] != '.';
  }

  lemma {:induction false} NegatedValue(cost: string)
    requires IsUnsigned(cost)
    ensures IsDecimal("-" + cost)
    ensures ValueOf("-" + cost) == Value(0 - Mantissa(cost), Scale(cost))
  {
    assert ("-" + cost)[1..] == cost;
  }

  lemma {:induction false} UnsignedStart(cost: string)
    requires IsUnsigned(cost)
    ensures cost != "" && !IsSign(cost[0]) && !IsWhitespace(cost[0]) && !IsWhitespace(cost[|cost| - 1])
  {
  }

  /**
   A settle is a debit of the rated cost whatever its sign: for every decimal
   text, with any white space around it, nothing is written exactly when the
   value is zero, and otherwise the text written is the value's negated
   magnitude. The one exception is a cost written with a plus sign, for which
   the text written is not a decimal at all.
   */
  lemma {:induction false} SettleAmountIsDebit(left: string, cost: string, right: string)
    requires IsDecimal(cost)
    requires forall i :: 0 <= i < |left| ==> IsWhitespace(left[i])
    requires forall i :: 0 <= i < |right| ==> IsWhitespace(right[i])
    ensures var r := SettleLedgerAmount(left + cost + right);
            && (r.None? <==> ValueOf(cost).numerator == 0)
            && (r.Some? ==> (IsDecimal(r.value) <==> cost[0] != '+'))
            && (r.Some? && cost[0] != '+' ==>
                  ValueOf(r.value) == Value(0 - Magnitude(ValueOf(cost).numerator), ValueOf(cost).scale))
  {
    var u := Unsigned(cost);
    UnsignedStart(u);
    assert cost[|cost| - 1] == u[|u| - 1];
    TrimPadded(left, cost, right, Blanks);
    SignStripped(cost);
    MantissaZero(u);
    if cost[0] == '+' {
      PlusIsNoDecimal(cost);
    } else if cost[0] != '-' {
      NegatedValue(cost);
    }
  }

  // ---------------------------------------------------------------- reading what is printed

  lemma {:induction false} MantissaOfDigits(s: string)
    requires AllDigits(s)
    ensures Mantissa(s) == DigitsValue(s)
  {
    if s != "" {
      MantissaOfDigits(s[..|s| - 1]);
    }
  }

  function Pow10(n: nat): (p: nat)
    ensures p > 0
  {
    if n == 0 then 1 else 10 * Pow10(n - 1)
  }

  lemma {:induction false} MantissaOfFraction(whole: string, digits: string)
    requires AllDigits(whole) && AllDigits(digits)
    ensures Mantissa(whole + "." + digits) == DigitsValue(whole) * Pow10(|digits|) + DigitsValue(digits)
  {
    var s := whole + "." + digits;
    if digits == "" {
      assert s[..|s| - 1] == whole;
      MantissaOfDigits(whole);
    } else {
      var front := digits[..|digits| - 1];
      assert s[..|s| - 1] == whole + "." + front;
      MantissaOfFraction(whole, front);
      var last := digits[|digits| - 1];
      assert s[|s| - 1] == last && IsDigit(last);
      ShiftDecimal(DigitsValue(whole), Pow10(|front|), DigitsValue(front));
    }
  }

  lemma {:induction false} ShiftDecimal(a: nat, p: nat, b: nat)
    ensures 10 * (a * p + b) == a * (10 * p) + 10 * b
  {
  }

  lemma {:induction false} ScaleOf(whole: string, digits: string)
    requires AllDigits(whole)
    ensures Scale(whole + "." + digits) == |digits| && Scale(whole) == 0
  {
    if whole != "" {
      assert IsDigit(whole[0]);
      assert (whole + "." + digits)[1..] == whole[1..] + "." + digits;
      ScaleOf(whole[1..], digits);
    }
  }

  /** Decimal text means what it says: `w` is the number `w`, and `w.d` adds the digits `d` after the point. */
  lemma {:induction false} ReadsDecimals(whole: nat, digits: string)
    requires AllDigits(digits)
    ensures IsDecimal(Decimal(whole)) && ValueOf(Decimal(whole)) == Value(whole, 0)
    ensures IsDecimal(Decimal(whole) + "." + digits)
    ensures ValueOf(Decimal(whole) + "." + digits)
         == Value(whole * Pow10(|digits|) + DigitsValue(digits), |digits|)
  {
    var w := Decimal(whole);
    DecimalRoundTrip(whole);
    MantissaOfDigits(w);
    MantissaOfFraction(w, digits);
    ScaleOf(w, digits);
    assert IsDigit(w[0]) && (w + "." + digits)[0] == w[0];
    WholeIsUnsigned(w, digits);
  }

  lemma {:induction false} WholeIsUnsigned(whole: string, digits: string)
    requires whole != "" && AllDigits(whole) && AllDigits(digits)
    ensures IsUnsigned(whole) && IsUnsigned(whole + "." + digits)
  {
    var s := whole + "." + digits;
    assert IsDigit(whole[0]) && s[0] == whole[0] && s[|whole|] == '.';
    forall i | 0 <= i < |s| ensures i == |whole| || IsDigit(s[i]) {
      assert i < |whole| ==> s[i] == whole[i];
      assert i > |whole| ==> s[i] == digits[i - |whole| - 1];
    }
  }
}
