/** What a settle charges, in terms of the rated cost itself and of the text it arrives as. */
module ChargeAmounts {
  import opened Wrappers
  import opened Uuids
  import opened Text
  import opened Callers
  import opened Ledger
  import opened LedgerRows
  import opened LedgerRuns
  import opened ExactlyOnce
  import opened SettleAmount

  // ---------------------------------------------------------------- over every run

  /** The cost of the request's first settle that the amount column takes: not zero, less than 10^12 currency units. */
  function FirstCost(ops: seq<Op>, tenant: Uuid, request: Uuid): Option<int> {
    if ops == [] then None
    else
      var earlier, op := FirstCost(ops[..|ops| - 1], tenant, request), ops[|ops| - 1];
      if earlier.Some? then earlier
      else if && op.SettleOp? && op.auth.tenant == tenant && op.request == request
              && 0 < Magnitude(op.cost) < 100_000_000_000_000_000_000
      then Some(op.cost)
      else None
  }

  lemma {:induction false} FirstChargeAmount(ops: seq<Op>, tenant: Uuid, request: Uuid)
    ensures var cs := FirstCharge(ops, tenant, request);
            match FirstCost(ops, tenant, request)
            case None => cs == []
            case Some(cost) => |cs| == 1 && cs[0].amount == (if cost > 0 then -cost else cost)
  {
    if ops != [] {
      FirstChargeAmount(ops[..|ops| - 1], tenant, request);
    }
  }

  predicate IsSettleOf(e: Entry, tenant: Uuid, request: Uuid) {
    e.tenant == tenant && e.request == Some(request) && e.kind == Settle
  }

  /** The settle rows of the request are debits of `cost`, and there are some exactly if there is a cost. */
  ghost predicate ChargedWith(es: seq<Entry>, tenant: Uuid, request: Uuid, cost: Option<int>) {
    && (forall e :: e in es && IsSettleOf(e, tenant, request) ==>
          cost.Some? && e.amount == (if cost.value > 0 then -cost.value else cost.value))
    && (cost.Some? ==> exists e :: e in es && IsSettleOf(e, tenant, request))
  }

  lemma {:induction false} ChargesTell(es: seq<Entry>, tenant: Uuid, request: Uuid, cost: Option<int>)
    requires var cs := Charges(es, tenant, request);
             match cost
             case None => cs == []
             case Some(c) => |cs| == 1 && cs[0].amount == (if c > 0 then -c else c)
    ensures ChargedWith(es, tenant, request, cost)
  {
    ChargesAreRows(es, tenant, request);
    forall e | e in es && IsSettleOf(e, tenant, request)
      ensures cost.Some? && e.amount == (if cost.value > 0 then -cost.value else cost.value)
    {
      var i :| 0 <= i < |es| && es[i] == e;
      ChargeListed(es, i, tenant, request);
    }
    if cost.Some? {
      var e := Charges(es, tenant, request)[0];
      assert e in Charges(es, tenant, request);
      assert e in es && IsSettleOf(e, tenant, request);
    }
  }

  /**
   The charge of a request is the cost of its first settle, as a debit: over
   every run in which nobody else writes its settle rows, each such row has the
   amount `-cost` for a positive cost and `cost` for a negative one, and there
   is one as soon as a settle came with a cost that can be stored.
   */
  lemma {:induction false} ChargeIsFirstCost(funds: Funds, es: seq<Entry>, ops: seq<Op>, tenant: Uuid, request: Uuid)
    requires KeyMeansCharge(es, tenant, request) && Charges(es, tenant, request) == []
    requires SoleSettlerRun(funds, es, ops, tenant, request)
    ensures ChargedWith(Run(funds, es, ops), tenant, request, FirstCost(ops, tenant, request))
  {
    ChargedExactlyOnce(funds, es, ops, tenant, request);
    FirstChargeAmount(ops, tenant, request);
    ChargesTell(Run(funds, es, ops), tenant, request, FirstCost(ops, tenant, request));
  }

  // ---------------------------------------------------------------- from the text of the cost

  /** A decimal value in units of 10^-8, the scale of the amount column. */
  function Units(v: Value): int
    requires v.scale <= 8
  {
    v.numerator * Pow10(8 - v.scale)
  }

  lemma {:induction false} UnitsOfNegated(n: int, scale: nat)
    requires scale <= 8
    ensures Units(Value(0 - Magnitude(n), scale)) == 0 - Magnitude(Units(Value(n, scale)))
    ensures Units(Value(n, scale)) == 0 <==> n == 0
  {
    var p := Pow10(8 - scale);
    if n > 0 {
      assert n * p > 0 && (0 - n) * p == 0 - n * p;
    } else if n < 0 {
      assert (0 - n) * p > 0 && (0 - n) * p == 0 - n * p;
    }
  }

  /** The text sent to the amount column, in units: none for zero, else the cost's magnitude as a debit. */
  lemma {:induction false} TextUnits(left: string, text: string, right: string)
    requires IsDecimal(text) && text[0] != '+' && ValueOf(text).scale <= 8
    requires forall i :: 0 <= i < |left| ==> IsWhitespace(left[i])
    requires forall i :: 0 <= i < |right| ==> IsWhitespace(right[i])
    ensures var cost, written := Units(ValueOf(text)), SettleLedgerAmount(left + text + right);
            && (written.None? <==> cost == 0)
            && (written.Some? ==>
                  && IsDecimal(written.value) && ValueOf(written.value).scale <= 8
                  && Units(ValueOf(written.value)) == 0 - Magnitude(cost))
  {
    var v := ValueOf(text);
    var written := SettleLedgerAmount(left + text + right);
    SettleAmountIsDebit(left, text, right);
    UnitsOfNegated(v.numerator, v.scale);
    if written.Some? {
      assert ValueOf(written.value) == Value(0 - Magnitude(v.numerator), v.scale);
    }
  }

  lemma {:induction false} SettledAmount(es: seq<Entry>, auth: Auth, request: Uuid, cost: int, currency: string,
                                         id: Uuid)
    ensures var step := SettleStep(es, auth, request, cost, currency, id);
            && (cost == 0 ==> step.0 == NotInserted && step.1 == es)
            && (step.0 == Settled ==> |step.1| == |es| + 1 && step.1[|es|].amount == 0 - Magnitude(cost))
  {
    if SettleStep(es, auth, request, cost, currency, id).0 == Settled {
      SettleWrites(es, auth, request, cost, currency, id);
    }
  }

  /**
   The row a settle writes has the value of the amount text: for every cost
   text with at most eight decimals and without a plus sign, in any white space,
   the settle is skipped exactly when its units are zero, and otherwise an
   inserted row has as amount the value of the text sent to the amount column.
   */
  lemma {:induction false} RowAmountIsTextValue(left: string, text: string, right: string, es: seq<Entry>, auth: Auth,
                                                request: Uuid, currency: string, id: Uuid)
    requires IsDecimal(text) && text[0] != '+' && ValueOf(text).scale <= 8
    requires forall i :: 0 <= i < |left| ==> IsWhitespace(left[i])
    requires forall i :: 0 <= i < |right| ==> IsWhitespace(right[i])
    ensures var cost, written := Units(ValueOf(text)), SettleLedgerAmount(left + text + right);
            var step := SettleStep(es, auth, request, cost, currency, id);
            && (written.None? <==> cost == 0)
            && (written.None? ==> step.0 == NotInserted && step.1 == es)
            && (written.Some? ==> IsDecimal(written.value) && ValueOf(written.value).scale <= 8)
            && (step.0 == Settled ==>
                  written.Some? && |step.1| == |es| + 1 && step.1[|es|].amount == Units(ValueOf(written.value)))
  {
    TextUnits(left, text, right);
    SettledAmount(es, auth, request, Units(ValueOf(text)), currency, id);
  }
}
