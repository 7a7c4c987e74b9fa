/** Refunds: bounded by the charge over every run, exact when full, and final. */
module Refunds {
  import opened Wrappers
  import opened Uuids
  import opened LedgerKeys
  import opened Callers
  import opened Ledger
  import opened LedgerRuns

  predicate IsDebit(e: Entry) {
    e.kind == Settle && e.status == Confirmed && e.amount < 0
  }

  /** Every reference points at a row. */
  predicate RelatedExist(es: seq<Entry>) {
    forall i :: 0 <= i < |es| && es[i].related.Some? ==>
      exists j :: 0 <= j < |es| && es[j].id == es[i].related.value
  }

  /** For every charge, the confirmed refunds against it lie between zero and the charge. */
  predicate RefundsBounded(es: seq<Entry>) {
    forall i :: 0 <= i < |es| && IsDebit(es[i]) ==> 0 <= RefundTotal(es, es[i].tenant, es[i].id) <= -es[i].amount
  }

  /** Other writers keep the foreign key and refund no more than what is left. */
  predicate Respectful(es: seq<Entry>, op: Op) {
    op.OtherOp? ==>
      && (op.row.related.Some? ==> exists j :: 0 <= j < |es| && es[j].id == op.row.related.value)
      && (forall i :: 0 <= i < |es| && IsDebit(es[i]) && IsRefundOf(op.row, es[i].tenant, es[i].id) ==>
            0 <= op.row.amount <= -es[i].amount - RefundTotal(es, es[i].tenant, es[i].id))
  }

  predicate RespectfulRun(funds: Funds, es: seq<Entry>, ops: seq<Op>) {
    ops != [] ==>
      && RespectfulRun(funds, es, ops[..|ops| - 1])
      && Respectful(Run(funds, es, ops[..|ops| - 1]), ops[|ops| - 1])
  }

  predicate RefundInvariant(es: seq<Entry>) {
    UniqueRows(es) && RelatedExist(es) && RefundsBounded(es)
  }

  lemma {:induction false} RefundsOfAppend(es: seq<Entry>, row: Entry, tenant: Uuid, settleId: Uuid)
    ensures RefundTotal(es + [row], tenant, settleId)
         == RefundTotal(es, tenant, settleId) + if IsRefundOf(row, tenant, settleId) then row.amount else 0
  {
    assert (es + [row])[..|es|] == es;
  }

  lemma {:induction false} ReverseKeepsRefunds(es: seq<Entry>, auth: Auth, request: Uuid, tenant: Uuid, settleId: Uuid)
    ensures RefundTotal(ReverseReserves(es, auth, request), tenant, settleId) == RefundTotal(es, tenant, settleId)
  {
    if es != [] {
      var front, last := es[..|es| - 1], es[|es| - 1];
      ReverseKeepsRefunds(front, auth, request, tenant, settleId);
      RefundsOfAppend(ReverseReserves(front, auth, request), ReleaseRow(last, auth, request), tenant, settleId);
    }
  }

  lemma {:induction false} NoRefundsYet(es: seq<Entry>, tenant: Uuid, id: Uuid)
    requires forall i :: 0 <= i < |es| ==> es[i].related != Some(id)
    ensures RefundTotal(es, tenant, id) == 0
  {
    if es != [] {
      NoRefundsYet(es[..|es| - 1], tenant, id);
    }
  }

  lemma {:induction false} ReverseKeepsInvariant(es: seq<Entry>, auth: Auth, request: Uuid)
    requires RefundInvariant(es)
    ensures RefundInvariant(ReverseReserves(es, auth, request))
  {
    var after := ReverseReserves(es, auth, request);
    ReverseKeepsUnique(es, auth, request);
    forall i | 0 <= i < |after| && IsDebit(after[i])
      ensures 0 <= RefundTotal(after, after[i].tenant, after[i].id) <= -after[i].amount
    {
      assert IsDebit(es[i]);
      ReverseKeepsRefunds(es, auth, request, es[i].tenant, es[i].id);
    }
    forall i | 0 <= i < |after| && after[i].related.Some?
      ensures exists j :: 0 <= j < |after| && after[j].id == after[i].related.value
    {
      var j :| 0 <= j < |es| && es[j].id == es[i].related.value;
      assert after[j].id == after[i].related.value;
    }
  }

  /** A row may be appended if it refunds no charge beyond what is left of it. */
  lemma {:induction false} AppendKeepsInvariant(es: seq<Entry>, row: Entry)
    requires RefundInvariant(es) && !Conflicts(es, row)
    requires row.related.Some? ==> exists j :: 0 <= j < |es| && es[j].id == row.related.value
    requires forall i :: 0 <= i < |es| && IsDebit(es[i]) && IsRefundOf(row, es[i].tenant, es[i].id) ==>
               0 <= row.amount <= -es[i].amount - RefundTotal(es, es[i].tenant, es[i].id)
    ensures RefundInvariant(es + [row])
  {
    var after := es + [row];
    AppendKeepsUnique(es, row);
    forall i | 0 <= i < |es| ensures es[i].id != row.id { assert !ConflictsWith(es[i], row); }
    assert row.related != Some(row.id);
    assert forall i :: 0 <= i < |es| ==> es[i].related != Some(row.id);
    NoRefundsYet(es, row.tenant, row.id);
    forall i | 0 <= i < |after| && IsDebit(after[i])
      ensures 0 <= RefundTotal(after, after[i].tenant, after[i].id) <= -after[i].amount
    {
      RefundsOfAppend(es, row, after[i].tenant, after[i].id);
      if i < |es| { assert IsDebit(es[i]); }
    }
    forall i | 0 <= i < |after| && after[i].related.Some?
      ensures exists j :: 0 <= j < |after| && after[j].id == after[i].related.value
    {
      var j :| 0 <= j < |es| && es[j].id == after[i].related.value;
      assert after[j].id == after[i].related.value;
    }
  }

  lemma {:induction false} ReserveKeepsInvariant(funds: Funds, es: seq<Entry>, auth: Auth, request: Uuid, amount: int,
                                                 currency: string, id: Uuid, now: int)
    requires RefundInvariant(es)
    ensures RefundInvariant(ReserveStep(funds, es, auth, request, amount, currency, id, now).1)
  {
    var selected := SelectWallet(funds.wallets, auth.tenant, auth.project, currency);
    if selected.Some? {
      var row := ReserveRow(auth, selected.value, request, amount, currency, id);
      if !Conflicts(es, row) { AppendKeepsInvariant(es, row); }
    }
  }

  lemma {:induction false} ChargeKeepsInvariant(es: seq<Entry>, auth: Auth, request: Uuid, charge: Entry)
    requires RefundInvariant(es) && !Conflicts(es, charge) && charge.related.None?
    ensures RefundInvariant(ReverseReserves(es + [charge], auth, request))
  {
    AppendKeepsInvariant(es, charge);
    ReverseKeepsInvariant(es + [charge], auth, request);
  }

  lemma {:induction false} SettleKeepsInvariant(es: seq<Entry>, auth: Auth, request: Uuid, cost: int, currency: string,
                                                id: Uuid)
    requires RefundInvariant(es)
    ensures RefundInvariant(SettleStep(es, auth, request, cost, currency, id).1)
  {
    var charge := SettleRow(auth, request, cost, currency, id);
    if Conflicts(es, charge) {
      ReverseKeepsInvariant(es, auth, request);
    } else {
      ChargeKeepsInvariant(es, auth, request, charge);
    }
  }

  lemma {:induction false} RefundKeepsInvariant(es: seq<Entry>, auth: Auth, request: Uuid, settleId: Uuid, id: Uuid)
    requires RefundInvariant(es)
    ensures RefundInvariant(RefundStep(es, auth, request, settleId, id).1)
  {
    var source := FindSource(es, auth, request, settleId);
    if source.Some? {
      var remaining := -source.value.amount - RefundTotal(es, auth.tenant, settleId);
      var row := RefundRow(auth, source.value, remaining, id);
      if remaining > 0 && !Conflicts(es, row) { AppendKeepsInvariant(es, row); }
    }
  }

  lemma {:induction false} ApplyKeepsInvariant(funds: Funds, es: seq<Entry>, op: Op)
    requires RefundInvariant(es) && Respectful(es, op)
    ensures RefundInvariant(Apply(funds, es, op))
  {
    match op
    case ReserveOp(auth, request, amount, currency, id, now) =>
      ReserveKeepsInvariant(funds, es, auth, request, amount, currency, id, now);
    case ReleaseOp(auth, request) => ReverseKeepsInvariant(es, auth, request);
    case SettleOp(auth, request, cost, currency, id) => SettleKeepsInvariant(es, auth, request, cost, currency, id);
    case RefundOp(auth, request, settleId, id) => RefundKeepsInvariant(es, auth, request, settleId, id);
    case OtherOp(row) =>
      if !Conflicts(es, row) { AppendKeepsInvariant(es, row); }
  }

  /** Refund conservation: over every run, no charge is refunded below zero or beyond its debit. */
  lemma {:induction false} RefundsNeverExceedCharges(funds: Funds, es: seq<Entry>, ops: seq<Op>)
    requires RefundInvariant(es) && RespectfulRun(funds, es, ops)
    ensures RefundInvariant(Run(funds, es, ops))
  {
    if ops != [] {
      RefundsNeverExceedCharges(funds, es, ops[..|ops| - 1]);
      ApplyKeepsInvariant(funds, Run(funds, es, ops[..|ops| - 1]), ops[|ops| - 1]);
    }
  }

  /** What an applied refund appends. */
  lemma {:induction false} AppliedRefundRow(es: seq<Entry>, auth: Auth, request: Uuid, settleId: Uuid, id: Uuid)
    requires RefundStep(es, auth, request, settleId, id).0 == RefundApplied
    ensures FindSource(es, auth, request, settleId).Some?
    ensures var source := FindSource(es, auth, request, settleId).value;
            var row := RefundRow(auth, source, -source.amount - RefundTotal(es, auth.tenant, settleId), id);
            RefundStep(es, auth, request, settleId, id).1 == es + [row] && source.id == settleId
  {
    assert RefundReadback(es, auth.tenant, settleId) != RefundApplied;
  }

  /** An applied full refund leaves exactly nothing of the charge. */
  lemma {:induction false} FullRefundIsExact(es: seq<Entry>, auth: Auth, request: Uuid, settleId: Uuid, id: Uuid)
    requires RefundStep(es, auth, request, settleId, id).0 == RefundApplied
    ensures FindSource(es, auth, request, settleId).Some?
    ensures RefundTotal(RefundStep(es, auth, request, settleId, id).1, auth.tenant, settleId)
         == -FindSource(es, auth, request, settleId).value.amount
  {
    AppliedRefundRow(es, auth, request, settleId, id);
    var source := FindSource(es, auth, request, settleId).value;
    var row := RefundRow(auth, source, -source.amount - RefundTotal(es, auth.tenant, settleId), id);
    RefundsOfAppend(es, row, auth.tenant, settleId);
  }

  // ---------------------------------------------------------------- a charge refunded in full stays refunded in full

  /** Row `i` is a charge of which nothing is left. */
  predicate Exhausted(es: seq<Entry>, i: nat) {
    i < |es| && IsDebit(es[i]) && RefundTotal(es, es[i].tenant, es[i].id) == -es[i].amount
  }

  lemma {:induction false} AppendKeepsExhausted(es: seq<Entry>, row: Entry, i: nat)
    requires Exhausted(es, i) && (IsRefundOf(row, es[i].tenant, es[i].id) ==> row.amount == 0)
    ensures Exhausted(es + [row], i)
  {
    RefundsOfAppend(es, row, es[i].tenant, es[i].id);
  }

  lemma {:induction false} ReverseKeepsExhausted(es: seq<Entry>, auth: Auth, request: Uuid, i: nat)
    requires Exhausted(es, i)
    ensures Exhausted(ReverseReserves(es, auth, request), i)
  {
    ReverseKeepsRefunds(es, auth, request, es[i].tenant, es[i].id);
  }

  lemma {:induction false} ReserveKeepsExhausted(funds: Funds, es: seq<Entry>, auth: Auth, request: Uuid, amount: int,
                                                 currency: string, id: Uuid, now: int, i: nat)
    requires Exhausted(es, i)
    ensures Exhausted(ReserveStep(funds, es, auth, request, amount, currency, id, now).1, i)
  {
    var selected := SelectWallet(funds.wallets, auth.tenant, auth.project, currency);
    if selected.Some? { AppendKeepsExhausted(es, ReserveRow(auth, selected.value, request, amount, currency, id), i); }
  }

  lemma {:induction false} ChargeKeepsExhausted(es: seq<Entry>, auth: Auth, request: Uuid, charge: Entry, i: nat)
    requires Exhausted(es, i) && charge.kind != Refund
    ensures Exhausted(ReverseReserves(es + [charge], auth, request), i)
  {
    AppendKeepsExhausted(es, charge, i);
    ReverseKeepsExhausted(es + [charge], auth, request, i);
  }

  lemma {:induction false} SettleKeepsExhausted(es: seq<Entry>, auth: Auth, request: Uuid, cost: int, currency: string,
                                                id: Uuid, i: nat)
    requires Exhausted(es, i)
    ensures Exhausted(SettleStep(es, auth, request, cost, currency, id).1, i)
  {
    var charge := SettleRow(auth, request, cost, currency, id);
    if Conflicts(es, charge) {
      ReverseKeepsExhausted(es, auth, request, i);
    } else {
      ChargeKeepsExhausted(es, auth, request, charge, i);
    }
  }

  /** With unique ids, whoever asks for a refund of the charge finds that charge and nothing left of it. */
  lemma {:induction false} RefundKeepsExhausted(es: seq<Entry>, auth: Auth, request: Uuid, settleId: Uuid, id: Uuid,
                                                i: nat)
    requires UniqueRows(es) && Exhausted(es, i)
    ensures Exhausted(RefundStep(es, auth, request, settleId, id).1, i)
  {
    var source := FindSource(es, auth, request, settleId);
    if source.Some? {
      var remaining := -source.value.amount - RefundTotal(es, auth.tenant, settleId);
      if settleId == es[i].id {
        assert source.value == es[i];
        assert remaining == 0;
      } else {
        AppendKeepsExhausted(es, RefundRow(auth, source.value, remaining, id), i);
      }
    }
  }

  lemma {:induction false} ApplyKeepsExhausted(funds: Funds, es: seq<Entry>, op: Op, i: nat)
    requires RefundInvariant(es) && Respectful(es, op) && Exhausted(es, i)
    ensures Exhausted(Apply(funds, es, op), i)
  {
    match op
    case ReserveOp(auth, request, amount, currency, id, now) =>
      ReserveKeepsExhausted(funds, es, auth, request, amount, currency, id, now, i);
    case ReleaseOp(auth, request) => ReverseKeepsExhausted(es, auth, request, i);
    case SettleOp(auth, request, cost, currency, id) => SettleKeepsExhausted(es, auth, request, cost, currency, id, i);
    case RefundOp(auth, request, settleId, id) => RefundKeepsExhausted(es, auth, request, settleId, id, i);
    case OtherOp(row) => AppendKeepsExhausted(es, row, i);
  }

  lemma {:induction false} RunKeepsExhausted(funds: Funds, es: seq<Entry>, ops: seq<Op>, i: nat)
    requires RefundInvariant(es) && RespectfulRun(funds, es, ops) && Exhausted(es, i)
    ensures Exhausted(Run(funds, es, ops), i)
  {
    if ops != [] {
      RunKeepsExhausted(funds, es, ops[..|ops| - 1], i);
      RefundsNeverExceedCharges(funds, es, ops[..|ops| - 1]);
      ApplyKeepsExhausted(funds, Run(funds, es, ops[..|ops| - 1]), ops[|ops| - 1], i);
    }
  }

  /** What an applied refund leaves in the table: the exhausted charge at `i` and the refund row at `j`. */
  lemma {:induction false} AppliedRefundLeaves(es: seq<Entry>, auth: Auth, request: Uuid, settleId: Uuid, id: Uuid)
    returns (i: nat)
    requires RefundStep(es, auth, request, settleId, id).0 == RefundApplied
    ensures var after := RefundStep(es, auth, request, settleId, id).1;
            && i < |es| < |after| && Exhausted(after, i) && RefundSource(after[i], auth, request, settleId)
            && IsRefundOf(after[|es|], auth.tenant, settleId) && after[|es|].key == RefundKey(settleId)
  {
    AppliedRefundRow(es, auth, request, settleId, id);
    FullRefundIsExact(es, auth, request, settleId, id);
    var source := FindSource(es, auth, request, settleId).value;
    i :| 0 <= i < |es| && es[i] == source;
  }

  /** A refund of an exhausted charge whose refund row is still there. */
  lemma {:induction false} ExhaustedReplay(es: seq<Entry>, auth: Auth, request: Uuid, settleId: Uuid, id: Uuid, i: nat,
                                           j: nat)
    requires UniqueRows(es) && Exhausted(es, i) && RefundSource(es[i], auth, request, settleId)
    requires j < |es| && IsRefundOf(es[j], auth.tenant, settleId) && es[j].key == RefundKey(settleId)
    ensures RefundStep(es, auth, request, settleId, id) == (RefundIdempotent, es)
  {
    var source := FindSource(es, auth, request, settleId);
    assert es[i] in es;
    assert source == Some(es[i]);
    assert RefundReadback(es, auth.tenant, settleId) == RefundIdempotent;
  }

  /**
   A full refund is final: replayed at any later point of any run in which
   other writers respect the bound, it answers idempotent and changes nothing.
   */
  lemma {:induction false} RefundReplay(funds: Funds, es: seq<Entry>, auth: Auth, request: Uuid, settleId: Uuid,
                                        id: Uuid, ops: seq<Op>, replayId: Uuid)
    requires RefundInvariant(es) && RefundStep(es, auth, request, settleId, id).0 == RefundApplied
    requires RespectfulRun(funds, RefundStep(es, auth, request, settleId, id).1, ops)
    ensures var later := Run(funds, RefundStep(es, auth, request, settleId, id).1, ops);
            RefundStep(later, auth, request, settleId, replayId) == (RefundIdempotent, later)
  {
    var after := RefundStep(es, auth, request, settleId, id).1;
    var later := Run(funds, after, ops);
    var i := AppliedRefundLeaves(es, auth, request, settleId, id);
    RefundKeepsInvariant(es, auth, request, settleId, id);
    RunKeepsExhausted(funds, after, ops, i);
    RefundsNeverExceedCharges(funds, after, ops);
    RunExtends(funds, after, ops);
    assert Evolves(after[i], later[i]) && Evolves(after[|es|], later[|es|]);
    ExhaustedReplay(later, auth, request, settleId, replayId, i, |es|);
  }

  // ---------------------------------------------------------------- references

  lemma {:induction false} NothingPointsAt(es: seq<Entry>, id: Uuid)
    requires RelatedExist(es) && forall i :: 0 <= i < |es| ==> es[i].id != id
    ensures forall i :: 0 <= i < |es| ==> es[i].related != Some(id)
  {
    forall i | 0 <= i < |es| ensures es[i].related != Some(id) {
      if es[i].related.Some? {
        var j :| 0 <= j < |es| && es[j].id == es[i].related.value;
      }
    }
  }
}
