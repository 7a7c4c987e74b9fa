/**
 The life of one request among many: its reserve, its settle and its full
 refund, with any transactions of other requests in between.
 */
module Lifecycle {
  import opened Wrappers
  import opened Uuids
  import opened LedgerKeys
  import opened Callers
  import opened Ledger
  import opened LedgerRuns
  import opened Overdraft
  import opened Refunds

  // ---------------------------------------------------------------- the rows of one request

  /** The rows of one request, in table order. */
  function RowsOf(es: seq<Entry>, request: Uuid): seq<Entry> {
    if es == [] then []
    else
      var last := es[|es| - 1];
      RowsOf(es[..|es| - 1], request) + if last.request == Some(request) then [last] else []
  }

  predicate About(op: Op, request: Uuid) {
    if op.OtherOp? then op.row.request == Some(request) else op.request == request
  }

  lemma {:induction false} RowsOfAppend(es: seq<Entry>, row: Entry, request: Uuid)
    ensures RowsOf(es + [row], request) == RowsOf(es, request) + if row.request == Some(request) then [row] else []
  {
    assert (es + [row])[..|es|] == es;
  }

  lemma {:induction false} ReverseOfAppend(es: seq<Entry>, row: Entry, auth: Auth, r: Uuid)
    ensures ReverseReserves(es + [row], auth, r) == ReverseReserves(es, auth, r) + [ReleaseRow(row, auth, r)]
  {
    assert (es + [row])[..|es|] == es;
  }

  lemma {:induction false} RowsOfReverse(es: seq<Entry>, auth: Auth, r: Uuid, request: Uuid)
    ensures RowsOf(ReverseReserves(es, auth, r), request)
         == if r == request then ReverseReserves(RowsOf(es, request), auth, r) else RowsOf(es, request)
  {
    if es != [] {
      var front, last := es[..|es| - 1], es[|es| - 1];
      RowsOfReverse(front, auth, r, request);
      RowsOfAppend(ReverseReserves(front, auth, r), ReleaseRow(last, auth, r), request);
      if r == request {
        ReverseOfAppend(RowsOf(front, request), last, auth, r);
      }
    }
  }

  lemma {:induction false} ReserveKeepsOtherRows(funds: Funds, es: seq<Entry>, auth: Auth, r: Uuid, amount: int,
                                                 currency: string, id: Uuid, now: int, request: Uuid)
    requires r != request
    ensures RowsOf(ReserveStep(funds, es, auth, r, amount, currency, id, now).1, request) == RowsOf(es, request)
  {
    var selected := SelectWallet(funds.wallets, auth.tenant, auth.project, currency);
    if selected.Some? { RowsOfAppend(es, ReserveRow(auth, selected.value, r, amount, currency, id), request); }
  }

  lemma {:induction false} SettleKeepsOtherRows(es: seq<Entry>, auth: Auth, r: Uuid, cost: int, currency: string,
                                                id: Uuid, request: Uuid)
    requires r != request
    ensures RowsOf(SettleStep(es, auth, r, cost, currency, id).1, request) == RowsOf(es, request)
  {
    var row := SettleRow(auth, r, cost, currency, id);
    RowsOfReverse(es, auth, r, request);
    RowsOfReverse(es + [row], auth, r, request);
    RowsOfAppend(es, row, request);
  }

  lemma {:induction false} RefundKeepsOtherRows(es: seq<Entry>, auth: Auth, r: Uuid, settleId: Uuid, id: Uuid,
                                                request: Uuid)
    requires r != request
    ensures RowsOf(RefundStep(es, auth, r, settleId, id).1, request) == RowsOf(es, request)
  {
    var source := FindSource(es, auth, r, settleId);
    if source.Some? {
      var remaining := -source.value.amount - RefundTotal(es, auth.tenant, settleId);
      RowsOfAppend(es, RefundRow(auth, source.value, remaining, id), request);
    }
  }

  /** Transactions of other requests leave a request's rows alone. */
  lemma {:induction false} ApplyKeepsOtherRows(funds: Funds, es: seq<Entry>, op: Op, request: Uuid)
    requires !About(op, request)
    ensures RowsOf(Apply(funds, es, op), request) == RowsOf(es, request)
  {
    match op
    case ReserveOp(auth, r, amount, currency, id, now) =>
      ReserveKeepsOtherRows(funds, es, auth, r, amount, currency, id, now, request);
    case ReleaseOp(auth, r) => RowsOfReverse(es, auth, r, request);
    case SettleOp(auth, r, cost, currency, id) => SettleKeepsOtherRows(es, auth, r, cost, currency, id, request);
    case RefundOp(auth, r, settleId, id) => RefundKeepsOtherRows(es, auth, r, settleId, id, request);
    case OtherOp(row) => RowsOfAppend(es, row, request);
  }

  lemma {:induction false} RunKeepsOtherRows(funds: Funds, es: seq<Entry>, ops: seq<Op>, request: Uuid)
    requires forall i :: 0 <= i < |ops| ==> !About(ops[i], request)
    ensures RowsOf(Run(funds, es, ops), request) == RowsOf(es, request)
  {
    if ops != [] {
      RunKeepsOtherRows(funds, es, ops[..|ops| - 1], request);
      ApplyKeepsOtherRows(funds, Run(funds, es, ops[..|ops| - 1]), ops[|ops| - 1], request);
    }
  }

  lemma {:induction false} RowsAfterReserve(funds: Funds, es: seq<Entry>, auth: Auth, request: Uuid, amount: int,
                                            currency: string, id: Uuid, now: int)
    requires RowsOf(es, request) == []
    requires ReserveStep(funds, es, auth, request, amount, currency, id, now).0 == Applied
    ensures SelectWallet(funds.wallets, auth.tenant, auth.project, currency).Some?
    ensures var w := SelectWallet(funds.wallets, auth.tenant, auth.project, currency).value;
            RowsOf(ReserveStep(funds, es, auth, request, amount, currency, id, now).1, request)
            == [ReserveRow(auth, w, request, amount, currency, id)]
  {
    var w := SelectWallet(funds.wallets, auth.tenant, auth.project, currency).value;
    RowsOfAppend(es, ReserveRow(auth, w, request, amount, currency, id), request);
  }

  lemma {:induction false} RowsAfterSettle(es: seq<Entry>, hold: Entry, auth: Auth, request: Uuid, cost: int,
                                           currency: string, id: Uuid)
    requires RowsOf(es, request) == [hold] && Releasable(hold, auth, request)
    requires SettleStep(es, auth, request, cost, currency, id).0 == Settled
    ensures RowsOf(SettleStep(es, auth, request, cost, currency, id).1, request)
         == [hold.(status := Reversed), SettleRow(auth, request, cost, currency, id)]
  {
    var charge := SettleRow(auth, request, cost, currency, id);
    RowsOfAppend(es, charge, request);
    RowsOfReverse(es + [charge], auth, request, request);
    assert [hold] + [charge] == [hold, charge];
  }

  lemma {:induction false} RowsAfterRefund(es: seq<Entry>, hold: Entry, charge: Entry, auth: Auth, request: Uuid,
                                           id: Uuid)
    requires RowsOf(es, request) == [hold, charge] && hold.kind == Reserve && charge.kind == Settle
    requires RefundTotal(es, auth.tenant, charge.id) == 0
    requires RefundStep(es, auth, request, charge.id, id).0 == RefundApplied
    ensures RowsOf(RefundStep(es, auth, request, charge.id, id).1, request)
         == [hold, charge] + [RefundRow(auth, charge, -charge.amount, id)]
  {
    AppliedRefundRow(es, auth, request, charge.id, id);
    var source := FindSource(es, auth, request, charge.id).value;
    RowListed(es, source, request);
    assert source == charge;
    RowsOfAppend(es, RefundRow(auth, charge, -charge.amount, id), request);
  }

  lemma {:induction false} RowListed(es: seq<Entry>, e: Entry, request: Uuid)
    requires e in es && e.request == Some(request)
    ensures e in RowsOf(es, request)
  {
    if e != es[|es| - 1] {
      RowListed(es[..|es| - 1], e, request);
    }
  }

  // ---------------------------------------------------------------- the three transactions of a new request

  predicate Claims(e: Entry, tenant: Uuid, request: Uuid, ids: seq<Uuid>)
    requires |ids| == 3
  {
    || e.id == ids[0] || e.id == ids[1] || e.id == ids[2]
    || e.request == Some(request)
    || (e.tenant == tenant
        && (e.key == ReserveKey(request) || e.key == SettleKey(request) || e.key == RefundKey(ids[1])))
  }

  /** The request is new: no row uses it, its keys, or the ids of its three rows. */
  predicate Unclaimed(es: seq<Entry>, tenant: Uuid, request: Uuid, ids: seq<Uuid>)
    requires |ids| == 3
  {
    forall i :: 0 <= i < |es| ==> !Claims(es[i], tenant, request, ids)
  }

  lemma {:induction false} UnclaimedHasNoRows(es: seq<Entry>, tenant: Uuid, request: Uuid, ids: seq<Uuid>)
    requires |ids| == 3 && Unclaimed(es, tenant, request, ids)
    ensures RowsOf(es, request) == []
  {
    if es != [] {
      assert !Claims(es[|es| - 1], tenant, request, ids);
      UnclaimedHasNoRows(es[..|es| - 1], tenant, request, ids);
    }
  }

  lemma {:induction false} NewReserveApplies(funds: Funds, es: seq<Entry>, auth: Auth, request: Uuid, amount: int,
                                             currency: string, ids: seq<Uuid>, now: int, w: Wallet)
    requires |ids| == 3 && Unclaimed(es, auth.tenant, request, ids) && Storable(amount)
    requires SelectWallet(funds.wallets, auth.tenant, auth.project, currency) == Some(w)
    requires Available(funds, es, w, auth.project, now) >= amount
    ensures ReserveStep(funds, es, auth, request, amount, currency, ids[0], now)
         == (Applied, es + [ReserveRow(auth, w, request, amount, currency, ids[0])])
  {
    var hold := ReserveRow(auth, w, request, amount, currency, ids[0]);
    forall i | 0 <= i < |es| ensures !ConflictsWith(es[i], hold) {
      assert !Claims(es[i], auth.tenant, request, ids);
    }
  }

  /** Rows of other requests claim nothing of this one and do not point at its charge. */
  predicate Apart(es: seq<Entry>, tenant: Uuid, request: Uuid, ids: seq<Uuid>)
    requires |ids| == 3
  {
    forall i :: 0 <= i < |es| && es[i].request != Some(request) ==>
      !Claims(es[i], tenant, request, ids) && es[i].related != Some(ids[1])
  }

  /** A transaction of another request with a fresh id, or a row that leaves this request and its charge alone. */
  predicate Foreign(op: Op, tenant: Uuid, request: Uuid, ids: seq<Uuid>)
    requires |ids| == 3
  {
    match op
    case ReserveOp(_, r, _, _, id, _) => r != request && id !in ids
    case ReleaseOp(_, r) => r != request
    case SettleOp(_, r, _, _, id) => r != request && id !in ids
    case RefundOp(_, r, _, id) => r != request && id !in ids
    case OtherOp(row) => !Claims(row, tenant, request, ids) && row.related != Some(ids[1])
  }

  lemma {:induction false} AppendKeepsApart(es: seq<Entry>, row: Entry, tenant: Uuid, request: Uuid, ids: seq<Uuid>)
    requires |ids| == 3 && Apart(es, tenant, request, ids)
    requires row.request != Some(request) ==> !Claims(row, tenant, request, ids) && row.related != Some(ids[1])
    ensures Apart(es + [row], tenant, request, ids)
  {
  }

  lemma {:induction false} ReverseKeepsApart(es: seq<Entry>, auth: Auth, r: Uuid, tenant: Uuid, request: Uuid,
                                             ids: seq<Uuid>)
    requires |ids| == 3 && Apart(es, tenant, request, ids)
    ensures Apart(ReverseReserves(es, auth, r), tenant, request, ids)
  {
    var after := ReverseReserves(es, auth, r);
    forall i | 0 <= i < |after| && after[i].request != Some(request)
      ensures !Claims(after[i], tenant, request, ids) && after[i].related != Some(ids[1])
    {
      assert !Claims(es[i], tenant, request, ids);
    }
  }

  lemma {:induction false} ReserveKeepsApart(funds: Funds, es: seq<Entry>, auth: Auth, r: Uuid, amount: int,
                                             currency: string, id: Uuid, now: int, tenant: Uuid, request: Uuid,
                                             ids: seq<Uuid>)
    requires |ids| == 3 && Apart(es, tenant, request, ids) && r != request && id !in ids
    ensures Apart(ReserveStep(funds, es, auth, r, amount, currency, id, now).1, tenant, request, ids)
  {
    var selected := SelectWallet(funds.wallets, auth.tenant, auth.project, currency);
    if selected.Some? {
      KeysInjective(r, request);
      KeysDisjoint(request, r, r, ids[1]);
      AppendKeepsApart(es, ReserveRow(auth, selected.value, r, amount, currency, id), tenant, request, ids);
    }
  }

  lemma {:induction false} SettleKeepsApart(es: seq<Entry>, auth: Auth, r: Uuid, cost: int, currency: string, id: Uuid,
                                            tenant: Uuid, request: Uuid, ids: seq<Uuid>)
    requires |ids| == 3 && Apart(es, tenant, request, ids) && (r != request ==> id !in ids)
    ensures Apart(SettleStep(es, auth, r, cost, currency, id).1, tenant, request, ids)
  {
    var charge := SettleRow(auth, r, cost, currency, id);
    if Conflicts(es, charge) {
      ReverseKeepsApart(es, auth, r, tenant, request, ids);
    } else {
      KeysInjective(r, request);
      KeysDisjoint(r, request, r, ids[1]);
      AppendKeepsApart(es, charge, tenant, request, ids);
      ReverseKeepsApart(es + [charge], auth, r, tenant, request, ids);
    }
  }

  /** Another request cannot refund this one's charge: no row of its own has that id. */
  lemma {:induction false} RefundKeepsApart(es: seq<Entry>, auth: Auth, r: Uuid, settleId: Uuid, id: Uuid,
                                            tenant: Uuid, request: Uuid, ids: seq<Uuid>)
    requires |ids| == 3 && Apart(es, tenant, request, ids) && r != request && id !in ids
    ensures Apart(RefundStep(es, auth, r, settleId, id).1, tenant, request, ids)
  {
    var source := FindSource(es, auth, r, settleId);
    if source.Some? {
      assert !Claims(source.value, tenant, request, ids);
      KeysInjective(settleId, ids[1]);
      KeysDisjoint(request, request, r, settleId);
      var row := RefundRow(auth, source.value, -source.value.amount - RefundTotal(es, auth.tenant, settleId), id);
      AppendKeepsApart(es, row, tenant, request, ids);
    }
  }

  lemma {:induction false} ApplyKeepsApart(funds: Funds, es: seq<Entry>, op: Op, tenant: Uuid, request: Uuid,
                                           ids: seq<Uuid>)
    requires |ids| == 3 && Apart(es, tenant, request, ids) && Foreign(op, tenant, request, ids)
    ensures Apart(Apply(funds, es, op), tenant, request, ids)
  {
    match op
    case ReserveOp(auth, r, amount, currency, id, now) =>
      ReserveKeepsApart(funds, es, auth, r, amount, currency, id, now, tenant, request, ids);
    case ReleaseOp(auth, r) => ReverseKeepsApart(es, auth, r, tenant, request, ids);
    case SettleOp(auth, r, cost, currency, id) =>
      SettleKeepsApart(es, auth, r, cost, currency, id, tenant, request, ids);
    case RefundOp(auth, r, settleId, id) => RefundKeepsApart(es, auth, r, settleId, id, tenant, request, ids);
    case OtherOp(row) => AppendKeepsApart(es, row, tenant, request, ids);
  }

  lemma {:induction false} RunKeepsApart(funds: Funds, es: seq<Entry>, ops: seq<Op>, tenant: Uuid, request: Uuid,
                                         ids: seq<Uuid>)
    requires |ids| == 3 && Apart(es, tenant, request, ids)
    requires forall i :: 0 <= i < |ops| ==> Foreign(ops[i], tenant, request, ids)
    ensures Apart(Run(funds, es, ops), tenant, request, ids)
    ensures RowsOf(Run(funds, es, ops), request) == RowsOf(es, request)
  {
    forall i | 0 <= i < |ops| ensures !About(ops[i], request) {
      assert Foreign(ops[i], tenant, request, ids);
    }
    RunKeepsOtherRows(funds, es, ops, request);
    if ops != [] {
      RunKeepsApart(funds, es, ops[..|ops| - 1], tenant, request, ids);
      ApplyKeepsApart(funds, Run(funds, es, ops[..|ops| - 1]), ops[|ops| - 1], tenant, request, ids);
    }
  }

  // ---------------------------------------------------------------- the three stages

  predicate Distinct(ids: seq<Uuid>) { |ids| == 3 && ids[0] != ids[1] && ids[0] != ids[2] && ids[1] != ids[2] }

  /** A pending hold of the request, as its reserve writes it. */
  predicate IsHold(e: Entry, auth: Auth, request: Uuid, ids: seq<Uuid>)
    requires |ids| == 3
  {
    && Releasable(e, auth, request)
    && e.id == ids[0] && e.key == ReserveKey(request) && e.related.None?
  }

  lemma {:induction false} ReserveStage(funds: Funds, s0: seq<Entry>, auth: Auth, request: Uuid, amount: int,
                                        currency: string, ids: seq<Uuid>, now: int, w: Wallet)
    requires Distinct(ids) && Unclaimed(s0, auth.tenant, request, ids) && RelatedExist(s0) && Storable(amount)
    requires SelectWallet(funds.wallets, auth.tenant, auth.project, currency) == Some(w)
    requires Available(funds, s0, w, auth.project, now) >= amount
    ensures var hold := ReserveRow(auth, w, request, amount, currency, ids[0]);
            var reserved := ReserveStep(funds, s0, auth, request, amount, currency, ids[0], now);
            && reserved.0 == Applied && RowsOf(reserved.1, request) == [hold]
            && IsHold(hold, auth, request, ids) && Apart(reserved.1, auth.tenant, request, ids)
  {
    var hold := ReserveRow(auth, w, request, amount, currency, ids[0]);
    NewReserveApplies(funds, s0, auth, request, amount, currency, ids, now, w);
    UnclaimedHasNoRows(s0, auth.tenant, request, ids);
    RowsOfAppend(s0, hold, request);
    UnclaimedIsApart(s0, auth.tenant, request, ids);
    AppendKeepsApart(s0, hold, auth.tenant, request, ids);
  }

  lemma {:induction false} UnclaimedIsApart(es: seq<Entry>, tenant: Uuid, request: Uuid, ids: seq<Uuid>)
    requires |ids| == 3 && Unclaimed(es, tenant, request, ids) && RelatedExist(es)
    ensures Apart(es, tenant, request, ids)
  {
    forall i | 0 <= i < |es| ensures es[i].id != ids[1] { assert !Claims(es[i], tenant, request, ids); }
    NothingPointsAt(es, ids[1]);
  }

  lemma {:induction false} SettleApplies(es: seq<Entry>, hold: Entry, auth: Auth, request: Uuid, cost: int,
                                         currency: string, ids: seq<Uuid>)
    requires Distinct(ids) && Storable(cost) && IsHold(hold, auth, request, ids)
    requires RowsOf(es, request) == [hold] && Apart(es, auth.tenant, request, ids)
    ensures SettleStep(es, auth, request, cost, currency, ids[1]).0 == Settled
  {
    var charge := SettleRow(auth, request, cost, currency, ids[1]);
    KeysDisjoint(request, request, request, ids[1]);
    forall i | 0 <= i < |es| ensures !ConflictsWith(es[i], charge) {
      if es[i].request == Some(request) {
        RowListed(es, es[i], request);
        assert es[i] == hold;
      } else {
        assert !Claims(es[i], auth.tenant, request, ids);
      }
    }
  }

  lemma {:induction false} SettleStage(es: seq<Entry>, hold: Entry, auth: Auth, request: Uuid, cost: int,
                                       currency: string, ids: seq<Uuid>)
    requires Distinct(ids) && Storable(cost) && IsHold(hold, auth, request, ids)
    requires RowsOf(es, request) == [hold] && Apart(es, auth.tenant, request, ids)
    ensures var settled := SettleStep(es, auth, request, cost, currency, ids[1]);
            && settled.0 == Settled && Apart(settled.1, auth.tenant, request, ids)
            && RowsOf(settled.1, request)
               == [hold.(status := Reversed), SettleRow(auth, request, cost, currency, ids[1])]
  {
    SettleApplies(es, hold, auth, request, cost, currency, ids);
    RowsAfterSettle(es, hold, auth, request, cost, currency, ids[1]);
    SettleKeepsApart(es, auth, request, cost, currency, ids[1], auth.tenant, request, ids);
  }

  /** Nothing has refunded the charge: its own rows are not refunds, and the others do not point at it. */
  lemma {:induction false} ApartIsUnrefunded(es: seq<Entry>, hold: Entry, charge: Entry, tenant: Uuid, request: Uuid,
                                             ids: seq<Uuid>)
    requires |ids| == 3 && Apart(es, tenant, request, ids)
    requires RowsOf(es, request) == [hold, charge] && hold.related.None? && charge.related.None?
    ensures RefundTotal(es, tenant, ids[1]) == 0
  {
    forall i | 0 <= i < |es| ensures es[i].related != Some(ids[1]) {
      if es[i].request == Some(request) {
        RowListed(es, es[i], request);
      }
    }
    NoRefundsYet(es, tenant, ids[1]);
  }

  lemma {:induction false} RefundApplies(es: seq<Entry>, hold: Entry, auth: Auth, request: Uuid, cost: int,
                                         currency: string, ids: seq<Uuid>)
    requires Distinct(ids) && Storable(cost) && IsHold(hold, auth, request, ids)
    requires Apart(es, auth.tenant, request, ids)
    requires RowsOf(es, request) == [hold.(status := Reversed), SettleRow(auth, request, cost, currency, ids[1])]
    requires RefundTotal(es, auth.tenant, ids[1]) == 0
    ensures RefundStep(es, auth, request, ids[1], ids[2]).0 == RefundApplied
  {
    var spent, charge := hold.(status := Reversed), SettleRow(auth, request, cost, currency, ids[1]);
    var row := RefundRow(auth, charge, -charge.amount, ids[2]);
    KeysDisjoint(request, request, request, ids[1]);
    RowsListed(es, charge, request);
    var source := FindSource(es, auth, request, ids[1]).value;
    RowListed(es, source, request);
    assert source == charge;
    forall i | 0 <= i < |es| ensures !ConflictsWith(es[i], row) {
      if es[i].request == Some(request) {
        RowListed(es, es[i], request);
        assert es[i] == spent || es[i] == charge;
      } else {
        assert !Claims(es[i], auth.tenant, request, ids);
      }
    }
  }

  lemma {:induction false} RowsListed(es: seq<Entry>, e: Entry, request: Uuid)
    requires e in RowsOf(es, request)
    ensures e in es && e.request == Some(request)
  {
    if e != es[|es| - 1] || es[|es| - 1].request != Some(request) {
      RowsListed(es[..|es| - 1], e, request);
    }
  }

  lemma {:induction false} RefundStage(es: seq<Entry>, hold: Entry, auth: Auth, request: Uuid, cost: int,
                                       currency: string, ids: seq<Uuid>)
    requires Distinct(ids) && Storable(cost) && IsHold(hold, auth, request, ids)
    requires Apart(es, auth.tenant, request, ids)
    requires RowsOf(es, request) == [hold.(status := Reversed), SettleRow(auth, request, cost, currency, ids[1])]
    ensures var charge := SettleRow(auth, request, cost, currency, ids[1]);
            var refunded := RefundStep(es, auth, request, ids[1], ids[2]);
            && refunded.0 == RefundApplied && RefundTotal(es, auth.tenant, ids[1]) == 0
            && RowsOf(refunded.1, request)
               == [hold.(status := Reversed), charge] + [RefundRow(auth, charge, -charge.amount, ids[2])]
  {
    var charge := SettleRow(auth, request, cost, currency, ids[1]);
    ApartIsUnrefunded(es, hold.(status := Reversed), charge, auth.tenant, request, ids);
    RefundApplies(es, hold, auth, request, cost, currency, ids);
    RowsAfterRefund(es, hold.(status := Reversed), charge, auth, request, ids[2]);
  }

  lemma {:induction false} SettleAfterOthers(funds: Funds, s1: seq<Entry>, others: seq<Op>, hold: Entry, auth: Auth,
                                             request: Uuid, cost: int, currency: string, ids: seq<Uuid>)
    requires Distinct(ids) && Storable(cost) && IsHold(hold, auth, request, ids)
    requires RowsOf(s1, request) == [hold] && Apart(s1, auth.tenant, request, ids)
    requires forall i :: 0 <= i < |others| ==> Foreign(others[i], auth.tenant, request, ids)
    ensures var settled := SettleStep(Run(funds, s1, others), auth, request, cost, currency, ids[1]);
            && settled.0 == Settled && Apart(settled.1, auth.tenant, request, ids)
            && RowsOf(settled.1, request)
               == [hold.(status := Reversed), SettleRow(auth, request, cost, currency, ids[1])]
  {
    RunKeepsApart(funds, s1, others, auth.tenant, request, ids);
    SettleStage(Run(funds, s1, others), hold, auth, request, cost, currency, ids);
  }

  lemma {:induction false} RefundAfterOthers(funds: Funds, s2: seq<Entry>, more: seq<Op>, hold: Entry, auth: Auth,
                                             request: Uuid, cost: int, currency: string, ids: seq<Uuid>)
    requires Distinct(ids) && Storable(cost) && IsHold(hold, auth, request, ids)
    requires Apart(s2, auth.tenant, request, ids)
    requires RowsOf(s2, request) == [hold.(status := Reversed), SettleRow(auth, request, cost, currency, ids[1])]
    requires forall i :: 0 <= i < |more| ==> Foreign(more[i], auth.tenant, request, ids)
    ensures var charge := SettleRow(auth, request, cost, currency, ids[1]);
            var refunded := RefundStep(Run(funds, s2, more), auth, request, ids[1], ids[2]);
            && refunded.0 == RefundApplied
            && RowsOf(refunded.1, request)
               == [hold.(status := Reversed), charge] + [RefundRow(auth, charge, -charge.amount, ids[2])]
  {
    RunKeepsApart(funds, s2, more, auth.tenant, request, ids);
    RefundStage(Run(funds, s2, more), hold, auth, request, cost, currency, ids);
  }

  // ---------------------------------------------------------------- the whole life

  /** What a single live row is worth in a window. */
  function Worth(e: Entry, win: Window): int { if win.Covers(e) then e.amount else 0 }

  lemma {:induction false} BalanceOfRows(a: Entry, b: Entry, c: Entry, win: Window)
    ensures LedgerBalance([a], win) == Worth(a, win)
    ensures LedgerBalance([a, b], win) == Worth(a, win) + Worth(b, win)
    ensures LedgerBalance([a, b] + [c], win) == Worth(a, win) + Worth(b, win) + Worth(c, win)
  {
    BalanceOfAppend([], a, win);
    BalanceOfAppend([a], b, win);
    assert [] + [a] == [a] && [a] + [b] == [a, b];
    BalanceOfAppend([a, b], c, win);
  }

  lemma {:induction false} LifeOfRows(hold: Entry, charge: Entry, refund: Entry, win: Window)
    requires win.Covers(charge) == win.Covers(refund) && charge.amount + refund.amount == 0
    ensures var spent := hold.(status := Reversed);
            && LedgerBalance([hold], win) == Worth(hold, win)
            && LedgerBalance([spent, charge], win) == Worth(charge, win)
            && LedgerBalance([spent, charge] + [refund], win) == 0
  {
    BalanceOfRows(hold, charge, refund, win);
    BalanceOfRows(hold.(status := Reversed), charge, refund, win);
  }

  /**
   The whole life of a new request that its wallet can pay for, whatever other
   requests do between its three transactions: the reserve is applied, the
   settle is inserted and the full refund is applied; and what the request's
   own rows contribute to any balance window is first the hold, then the cost,
   and in the end nothing.
   */
  lemma {:induction false} RefundUndoesCharge(funds: Funds, s0: seq<Entry>, others: seq<Op>, more: seq<Op>, auth: Auth,
                                              request: Uuid, amount: int, cost: int, currency: string, ids: seq<Uuid>,
                                              now: int, w: Wallet, win: Window)
    requires Distinct(ids) && Unclaimed(s0, auth.tenant, request, ids) && RelatedExist(s0)
    requires Storable(amount) && Storable(cost)
    requires SelectWallet(funds.wallets, auth.tenant, auth.project, currency) == Some(w)
    requires Available(funds, s0, w, auth.project, now) >= amount
    requires forall i :: 0 <= i < |others| ==> Foreign(others[i], auth.tenant, request, ids)
    requires forall i :: 0 <= i < |more| ==> Foreign(more[i], auth.tenant, request, ids)
    ensures var reserved := ReserveStep(funds, s0, auth, request, amount, currency, ids[0], now);
            var settled := SettleStep(Run(funds, reserved.1, others), auth, request, cost, currency, ids[1]);
            var refunded := RefundStep(Run(funds, settled.1, more), auth, request, ids[1], ids[2]);
            var same := win.tenant == auth.tenant && win.currency == currency;
            && reserved.0 == Applied
            && LedgerBalance(RowsOf(reserved.1, request), win) == (if same && win.wallet == w.id then -amount else 0)
            && settled.0 == Settled
            && LedgerBalance(RowsOf(settled.1, request), win)
               == (if same && win.project == auth.project then 0 - Abs(cost) else 0)
            && refunded.0 == RefundApplied && LedgerBalance(RowsOf(refunded.1, request), win) == 0
  {
    var hold := ReserveRow(auth, w, request, amount, currency, ids[0]);
    var charge := SettleRow(auth, request, cost, currency, ids[1]);
    ReserveStage(funds, s0, auth, request, amount, currency, ids, now, w);
    var s1 := ReserveStep(funds, s0, auth, request, amount, currency, ids[0], now).1;
    SettleAfterOthers(funds, s1, others, hold, auth, request, cost, currency, ids);
    var s2 := SettleStep(Run(funds, s1, others), auth, request, cost, currency, ids[1]).1;
    RefundAfterOthers(funds, s2, more, hold, auth, request, cost, currency, ids);
    LifeOfRows(hold, charge, RefundRow(auth, charge, -charge.amount, ids[2]), win);
  }

  // ---------------------------------------------------------------- seen from the wallet

  lemma {:induction false} NothingHeld(es: seq<Entry>, win: Window, auth: Auth, request: Uuid)
    requires RowsOf(es, request) == []
    ensures Held(es, win, auth, request) == 0
  {
    if es != [] {
      NothingHeld(es[..|es| - 1], win, auth, request);
    }
  }

  lemma {:induction false} BalanceAfterReserve(funds: Funds, s0: seq<Entry>, s1: seq<Entry>, auth: Auth, request: Uuid,
                                               amount: int, currency: string, id: Uuid, now: int, w: Wallet)
    requires RowsOf(s0, request) == []
    requires SelectWallet(funds.wallets, auth.tenant, auth.project, currency) == Some(w)
    requires ReserveStep(funds, s0, auth, request, amount, currency, id, now) == (Applied, s1)
    ensures LedgerBalance(s1, WindowOf(w, auth.project)) == LedgerBalance(s0, WindowOf(w, auth.project)) - amount
    ensures Held(s1, WindowOf(w, auth.project), auth, request) == -amount
  {
    var win := WindowOf(w, auth.project);
    var hold := ReserveRow(auth, w, request, amount, currency, id);
    assert s1 == s0 + [hold];
    BalanceOfAppend(s0, hold, win);
    NothingHeld(s0, win, auth, request);
    assert s1[..|s0|] == s0;
  }

  lemma {:induction false} BalanceAfterRefund(es: seq<Entry>, hold: Entry, charge: Entry, auth: Auth, request: Uuid,
                                              id: Uuid, win: Window)
    requires RowsOf(es, request) == [hold, charge] && hold.kind == Reserve && charge.kind == Settle
    requires charge.project == Some(auth.project) && charge.status == Confirmed
    requires RefundTotal(es, auth.tenant, charge.id) == 0
    requires RefundStep(es, auth, request, charge.id, id).0 == RefundApplied
    ensures LedgerBalance(RefundStep(es, auth, request, charge.id, id).1, win)
         == LedgerBalance(es, win) - if win.Covers(charge) then charge.amount else 0
  {
    AppliedRefundRow(es, auth, request, charge.id, id);
    var source := FindSource(es, auth, request, charge.id).value;
    RowListed(es, source, request);
    assert source == charge;
    BalanceOfAppend(es, RefundRow(auth, charge, -charge.amount, id), win);
  }

  lemma {:induction false} BalanceSteps(funds: Funds, s0: seq<Entry>, auth: Auth, request: Uuid, amount: int,
                                        cost: int, currency: string, ids: seq<Uuid>, now: int, w: Wallet,
                                        s1: seq<Entry>, s2: seq<Entry>, s3: seq<Entry>)
    requires |ids| == 3 && RowsOf(s0, request) == []
    requires SelectWallet(funds.wallets, auth.tenant, auth.project, currency) == Some(w)
    requires ReserveStep(funds, s0, auth, request, amount, currency, ids[0], now) == (Applied, s1)
    requires SettleStep(s1, auth, request, cost, currency, ids[1]) == (Settled, s2)
    requires RefundTotal(s2, auth.tenant, ids[1]) == 0
    requires RefundStep(s2, auth, request, ids[1], ids[2]) == (RefundApplied, s3)
    ensures var win := WindowOf(w, auth.project);
            && LedgerBalance(s1, win) == LedgerBalance(s0, win) - amount
            && LedgerBalance(s2, win) == LedgerBalance(s0, win) - Abs(cost)
            && LedgerBalance(s3, win) == LedgerBalance(s0, win)
  {
    var win := WindowOf(w, auth.project);
    var hold := ReserveRow(auth, w, request, amount, currency, ids[0]);
    var charge := SettleRow(auth, request, cost, currency, ids[1]);
    RowsAfterReserve(funds, s0, auth, request, amount, currency, ids[0], now);
    BalanceAfterReserve(funds, s0, s1, auth, request, amount, currency, ids[0], now, w);
    SettleSwapsHoldForCost(s1, win, auth, request, cost, currency, ids[1]);
    RowsAfterSettle(s1, hold, auth, request, cost, currency, ids[1]);
    BalanceAfterRefund(s2, hold.(status := Reversed), charge, auth, request, ids[2], win);
  }

  /**
   With nothing in between, the same life seen from the wallet: the reserve
   takes its amount from the available balance, the settle replaces that by the
   cost, and the full refund restores the balance exactly.
   */
  lemma {:induction false} BalanceRestored(funds: Funds, s0: seq<Entry>, auth: Auth, request: Uuid, amount: int,
                                           cost: int, currency: string, ids: seq<Uuid>, now: int, w: Wallet, t: int)
    requires Distinct(ids) && Unclaimed(s0, auth.tenant, request, ids) && RelatedExist(s0)
    requires Storable(amount) && Storable(cost)
    requires SelectWallet(funds.wallets, auth.tenant, auth.project, currency) == Some(w)
    requires Available(funds, s0, w, auth.project, now) >= amount
    ensures var reserved := ReserveStep(funds, s0, auth, request, amount, currency, ids[0], now);
            var settled := SettleStep(reserved.1, auth, request, cost, currency, ids[1]);
            var refunded := RefundStep(settled.1, auth, request, ids[1], ids[2]);
            var before := Available(funds, s0, w, auth.project, t);
            && reserved.0 == Applied && Available(funds, reserved.1, w, auth.project, t) == before - amount
            && settled.0 == Settled && Available(funds, settled.1, w, auth.project, t) == before - Abs(cost)
            && refunded.0 == RefundApplied && Available(funds, refunded.1, w, auth.project, t) == before
  {
    var hold := ReserveRow(auth, w, request, amount, currency, ids[0]);
    ReserveStage(funds, s0, auth, request, amount, currency, ids, now, w);
    UnclaimedHasNoRows(s0, auth.tenant, request, ids);
    var s1 := ReserveStep(funds, s0, auth, request, amount, currency, ids[0], now).1;
    SettleStage(s1, hold, auth, request, cost, currency, ids);
    var s2 := SettleStep(s1, auth, request, cost, currency, ids[1]).1;
    RefundStage(s2, hold, auth, request, cost, currency, ids);
    var s3 := RefundStep(s2, auth, request, ids[1], ids[2]).1;
    BalanceSteps(funds, s0, auth, request, amount, cost, currency, ids, now, w, s1, s2, s3);
  }
}
