/** Exactly-once charging, replays, and agreement of the balance read with the reserve guard. */
module ExactlyOnce {
  import opened Wrappers
  import opened Uuids
  import opened LedgerKeys
  import opened Callers
  import opened Ledger
  import opened LedgerRuns

  // ---------------------------------------------------------------- the charges of one request

  predicate IsCharge(e: Entry, tenant: Uuid, request: Uuid) {
    e.tenant == tenant && e.request == Some(request) && e.kind == Settle
  }

  function Charges(es: seq<Entry>, tenant: Uuid, request: Uuid): seq<Entry> {
    if es == [] then []
    else
      var last := es[|es| - 1];
      Charges(es[..|es| - 1], tenant, request) + if IsCharge(last, tenant, request) then [last] else []
  }

  lemma {:induction false} ChargesOfAppend(es: seq<Entry>, row: Entry, tenant: Uuid, request: Uuid)
    ensures Charges(es + [row], tenant, request)
         == Charges(es, tenant, request) + if IsCharge(row, tenant, request) then [row] else []
  {
    assert (es + [row])[..|es|] == es;
  }

  lemma {:induction false} ReverseKeepsCharges(es: seq<Entry>, auth: Auth, r: Uuid, tenant: Uuid, request: Uuid)
    ensures Charges(ReverseReserves(es, auth, r), tenant, request) == Charges(es, tenant, request)
  {
    if es != [] {
      var front, last := es[..|es| - 1], es[|es| - 1];
      ReverseKeepsCharges(front, auth, r, tenant, request);
      ChargesOfAppend(ReverseReserves(front, auth, r), ReleaseRow(last, auth, r), tenant, request);
    }
  }

  lemma {:induction false} ChargeListed(es: seq<Entry>, i: nat, tenant: Uuid, request: Uuid)
    requires i < |es| && IsCharge(es[i], tenant, request)
    ensures es[i] in Charges(es, tenant, request)
  {
    if i < |es| - 1 {
      ChargeListed(es[..|es| - 1], i, tenant, request);
    }
  }

  lemma {:induction false} ChargesAreRows(es: seq<Entry>, tenant: Uuid, request: Uuid)
    ensures forall e :: e in Charges(es, tenant, request) ==> e in es && IsCharge(e, tenant, request)
  {
    if es != [] {
      ChargesAreRows(es[..|es| - 1], tenant, request);
    }
  }

  // ---------------------------------------------------------------- the first charge of a run

  predicate IsSettleAttempt(op: Op, tenant: Uuid, request: Uuid) {
    op.SettleOp? && op.auth.tenant == tenant && op.request == request && op.cost != 0 && Storable(op.cost)
  }

  /** The row of the first settle of the request whose cost is not zero. */
  function FirstCharge(ops: seq<Op>, tenant: Uuid, request: Uuid): seq<Entry> {
    if ops == [] then []
    else
      var earlier := FirstCharge(ops[..|ops| - 1], tenant, request);
      var op := ops[|ops| - 1];
      if earlier == [] && IsSettleAttempt(op, tenant, request)
      then [SettleRow(op.auth, request, op.cost, op.currency, op.id)]
      else earlier
  }

  predicate FreshId(es: seq<Entry>, id: Uuid) {
    forall i :: 0 <= i < |es| ==> es[i].id != id
  }

  /** Nobody else writes settle rows or the settle key of this request. */
  predicate SoleSettler(es: seq<Entry>, op: Op, tenant: Uuid, request: Uuid) {
    && (op.SettleOp? ==> FreshId(es, op.id))
    && (op.OtherOp? && op.row.tenant == tenant ==>
          !IsCharge(op.row, tenant, request) && op.row.key != SettleKey(request))
  }

  predicate SoleSettlerRun(funds: Funds, es: seq<Entry>, ops: seq<Op>, tenant: Uuid, request: Uuid) {
    ops != [] ==>
      && SoleSettlerRun(funds, es, ops[..|ops| - 1], tenant, request)
      && SoleSettler(Run(funds, es, ops[..|ops| - 1]), ops[|ops| - 1], tenant, request)
  }

  /** The settle key of a request is held only by that request's charge rows. */
  predicate KeyMeansCharge(es: seq<Entry>, tenant: Uuid, request: Uuid) {
    forall i :: 0 <= i < |es| && es[i].tenant == tenant ==>
      (es[i].key == SettleKey(request) <==> IsCharge(es[i], tenant, request))
      && (IsCharge(es[i], tenant, request) ==> es[i].Live())
  }

  lemma {:induction false} AppendKeepsKeyMeaning(es: seq<Entry>, row: Entry, tenant: Uuid, request: Uuid)
    requires KeyMeansCharge(es, tenant, request)
    requires row.tenant == tenant ==>
               (row.key == SettleKey(request) <==> IsCharge(row, tenant, request))
               && (IsCharge(row, tenant, request) ==> row.Live())
    ensures KeyMeansCharge(es + [row], tenant, request)
  {
  }

  lemma {:induction false} ReverseKeepsKeyMeaning(es: seq<Entry>, auth: Auth, r: Uuid, tenant: Uuid, request: Uuid)
    requires KeyMeansCharge(es, tenant, request)
    ensures KeyMeansCharge(ReverseReserves(es, auth, r), tenant, request)
  {
  }

  lemma {:induction false} ReserveKeepsKeyMeaning(funds: Funds, es: seq<Entry>, auth: Auth, r: Uuid, amount: int,
                                                  currency: string, id: Uuid, now: int, tenant: Uuid, request: Uuid)
    requires KeyMeansCharge(es, tenant, request)
    ensures KeyMeansCharge(ReserveStep(funds, es, auth, r, amount, currency, id, now).1, tenant, request)
  {
    var selected := SelectWallet(funds.wallets, auth.tenant, auth.project, currency);
    if selected.Some? {
      KeysDisjoint(request, r, r, r);
      AppendKeepsKeyMeaning(es, ReserveRow(auth, selected.value, r, amount, currency, id), tenant, request);
    }
  }

  lemma {:induction false} SettleKeepsKeyMeaning(es: seq<Entry>, auth: Auth, r: Uuid, cost: int, currency: string,
                                                 id: Uuid, tenant: Uuid, request: Uuid)
    requires KeyMeansCharge(es, tenant, request)
    ensures KeyMeansCharge(SettleStep(es, auth, r, cost, currency, id).1, tenant, request)
  {
    var row := SettleRow(auth, r, cost, currency, id);
    KeysInjective(request, r);
    AppendKeepsKeyMeaning(es, row, tenant, request);
    ReverseKeepsKeyMeaning(es, auth, r, tenant, request);
    ReverseKeepsKeyMeaning(es + [row], auth, r, tenant, request);
  }

  lemma {:induction false} RefundKeepsKeyMeaning(es: seq<Entry>, auth: Auth, r: Uuid, settleId: Uuid, id: Uuid,
                                                 tenant: Uuid, request: Uuid)
    requires KeyMeansCharge(es, tenant, request)
    ensures KeyMeansCharge(RefundStep(es, auth, r, settleId, id).1, tenant, request)
  {
    var source := FindSource(es, auth, r, settleId);
    if source.Some? {
      KeysDisjoint(request, settleId, settleId, settleId);
      var row := RefundRow(auth, source.value, -source.value.amount - RefundTotal(es, auth.tenant, settleId), id);
      AppendKeepsKeyMeaning(es, row, tenant, request);
    }
  }

  lemma {:induction false} ApplyKeepsKeyMeaning(funds: Funds, es: seq<Entry>, op: Op, tenant: Uuid, request: Uuid)
    requires KeyMeansCharge(es, tenant, request) && SoleSettler(es, op, tenant, request)
    ensures KeyMeansCharge(Apply(funds, es, op), tenant, request)
  {
    match op
    case ReserveOp(auth, r, amount, currency, id, now) =>
      ReserveKeepsKeyMeaning(funds, es, auth, r, amount, currency, id, now, tenant, request);
    case ReleaseOp(auth, r) => ReverseKeepsKeyMeaning(es, auth, r, tenant, request);
    case SettleOp(auth, r, cost, currency, id) =>
      SettleKeepsKeyMeaning(es, auth, r, cost, currency, id, tenant, request);
    case RefundOp(auth, r, settleId, id) => RefundKeepsKeyMeaning(es, auth, r, settleId, id, tenant, request);
    case OtherOp(row) =>
      if Storable(row.amount) && !Conflicts(es, row) { AppendKeepsKeyMeaning(es, row, tenant, request); }
  }

  /** A settle inserts its row exactly when the request has no charge yet and the cost is storable. */
  lemma {:induction false} SettleInsertsOnce(es: seq<Entry>, op: Op, tenant: Uuid, request: Uuid)
    requires op.SettleOp? && op.auth.tenant == tenant && op.request == request
    requires KeyMeansCharge(es, tenant, request) && FreshId(es, op.id)
    ensures SettleStep(es, op.auth, request, op.cost, op.currency, op.id).0 == Settled
       <==> IsSettleAttempt(op, tenant, request) && Charges(es, tenant, request) == []
  {
    var row := SettleRow(op.auth, request, op.cost, op.currency, op.id);
    forall i | 0 <= i < |es| && ConflictsWith(es[i], row) ensures Charges(es, tenant, request) != [] {
      ChargeListed(es, i, tenant, request);
    }
    if Charges(es, tenant, request) != [] {
      ChargesAreRows(es, tenant, request);
      var e := Charges(es, tenant, request)[0];
      assert e in es && e.key == SettleKey(request) && ConflictsWith(e, row);
    }
  }

  /** The charge rows after one settle, of this request or another. */
  lemma {:induction false} SettleChargesOnce(es: seq<Entry>, op: Op, tenant: Uuid, request: Uuid)
    requires op.SettleOp?
    requires KeyMeansCharge(es, tenant, request) && FreshId(es, op.id)
    ensures Charges(SettleStep(es, op.auth, op.request, op.cost, op.currency, op.id).1, tenant, request)
         == if Charges(es, tenant, request) == [] && IsSettleAttempt(op, tenant, request)
            then [SettleRow(op.auth, request, op.cost, op.currency, op.id)]
            else Charges(es, tenant, request)
  {
    var row := SettleRow(op.auth, op.request, op.cost, op.currency, op.id);
    if Conflicts(es, row) {
      ReverseKeepsCharges(es, op.auth, op.request, tenant, request);
    } else {
      ChargesOfAppend(es, row, tenant, request);
      ReverseKeepsCharges(es + [row], op.auth, op.request, tenant, request);
    }
    if op.auth.tenant == tenant && op.request == request {
      SettleInsertsOnce(es, op, tenant, request);
    }
  }

  lemma {:induction false} ReserveChargesNothing(funds: Funds, es: seq<Entry>, auth: Auth, r: Uuid, amount: int,
                                                 currency: string, id: Uuid, now: int, tenant: Uuid, request: Uuid)
    ensures Charges(ReserveStep(funds, es, auth, r, amount, currency, id, now).1, tenant, request)
         == Charges(es, tenant, request)
  {
    var selected := SelectWallet(funds.wallets, auth.tenant, auth.project, currency);
    if selected.Some? {
      ChargesOfAppend(es, ReserveRow(auth, selected.value, r, amount, currency, id), tenant, request);
    }
  }

  lemma {:induction false} RefundChargesNothing(es: seq<Entry>, auth: Auth, r: Uuid, settleId: Uuid, id: Uuid,
                                                tenant: Uuid, request: Uuid)
    ensures Charges(RefundStep(es, auth, r, settleId, id).1, tenant, request) == Charges(es, tenant, request)
  {
    var source := FindSource(es, auth, r, settleId);
    if source.Some? {
      var row := RefundRow(auth, source.value, -source.value.amount - RefundTotal(es, auth.tenant, settleId), id);
      ChargesOfAppend(es, row, tenant, request);
    }
  }

  lemma {:induction false} ApplyChargesOnce(funds: Funds, es: seq<Entry>, op: Op, tenant: Uuid, request: Uuid)
    requires KeyMeansCharge(es, tenant, request) && SoleSettler(es, op, tenant, request)
    ensures Charges(Apply(funds, es, op), tenant, request)
         == if Charges(es, tenant, request) == [] && IsSettleAttempt(op, tenant, request)
            then [SettleRow(op.auth, request, op.cost, op.currency, op.id)]
            else Charges(es, tenant, request)
  {
    match op
    case ReserveOp(auth, r, amount, currency, id, now) =>
      ReserveChargesNothing(funds, es, auth, r, amount, currency, id, now, tenant, request);
    case ReleaseOp(auth, r) => ReverseKeepsCharges(es, auth, r, tenant, request);
    case SettleOp(_, _, _, _, _) => SettleChargesOnce(es, op, tenant, request);
    case RefundOp(auth, r, settleId, id) => RefundChargesNothing(es, auth, r, settleId, id, tenant, request);
    case OtherOp(row) => ChargesOfAppend(es, row, tenant, request);
  }

  /**
   Exactly-once charging. Under any number and order of retries of any
   transactions, the charge rows of a request are none until its first
   non-zero settle, and from then on exactly that settle's row.
   */
  lemma {:induction false} ChargedExactlyOnce(funds: Funds, es: seq<Entry>, ops: seq<Op>, tenant: Uuid, request: Uuid)
    requires KeyMeansCharge(es, tenant, request) && Charges(es, tenant, request) == []
    requires SoleSettlerRun(funds, es, ops, tenant, request)
    ensures Charges(Run(funds, es, ops), tenant, request) == FirstCharge(ops, tenant, request)
    ensures KeyMeansCharge(Run(funds, es, ops), tenant, request)
  {
    if ops != [] {
      var front, op := ops[..|ops| - 1], ops[|ops| - 1];
      ChargedExactlyOnce(funds, es, front, tenant, request);
      ApplyChargesOnce(funds, Run(funds, es, front), op, tenant, request);
      ApplyKeepsKeyMeaning(funds, Run(funds, es, front), op, tenant, request);
    }
  }

  /** The settle call itself reports an insertion exactly once over the run: on the first non-zero attempt. */
  lemma {:induction false} SettleReportsOnce(funds: Funds, es: seq<Entry>, ops: seq<Op>, op: Op, tenant: Uuid,
                                             request: Uuid)
    requires op.SettleOp? && op.auth.tenant == tenant && op.request == request
    requires KeyMeansCharge(es, tenant, request) && Charges(es, tenant, request) == []
    requires SoleSettlerRun(funds, es, ops + [op], tenant, request)
    ensures SettleStep(Run(funds, es, ops), op.auth, request, op.cost, op.currency, op.id).0 == Settled
       <==> IsSettleAttempt(op, tenant, request) && FirstCharge(ops, tenant, request) == []
  {
    assert (ops + [op])[..|ops|] == ops;
    ChargedExactlyOnce(funds, es, ops, tenant, request);
    SettleInsertsOnce(Run(funds, es, ops), op, tenant, request);
  }

  // ---------------------------------------------------------------- the reserve of one request

  predicate IsReserveOf(e: Entry, tenant: Uuid, request: Uuid) {
    e.tenant == tenant && e.request == Some(request) && e.kind == Reserve
  }

  /** The reserve rows of a request all carry its reserve key. */
  predicate ReservesKeyed(es: seq<Entry>, tenant: Uuid, request: Uuid) {
    forall i :: 0 <= i < |es| && IsReserveOf(es[i], tenant, request) ==> es[i].key == ReserveKey(request)
  }

  predicate AtMostOneReserve(es: seq<Entry>, tenant: Uuid, request: Uuid) {
    forall i, j | 0 <= i < j < |es| :: IsReserveOf(es[i], tenant, request) ==> !IsReserveOf(es[j], tenant, request)
  }

  lemma {:induction false} ApplyKeepsReservesKeyed(funds: Funds, es: seq<Entry>, op: Op, tenant: Uuid, request: Uuid)
    requires ReservesKeyed(es, tenant, request)
    requires op.OtherOp? ==> !IsReserveOf(op.row, tenant, request)
    ensures ReservesKeyed(Apply(funds, es, op), tenant, request)
  {
  }

  /** Under any retries of any transactions, a request never has more than one reserve row, live or reversed. */
  lemma {:induction false} ReservedAtMostOnce(funds: Funds, es: seq<Entry>, ops: seq<Op>, tenant: Uuid, request: Uuid)
    requires UniqueRows(es) && ReservesKeyed(es, tenant, request)
    requires forall i :: 0 <= i < |ops| && ops[i].OtherOp? ==> !IsReserveOf(ops[i].row, tenant, request)
    ensures ReservesKeyed(Run(funds, es, ops), tenant, request)
    ensures AtMostOneReserve(Run(funds, es, ops), tenant, request)
  {
    RunKeepsUnique(funds, es, ops);
    if ops != [] {
      ReservedAtMostOnce(funds, es, ops[..|ops| - 1], tenant, request);
      ApplyKeepsReservesKeyed(funds, Run(funds, es, ops[..|ops| - 1]), ops[|ops| - 1], tenant, request);
    }
  }

  // ---------------------------------------------------------------- read model and write guard

  lemma {:induction false} ReadLedgerAppend(es: seq<Entry>, row: Entry, w: Wallet, tenant: Uuid, project: Uuid)
    ensures ReadLedger(es + [row], w, tenant, project)
         == ReadLedger(es, w, tenant, project) + if ReadCounts(row, w, tenant, project) then row.amount else 0
  {
    if es != [] {
      assert (es + [row])[1..] == es[1..] + [row];
      ReadLedgerAppend(es[1..], row, w, tenant, project);
    }
  }

  lemma {:induction false} ReadLedgerMatches(es: seq<Entry>, w: Wallet, tenant: Uuid, project: Uuid)
    requires w.tenant == tenant
    ensures ReadLedger(es, w, tenant, project) == LedgerBalance(es, Window(tenant, w.id, project, w.currency))
  {
    if es != [] {
      var front, last := es[..|es| - 1], es[|es| - 1];
      assert es == front + [last];
      ReadLedgerMatches(front, w, tenant, project);
      ReadLedgerAppend(front, last, w, tenant, project);
    }
  }

  lemma {:induction false} ReadCreditAppend(gs: seq<Grant>, g: Grant, w: Wallet, tenant: Uuid, now: int)
    requires w.tenant == tenant
    ensures ReadCredit(gs + [g], w, tenant, now)
         == ReadCredit(gs, w, tenant, now) + if GrantCounts(g, tenant, w.id, w.currency, now) then g.remaining else 0
  {
    if gs != [] {
      assert (gs + [g])[1..] == gs[1..] + [g];
      ReadCreditAppend(gs[1..], g, w, tenant, now);
    }
  }

  lemma {:induction false} ReadCreditMatches(gs: seq<Grant>, w: Wallet, tenant: Uuid, now: int)
    requires w.tenant == tenant
    ensures ReadCredit(gs, w, tenant, now) == CreditBalance(gs, tenant, w.id, w.currency, now)
  {
    if gs != [] {
      var front, last := gs[..|gs| - 1], gs[|gs| - 1];
      assert gs == front + [last];
      ReadCreditMatches(front, w, tenant, now);
      ReadCreditAppend(front, last, w, tenant, now);
    }
  }

  predicate KeyUnused(es: seq<Entry>, tenant: Uuid, key: string) {
    forall i :: 0 <= i < |es| ==> !(es[i].tenant == tenant && es[i].key == key)
  }

  /**
   The read shown before admission and the guard of the reserve agree: with
   an unused reserve key, a reserve is applied if and only if the read in the
   same state shows a wallet holding at least the amount.
   */
  lemma {:induction false} ReserveAgreesWithRead(funds: Funds, es: seq<Entry>, auth: Auth, request: Uuid, amount: int,
                                                 currency: string, id: Uuid, now: int)
    requires KeyUnused(es, auth.tenant, ReserveKey(request)) && FreshId(es, id)
    requires Storable(amount)
    ensures var read := PreAuthorizeRead(funds, es, auth.tenant, auth.project, currency, now);
            ReserveStep(funds, es, auth, request, amount, currency, id, now).0 == Applied
            <==> read.Some? && read.value >= amount
    ensures ReserveStep(funds, es, auth, request, amount, currency, id, now).0 != Applied
            ==> ReserveStep(funds, es, auth, request, amount, currency, id, now) == (RejectedInsufficientBalance, es)
  {
    var selected := SelectWallet(funds.wallets, auth.tenant, auth.project, currency);
    if selected.Some? {
      ReadLedgerMatches(es, selected.value, auth.tenant, auth.project);
      ReadCreditMatches(funds.grants, selected.value, auth.tenant, now);
    }
  }

  /** While a reserve is live and some wallet is selectable, a replay is idempotent whatever the balance. */
  lemma {:induction false} LiveReplayIsIdempotent(funds: Funds, es: seq<Entry>, auth: Auth, request: Uuid, amount: int,
                                                  currency: string, id: Uuid, now: int)
    requires HasLiveReserve(es, auth.tenant, request)
    requires Storable(amount)
    ensures ReserveStep(funds, es, auth, request, amount, currency, id, now)
         == (if SelectWallet(funds.wallets, auth.tenant, auth.project, currency).Some?
             then Idempotent else RejectedInsufficientBalance, es)
  {
    var i :| 0 <= i < |es| && IsLiveReserve(es[i], auth.tenant, request);
    var selected := SelectWallet(funds.wallets, auth.tenant, auth.project, currency);
    if selected.Some? {
      assert ConflictsWith(es[i], ReserveRow(auth, selected.value, request, amount, currency, id));
    }
  }

  /**
   Once a request's reserve is reversed, by release or by settle, no later
   point of any run applies a reserve for it again or answers it as live: the
   reversed row keeps the key.
   */
  lemma {:induction false} ReversedReserveStaysSpent(funds: Funds, es: seq<Entry>, ops: seq<Op>, i: nat, auth: Auth,
                                                     request: Uuid, amount: int, currency: string, id: Uuid, now: int)
    requires UniqueRows(es) && i < |es|
    requires es[i].tenant == auth.tenant && es[i].key == ReserveKey(request) && es[i].status == Reversed
    requires Storable(amount)
    ensures ReserveStep(funds, Run(funds, es, ops), auth, request, amount, currency, id, now)
         == (RejectedInsufficientBalance, Run(funds, es, ops))
  {
    var later := Run(funds, es, ops);
    RunExtends(funds, es, ops);
    RunKeepsUnique(funds, es, ops);
    assert Evolves(es[i], later[i]);
    assert forall j :: 0 <= j < |later| && j != i ==> !IsLiveReserve(later[j], auth.tenant, request);
    var selected := SelectWallet(funds.wallets, auth.tenant, auth.project, currency);
    if selected.Some? {
      assert ConflictsWith(later[i], ReserveRow(auth, selected.value, request, amount, currency, id));
    }
  }
}
