/**
 Runs of the ledger: any number of reserve, release, settle and refund
 transactions, for any requests, projects and tenants, in any order, together
 with rows inserted by other writers.
 */
module LedgerRuns {
  import opened Uuids
  import opened Callers
  import opened Ledger

  datatype Op =
    | ReserveOp(auth: Auth, request: Uuid, amount: int, currency: string, id: Uuid, now: int)
    | ReleaseOp(auth: Auth, request: Uuid)
    | SettleOp(auth: Auth, request: Uuid, cost: int, currency: string, id: Uuid)
    | RefundOp(auth: Auth, request: Uuid, settleId: Uuid, id: Uuid)
    | OtherOp(row: Entry)

  function InsertOther(es: seq<Entry>, row: Entry): seq<Entry> {
    if Storable(row.amount) && !Conflicts(es, row) then es + [row] else es
  }

  function Apply(funds: Funds, es: seq<Entry>, op: Op): seq<Entry> {
    match op
    case ReserveOp(auth, request, amount, currency, id, now) =>
      ReserveStep(funds, es, auth, request, amount, currency, id, now).1
    case ReleaseOp(auth, request) => ReleaseStep(es, auth, request).1
    case SettleOp(auth, request, cost, currency, id) => SettleStep(es, auth, request, cost, currency, id).1
    case RefundOp(auth, request, settleId, id) => RefundStep(es, auth, request, settleId, id).1
    case OtherOp(row) => InsertOther(es, row)
  }

  function Run(funds: Funds, es: seq<Entry>, ops: seq<Op>): seq<Entry> {
    if ops == [] then es
    else Apply(funds, Run(funds, es, ops[..|ops| - 1]), ops[|ops| - 1])
  }

  // ---------------------------------------------------------------- the table is append-only

  /** A row never changes, except that a pending reserve may become reversed. */
  predicate Evolves(before: Entry, after: Entry) {
    || after == before
    || (before.kind == Reserve && before.status == Pending && after == before.(status := Reversed))
  }

  predicate Extends(before: seq<Entry>, after: seq<Entry>) {
    && |before| <= |after|
    && forall i :: 0 <= i < |before| ==> Evolves(before[i], after[i])
  }

  lemma {:induction false} ExtendsTransitive(a: seq<Entry>, b: seq<Entry>, c: seq<Entry>)
    requires Extends(a, b) && Extends(b, c)
    ensures Extends(a, c)
  {
    forall i | 0 <= i < |a| ensures Evolves(a[i], c[i]) {
      assert Evolves(a[i], b[i]) && Evolves(b[i], c[i]);
    }
  }

  lemma {:induction false} ApplyExtends(funds: Funds, es: seq<Entry>, op: Op)
    ensures Extends(es, Apply(funds, es, op))
  {
  }

  /**
   Over every run, every row stays where it is with the same contents; the
   only status change is pending to reversed on a reserve, so a reversed
   reserve never becomes pending again and a confirmed charge never changes.
   */
  lemma {:induction false} RunExtends(funds: Funds, es: seq<Entry>, ops: seq<Op>)
    ensures Extends(es, Run(funds, es, ops))
  {
    if ops != [] {
      var mid := Run(funds, es, ops[..|ops| - 1]);
      RunExtends(funds, es, ops[..|ops| - 1]);
      ApplyExtends(funds, mid, ops[|ops| - 1]);
      ExtendsTransitive(es, mid, Run(funds, es, ops));
    }
  }

  // ---------------------------------------------------------------- constraints kept by every run

  /** No two rows share an id, and no two rows of a tenant share a key. */
  predicate UniqueRows(es: seq<Entry>) {
    forall i, j :: 0 <= i < j < |es| ==>
      es[i].id != es[j].id && !(es[i].tenant == es[j].tenant && es[i].key == es[j].key)
  }

  lemma {:induction false} AppendKeepsUnique(es: seq<Entry>, row: Entry)
    requires UniqueRows(es) && !Conflicts(es, row)
    ensures UniqueRows(es + [row])
  {
    forall i | 0 <= i < |es| ensures !ConflictsWith(es[i], row) { }
  }

  lemma {:induction false} ReverseKeepsUnique(es: seq<Entry>, auth: Auth, request: Uuid)
    requires UniqueRows(es)
    ensures UniqueRows(ReverseReserves(es, auth, request))
  {
  }

  lemma {:induction false} ReserveKeepsUnique(funds: Funds, es: seq<Entry>, auth: Auth, request: Uuid, amount: int,
                                              currency: string, id: Uuid, now: int)
    requires UniqueRows(es)
    ensures UniqueRows(ReserveStep(funds, es, auth, request, amount, currency, id, now).1)
  {
    var selected := SelectWallet(funds.wallets, auth.tenant, auth.project, currency);
    if selected.Some? {
      var row := ReserveRow(auth, selected.value, request, amount, currency, id);
      if !Conflicts(es, row) { AppendKeepsUnique(es, row); }
    }
  }

  lemma {:induction false} SettleKeepsUnique(es: seq<Entry>, auth: Auth, request: Uuid, cost: int, currency: string,
                                             id: Uuid)
    requires UniqueRows(es)
    ensures UniqueRows(SettleStep(es, auth, request, cost, currency, id).1)
  {
    var row := SettleRow(auth, request, cost, currency, id);
    if Conflicts(es, row) {
      ReverseKeepsUnique(es, auth, request);
    } else {
      AppendKeepsUnique(es, row);
      ReverseKeepsUnique(es + [row], auth, request);
    }
  }

  lemma {:induction false} RefundKeepsUnique(es: seq<Entry>, auth: Auth, request: Uuid, settleId: Uuid, id: Uuid)
    requires UniqueRows(es)
    ensures UniqueRows(RefundStep(es, auth, request, settleId, id).1)
  {
    var source := FindSource(es, auth, request, settleId);
    if source.Some? {
      var row := RefundRow(auth, source.value, -source.value.amount - RefundTotal(es, auth.tenant, settleId), id);
      if !Conflicts(es, row) { AppendKeepsUnique(es, row); }
    }
  }

  lemma {:induction false} ApplyKeepsUnique(funds: Funds, es: seq<Entry>, op: Op)
    requires UniqueRows(es)
    ensures UniqueRows(Apply(funds, es, op))
  {
    match op
    case ReserveOp(auth, request, amount, currency, id, now) =>
      ReserveKeepsUnique(funds, es, auth, request, amount, currency, id, now);
    case ReleaseOp(auth, request) => ReverseKeepsUnique(es, auth, request);
    case SettleOp(auth, request, cost, currency, id) => SettleKeepsUnique(es, auth, request, cost, currency, id);
    case RefundOp(auth, request, settleId, id) => RefundKeepsUnique(es, auth, request, settleId, id);
    case OtherOp(row) =>
      if !Conflicts(es, row) { AppendKeepsUnique(es, row); }
  }

  lemma {:induction false} RunKeepsUnique(funds: Funds, es: seq<Entry>, ops: seq<Op>)
    requires UniqueRows(es)
    ensures UniqueRows(Run(funds, es, ops))
  {
    if ops != [] {
      RunKeepsUnique(funds, es, ops[..|ops| - 1]);
      ApplyKeepsUnique(funds, Run(funds, es, ops[..|ops| - 1]), ops[|ops| - 1]);
    }
  }

  // ---------------------------------------------------------------- one live settle per request

  /** No two live settle rows of a tenant are of the same request. */
  predicate OneLiveSettle(es: seq<Entry>) {
    forall i, j :: 0 <= i < j < |es| ==> !SameSettle(es[i], es[j])
  }

  predicate SameSettle(a: Entry, b: Entry) {
    && a.kind == Settle && b.kind == Settle && a.status != Reversed && b.status != Reversed
    && a.tenant == b.tenant && a.request.Some? && a.request == b.request
  }

  lemma {:induction false} AppendKeepsOneSettle(es: seq<Entry>, row: Entry)
    requires OneLiveSettle(es) && !Conflicts(es, row)
    ensures OneLiveSettle(es + [row])
  {
    forall i | 0 <= i < |es| ensures !SameSettle(es[i], row) { assert !ConflictsWith(es[i], row); }
  }

  lemma {:induction false} ReverseKeepsOneSettle(es: seq<Entry>, auth: Auth, request: Uuid)
    requires OneLiveSettle(es)
    ensures OneLiveSettle(ReverseReserves(es, auth, request))
  {
    var after := ReverseReserves(es, auth, request);
    forall i, j | 0 <= i < j < |after| ensures !SameSettle(after[i], after[j]) {
      assert !SameSettle(es[i], es[j]);
    }
  }

  lemma {:induction false} SettleKeepsOneSettle(es: seq<Entry>, auth: Auth, request: Uuid, cost: int, currency: string,
                                                id: Uuid)
    requires OneLiveSettle(es)
    ensures OneLiveSettle(SettleStep(es, auth, request, cost, currency, id).1)
  {
    var row := SettleRow(auth, request, cost, currency, id);
    if Conflicts(es, row) {
      ReverseKeepsOneSettle(es, auth, request);
    } else {
      AppendKeepsOneSettle(es, row);
      ReverseKeepsOneSettle(es + [row], auth, request);
    }
  }

  lemma {:induction false} ApplyKeepsOneSettle(funds: Funds, es: seq<Entry>, op: Op)
    requires OneLiveSettle(es)
    ensures OneLiveSettle(Apply(funds, es, op))
  {
    match op
    case ReserveOp(auth, request, amount, currency, id, now) =>
      var selected := SelectWallet(funds.wallets, auth.tenant, auth.project, currency);
      if selected.Some? {
        var row := ReserveRow(auth, selected.value, request, amount, currency, id);
        if !Conflicts(es, row) { AppendKeepsOneSettle(es, row); }
      }
    case ReleaseOp(auth, request) => ReverseKeepsOneSettle(es, auth, request);
    case SettleOp(auth, request, cost, currency, id) => SettleKeepsOneSettle(es, auth, request, cost, currency, id);
    case RefundOp(auth, request, settleId, id) =>
      var source := FindSource(es, auth, request, settleId);
      if source.Some? {
        var row := RefundRow(auth, source.value, -source.value.amount - RefundTotal(es, auth.tenant, settleId), id);
        if !Conflicts(es, row) { AppendKeepsOneSettle(es, row); }
      }
    case OtherOp(row) =>
      if !Conflicts(es, row) { AppendKeepsOneSettle(es, row); }
  }

  /** Over every run, whoever writes, a request never has two live settle rows. */
  lemma {:induction false} RunKeepsOneSettle(funds: Funds, es: seq<Entry>, ops: seq<Op>)
    requires OneLiveSettle(es)
    ensures OneLiveSettle(Run(funds, es, ops))
  {
    if ops != [] {
      RunKeepsOneSettle(funds, es, ops[..|ops| - 1]);
      ApplyKeepsOneSettle(funds, Run(funds, es, ops[..|ops| - 1]), ops[|ops| - 1]);
    }
  }
}
