/**
 The paid-request ledger of the gateway: the `ledger_entries` table, the
 balance queries over it, and the reserve, release, settle and refund
 transactions, each as one atomic step.

 Amounts are integers in units of 10^-8, the scale of the amount column.
 */
module Ledger {
  import opened Wrappers
  import opened Uuids
  import opened LedgerKeys
  import opened Callers

  datatype EntryType = Reserve | Settle | Refund | Adjust | Expire | CreditGrant | CreditExpire

  datatype EntryStatus = Pending | Confirmed | Reversed

  /** One row; `paidBeta` says that its metadata carries the paid controlled-beta billing mode. */
  datatype Entry = Entry(
    id: Uuid, tenant: Uuid, project: Option<Uuid>, wallet: Option<Uuid>,
    request: Option<Uuid>, virtualKey: Option<Uuid>, related: Option<Uuid>,
    kind: EntryType, amount: int, currency: string, status: EntryStatus,
    key: string, paidBeta: bool)
  {
    predicate Live() { status == Pending || status == Confirmed }
  }

  datatype Wallet = Wallet(
    id: Uuid, tenant: Uuid, project: Option<Uuid>, currency: string,
    active: bool, deleted: bool, floor: int, createdAt: int)

  datatype Grant = Grant(
    tenant: Uuid, wallet: Uuid, remaining: int, currency: string,
    active: bool, validFrom: int, validUntil: Option<int>)

  /** The tables that only other parts of the system write. */
  datatype Funds = Funds(wallets: seq<Wallet>, grants: seq<Grant>)

  // ---------------------------------------------------------------- wallet selection

  predicate WalletEligible(w: Wallet, tenant: Uuid, project: Uuid, currency: string) {
    && w.tenant == tenant
    && (w.project == Some(project) || w.project == None)
    && w.currency == currency
    && w.active
    && !w.deleted
  }

  /** Project wallets before tenant wallets, then the oldest, then the smallest id. */
  predicate WalletBefore(a: Wallet, b: Wallet, project: Uuid) {
    var ownA, ownB := a.project == Some(project), b.project == Some(project);
    if ownA != ownB then ownA
    else if a.createdAt != b.createdAt then a.createdAt < b.createdAt
    else a.id < b.id
  }

  /** The wallet that pays for a project's requests in one currency. */
  function SelectWallet(ws: seq<Wallet>, tenant: Uuid, project: Uuid, currency: string): (r: Option<Wallet>)
    ensures r.Some? ==> r.value in ws && WalletEligible(r.value, tenant, project, currency)
    ensures r.Some? ==> forall w :: w in ws && WalletEligible(w, tenant, project, currency)
                                    ==> !WalletBefore(w, r.value, project)
    ensures r.None? ==> forall w :: w in ws ==> !WalletEligible(w, tenant, project, currency)
  {
    if ws == [] then None
    else
      var rest := SelectWallet(ws[1..], tenant, project, currency);
      if !WalletEligible(ws[0], tenant, project, currency) then rest
      else if rest.Some? && WalletBefore(rest.value, ws[0], project) then rest
      else Some(ws[0])
  }

  // ---------------------------------------------------------------- balances

  /** The rows a project's balance counts: the wallet's own, and the project's wallet-less ones. */
  datatype Window = Window(tenant: Uuid, wallet: Uuid, project: Uuid, currency: string) {
    predicate Covers(e: Entry) {
      && e.tenant == tenant
      && e.currency == currency
      && e.Live()
      && (e.wallet == Some(wallet) || (e.wallet == None && e.project == Some(project)))
    }
  }

  function LedgerBalance(es: seq<Entry>, win: Window): int {
    if es == [] then 0
    else
      var last := es[|es| - 1];
      LedgerBalance(es[..|es| - 1], win) + if win.Covers(last) then last.amount else 0
  }

  predicate GrantCounts(g: Grant, tenant: Uuid, wallet: Uuid, currency: string, now: int) {
    && g.tenant == tenant
    && g.wallet == wallet
    && g.currency == currency
    && g.active
    && g.validFrom <= now
    && (g.validUntil.None? || g.validUntil.value > now)
  }

  function CreditBalance(gs: seq<Grant>, tenant: Uuid, wallet: Uuid, currency: string, now: int): int {
    if gs == [] then 0
    else
      CreditBalance(gs[..|gs| - 1], tenant, wallet, currency, now)
      + if GrantCounts(gs[|gs| - 1], tenant, wallet, currency, now) then gs[|gs| - 1].remaining else 0
  }

  /** What the reserve guard compares with the amount asked for. */
  function Available(funds: Funds, es: seq<Entry>, w: Wallet, project: Uuid, now: int): int {
    CreditBalance(funds.grants, w.tenant, w.id, w.currency, now)
    + LedgerBalance(es, Window(w.tenant, w.id, project, w.currency))
    - w.floor
  }

  // ---------------------------------------------------------------- insertion

  /** Why `on conflict do nothing` skips `e` when `present` is in the table. */
  predicate ConflictsWith(present: Entry, e: Entry) {
    || present.id == e.id
    || (present.tenant == e.tenant && present.key == e.key)
    || (&& present.kind == Settle && e.kind == Settle && present.Live() && e.Live()
        && present.tenant == e.tenant && e.request.Some? && present.request == e.request)
  }

  predicate Conflicts(es: seq<Entry>, e: Entry) {
    exists i :: 0 <= i < |es| && ConflictsWith(es[i], e)
  }

  const AMOUNT_LIMIT: int := 100_000_000_000_000_000_000

  /** The amount column rejects zero and more than twelve integral digits. */
  predicate Storable(amount: int) {
    amount != 0 && -AMOUNT_LIMIT < amount < AMOUNT_LIMIT
  }

  // ---------------------------------------------------------------- reserve

  datatype ReserveOutcome = Applied | Idempotent | RejectedInsufficientBalance | ReserveFailed

  function ReserveRow(auth: Auth, w: Wallet, request: Uuid, amount: int, currency: string, id: Uuid): Entry {
    Entry(id, auth.tenant, Some(auth.project), Some(w.id), Some(request), Some(auth.virtualKey), None,
          Reserve, -amount, currency, Pending, ReserveKey(request), true)
  }

  predicate IsLiveReserve(e: Entry, tenant: Uuid, request: Uuid) {
    && e.tenant == tenant
    && e.request == Some(request)
    && e.key == ReserveKey(request)
    && e.kind == Reserve
    && e.Live()
  }

  predicate HasLiveReserve(es: seq<Entry>, tenant: Uuid, request: Uuid) {
    exists i :: 0 <= i < |es| && IsLiveReserve(es[i], tenant, request)
  }

  function ReserveReadback(es: seq<Entry>, tenant: Uuid, request: Uuid): ReserveOutcome {
    if HasLiveReserve(es, tenant, request) then Idempotent else RejectedInsufficientBalance
  }

  function ReserveStep(funds: Funds, es: seq<Entry>, auth: Auth, request: Uuid, amount: int, currency: string,
                       id: Uuid, now: int): (ReserveOutcome, seq<Entry>)
  {
    var selected := SelectWallet(funds.wallets, auth.tenant, auth.project, currency);
    if selected.None? then (RejectedInsufficientBalance, es)
    else
      var row := ReserveRow(auth, selected.value, request, amount, currency, id);
      if Available(funds, es, selected.value, auth.project, now) < amount then
        (ReserveReadback(es, auth.tenant, request), es)
      else if !Storable(row.amount) then (ReserveFailed, es)
      else if Conflicts(es, row) then (ReserveReadback(es, auth.tenant, request), es)
      else (Applied, es + [row])
  }

  // ---------------------------------------------------------------- release

  /** The rows that a release or a settle of `request` by `auth` reverses. */
  predicate Releasable(e: Entry, auth: Auth, request: Uuid) {
    && e.tenant == auth.tenant
    && e.request == Some(request)
    && e.virtualKey == Some(auth.virtualKey)
    && e.kind == Reserve
    && e.status == Pending
    && e.paidBeta
  }

  function ReleaseRow(e: Entry, auth: Auth, request: Uuid): Entry {
    if Releasable(e, auth, request) then e.(status := Reversed) else e
  }

  function ReverseReserves(es: seq<Entry>, auth: Auth, request: Uuid): (r: seq<Entry>)
    ensures |r| == |es|
    ensures forall i :: 0 <= i < |es| ==> r[i] == ReleaseRow(es[i], auth, request)
  {
    if es == [] then []
    else ReverseReserves(es[..|es| - 1], auth, request) + [ReleaseRow(es[|es| - 1], auth, request)]
  }

  predicate HasReleasable(es: seq<Entry>, auth: Auth, request: Uuid) {
    exists i :: 0 <= i < |es| && Releasable(es[i], auth, request)
  }

  /** How many rows a release or a settle reverses. */
  function CountReleasable(es: seq<Entry>, auth: Auth, request: Uuid): nat {
    if es == [] then 0
    else CountReleasable(es[..|es| - 1], auth, request) + if Releasable(es[|es| - 1], auth, request) then 1 else 0
  }

  lemma {:induction false} CountFinds(es: seq<Entry>, auth: Auth, request: Uuid)
    ensures CountReleasable(es, auth, request) > 0 <==> HasReleasable(es, auth, request)
  {
    if es != [] {
      var front, last := es[..|es| - 1], es[|es| - 1];
      CountFinds(front, auth, request);
      if HasReleasable(front, auth, request) {
        var i :| 0 <= i < |front| && Releasable(front[i], auth, request);
        assert Releasable(es[i], auth, request);
      }
    }
  }

  function ReleaseStep(es: seq<Entry>, auth: Auth, request: Uuid): (bool, seq<Entry>) {
    (HasReleasable(es, auth, request), ReverseReserves(es, auth, request))
  }

  // ---------------------------------------------------------------- settle

  datatype SettleOutcome = Settled | NotInserted | SettleFailed

  function Abs(n: int): nat { if n < 0 then -n else n }

  /** Settles are debits: the sign of a rated cost does not matter. */
  function Debit(cost: int): (d: int) {
    if cost < 0 then cost else -cost
  }

  function SettleRow(auth: Auth, request: Uuid, cost: int, currency: string, id: Uuid): Entry {
    Entry(id, auth.tenant, Some(auth.project), None, Some(request), Some(auth.virtualKey), None,
          Settle, Debit(cost), currency, Confirmed, SettleKey(request), false)
  }

  function SettleStep(es: seq<Entry>, auth: Auth, request: Uuid, cost: int, currency: string, id: Uuid)
    : (SettleOutcome, seq<Entry>)
  {
    var row := SettleRow(auth, request, cost, currency, id);
    if cost == 0 then (NotInserted, es)
    else if !Storable(row.amount) then (SettleFailed, es)
    else if Conflicts(es, row) then (NotInserted, ReverseReserves(es, auth, request))
    else (Settled, ReverseReserves(es + [row], auth, request))
  }

  // ---------------------------------------------------------------- refund

  datatype RefundOutcome = RefundApplied | RefundIdempotent | SourceNotSettled | NothingRefundable | RefundFailed

  predicate RefundSource(e: Entry, auth: Auth, request: Uuid, settleId: Uuid) {
    && e.tenant == auth.tenant
    && e.request == Some(request)
    && e.virtualKey == Some(auth.virtualKey)
    && e.id == settleId
    && e.kind == Settle
    && e.status == Confirmed
    && e.amount < 0
  }

  function FindSource(es: seq<Entry>, auth: Auth, request: Uuid, settleId: Uuid): (r: Option<Entry>)
    ensures r.Some? ==> r.value in es && RefundSource(r.value, auth, request, settleId)
    ensures r.None? ==> forall e :: e in es ==> !RefundSource(e, auth, request, settleId)
  {
    if es == [] then None
    else if RefundSource(es[0], auth, request, settleId) then Some(es[0])
    else FindSource(es[1..], auth, request, settleId)
  }

  predicate IsRefundOf(e: Entry, tenant: Uuid, settleId: Uuid) {
    && e.tenant == tenant
    && e.related == Some(settleId)
    && e.kind == Refund
    && e.status == Confirmed
  }

  /** Confirmed refunds recorded against one settle entry. */
  function RefundTotal(es: seq<Entry>, tenant: Uuid, settleId: Uuid): int {
    if es == [] then 0
    else
      var last := es[|es| - 1];
      RefundTotal(es[..|es| - 1], tenant, settleId) + if IsRefundOf(last, tenant, settleId) then last.amount else 0
  }

  function RefundRow(auth: Auth, source: Entry, amount: int, id: Uuid): Entry {
    Entry(id, auth.tenant, Some(auth.project), source.wallet, source.request, Some(auth.virtualKey), Some(source.id),
          Refund, amount, source.currency, Confirmed, RefundKey(source.id), true)
  }

  function RefundReadback(es: seq<Entry>, tenant: Uuid, settleId: Uuid): RefundOutcome {
    if exists i :: 0 <= i < |es| && IsRefundOf(es[i], tenant, settleId) && es[i].key == RefundKey(settleId)
    then RefundIdempotent else NothingRefundable
  }

  function RefundStep(es: seq<Entry>, auth: Auth, request: Uuid, settleId: Uuid, id: Uuid)
    : (RefundOutcome, seq<Entry>)
  {
    var source := FindSource(es, auth, request, settleId);
    if source.None? then (SourceNotSettled, es)
    else
      var remaining := -source.value.amount - RefundTotal(es, auth.tenant, settleId);
      var row := RefundRow(auth, source.value, remaining, id);
      if remaining <= 0 then (RefundReadback(es, auth.tenant, settleId), es)
      else if !Storable(remaining) then (RefundFailed, es)
      else if Conflicts(es, row) then (RefundReadback(es, auth.tenant, settleId), es)
      else (RefundApplied, es + [row])
  }

  // ---------------------------------------------------------------- the pre-authorize read model

  predicate ReadCounts(e: Entry, w: Wallet, tenant: Uuid, project: Uuid) {
    && w.currency == e.currency
    && (e.wallet == Some(w.id) || (e.wallet == None && e.project == Some(project)))
    && e.tenant == tenant
    && e.Live()
  }

  function ReadLedger(es: seq<Entry>, w: Wallet, tenant: Uuid, project: Uuid): int {
    if es == [] then 0
    else
      (if ReadCounts(es[0], w, tenant, project) then es[0].amount else 0)
      + ReadLedger(es[1..], w, tenant, project)
  }

  function ReadCredit(gs: seq<Grant>, w: Wallet, tenant: Uuid, now: int): int {
    if gs == [] then 0
    else
      var g := gs[0];
      (if && w.id == g.wallet && w.currency == g.currency && g.tenant == tenant && g.active
          && g.validFrom <= now && (g.validUntil.None? || g.validUntil.value > now)
       then g.remaining else 0)
      + ReadCredit(gs[1..], w, tenant, now)
  }

  /** The balance shown before a request is admitted; none when no wallet is selectable. */
  function PreAuthorizeRead(funds: Funds, es: seq<Entry>, tenant: Uuid, project: Uuid, currency: string, now: int)
    : Option<int>
  {
    var selected := SelectWallet(funds.wallets, tenant, project, currency);
    if selected.None? then None
    else
      Some(ReadCredit(funds.grants, selected.value, tenant, now)
           + ReadLedger(es, selected.value, tenant, project)
           - selected.value.floor)
  }
}
