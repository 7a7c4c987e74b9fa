/** No overdraft: what each transaction does to a project wallet's balance, and what every run keeps. */
module Overdraft {
  import opened Wrappers
  import opened Uuids
  import opened Callers
  import opened Ledger
  import opened LedgerRuns

  // ---------------------------------------------------------------- effect of one transaction

  /** The (negative) amount that reversing a request's pending reserves takes out of a window. */
  function Held(es: seq<Entry>, win: Window, auth: Auth, request: Uuid): int {
    if es == [] then 0
    else
      var last := es[|es| - 1];
      Held(es[..|es| - 1], win, auth, request)
      + if win.Covers(last) && Releasable(last, auth, request) then last.amount else 0
  }

  lemma {:induction false} BalanceOfAppend(es: seq<Entry>, row: Entry, win: Window)
    ensures LedgerBalance(es + [row], win) == LedgerBalance(es, win) + if win.Covers(row) then row.amount else 0
  {
    assert (es + [row])[..|es|] == es;
  }

  lemma {:induction false} HeldOfAppend(es: seq<Entry>, row: Entry, win: Window, auth: Auth, request: Uuid)
    requires row.kind != Reserve
    ensures Held(es + [row], win, auth, request) == Held(es, win, auth, request)
  {
    assert (es + [row])[..|es|] == es;
  }

  /** A release gives back exactly what the request's pending reserves held. */
  lemma {:induction false} ReleaseGivesBack(es: seq<Entry>, win: Window, auth: Auth, request: Uuid)
    ensures LedgerBalance(ReverseReserves(es, auth, request), win)
         == LedgerBalance(es, win) - Held(es, win, auth, request)
  {
    if es != [] {
      var front, last := es[..|es| - 1], es[|es| - 1];
      ReleaseGivesBack(front, win, auth, request);
      BalanceOfAppend(ReverseReserves(front, auth, request), ReleaseRow(last, auth, request), win);
    }
  }

  /** A settle that inserts its row swaps the request's hold for the rated cost. */
  lemma {:induction false} SettleSwapsHoldForCost(es: seq<Entry>, win: Window, auth: Auth, request: Uuid, cost: int,
                                                  currency: string, id: Uuid)
    requires SettleStep(es, auth, request, cost, currency, id).0 == Settled
    ensures LedgerBalance(SettleStep(es, auth, request, cost, currency, id).1, win)
         == LedgerBalance(es, win) - Held(es, win, auth, request)
            - if win.tenant == auth.tenant && win.currency == currency && win.project == auth.project
              then Abs(cost) else 0
  {
    var row := SettleRow(auth, request, cost, currency, id);
    ReleaseGivesBack(es + [row], win, auth, request);
    BalanceOfAppend(es, row, win);
    HeldOfAppend(es, row, win, auth, request);
  }

  // ---------------------------------------------------------------- holds are debits

  predicate PendingDebits(es: seq<Entry>, win: Window) {
    forall i :: 0 <= i < |es| && win.Covers(es[i]) && es[i].kind == Reserve && es[i].status == Pending ==>
      es[i].amount <= 0
  }

  lemma {:induction false} HeldIsDebit(es: seq<Entry>, win: Window, auth: Auth, request: Uuid)
    requires PendingDebits(es, win)
    ensures Held(es, win, auth, request) <= 0
  {
    if es != [] {
      HeldIsDebit(es[..|es| - 1], win, auth, request);
    }
  }

  lemma {:induction false} HeldReaches(es: seq<Entry>, win: Window, auth: Auth, request: Uuid, i: nat)
    requires PendingDebits(es, win)
    requires i < |es| && win.Covers(es[i]) && Releasable(es[i], auth, request)
    ensures Held(es, win, auth, request) <= es[i].amount
  {
    if i == |es| - 1 {
      HeldIsDebit(es[..|es| - 1], win, auth, request);
    } else {
      HeldReaches(es[..|es| - 1], win, auth, request, i);
    }
  }

  // ---------------------------------------------------------------- what the callers promise

  /** The settle's request still holds, in this window, at least what it is charged. */
  predicate SettleCovered(es: seq<Entry>, win: Window, auth: Auth, request: Uuid, cost: int) {
    exists i :: 0 <= i < |es| && win.Covers(es[i]) && Releasable(es[i], auth, request) && Abs(cost) <= -es[i].amount
  }

  /**
   Reserves ask for non-negative amounts while no more credit is in force than
   at `t`; a settle charged to the window happens while its reserve is pending
   and costs no more than it; other writers only add money to the window.
   */
  predicate Prudent(funds: Funds, es: seq<Entry>, op: Op, win: Window, t: int) {
    match op
    case ReserveOp(auth, request, amount, currency, id, now) =>
      && amount >= 0
      && CreditBalance(funds.grants, win.tenant, win.wallet, win.currency, now)
         <= CreditBalance(funds.grants, win.tenant, win.wallet, win.currency, t)
    case ReleaseOp(_, _) => true
    case SettleOp(auth, request, cost, currency, id) =>
      && SettleStep(es, auth, request, cost, currency, id).0 == Settled
      && win.Covers(SettleRow(auth, request, cost, currency, id))
      ==> SettleCovered(es, win, auth, request, cost)
    case RefundOp(_, _, _, _) => true
    case OtherOp(row) => win.Covers(row) ==> row.amount >= 0 && !(row.kind == Reserve && row.status == Pending)
  }

  predicate PrudentRun(funds: Funds, es: seq<Entry>, ops: seq<Op>, win: Window, t: int) {
    ops != [] ==>
      && PrudentRun(funds, es, ops[..|ops| - 1], win, t)
      && Prudent(funds, Run(funds, es, ops[..|ops| - 1]), ops[|ops| - 1], win, t)
  }

  /** Wallet ids are a primary key, and `w` is a wallet of the project, whether or not it is the one now selected. */
  predicate ProjectWallet(funds: Funds, w: Wallet, project: Uuid) {
    && (forall a, b :: a in funds.wallets && b in funds.wallets && a.id == b.id ==> a == b)
    && w.project == Some(project)
    && w in funds.wallets
  }

  function WindowOf(w: Wallet, project: Uuid): Window {
    Window(w.tenant, w.id, project, w.currency)
  }

  // ---------------------------------------------------------------- one step, then every run

  /** A wallet owned by a project is charged only by that project's reserves. */
  lemma {:induction false} ReserveStaysInWindow(funds: Funds, w: Wallet, project: Uuid, auth: Auth, request: Uuid,
                                                amount: int, currency: string, id: Uuid)
    requires ProjectWallet(funds, w, project)
    requires SelectWallet(funds.wallets, auth.tenant, auth.project, currency).Some?
    requires var s := SelectWallet(funds.wallets, auth.tenant, auth.project, currency).value;
             WindowOf(w, project).Covers(ReserveRow(auth, s, request, amount, currency, id))
    ensures SelectWallet(funds.wallets, auth.tenant, auth.project, currency).value == w
    ensures auth.project == project
  {
  }

  lemma {:induction false} AppendKeepsDebits(es: seq<Entry>, row: Entry, win: Window)
    requires PendingDebits(es, win) && (row.kind == Reserve ==> row.amount <= 0)
    ensures PendingDebits(es + [row], win)
  {
  }

  /** An applied reserve leaves the wallet funded: either another window pays, or the guard looked at this one. */
  lemma {:induction false} AppliedReserve(funds: Funds, es: seq<Entry>, w: Wallet, project: Uuid, t: int, op: Op)
    requires op.ReserveOp? && ProjectWallet(funds, w, project)
    requires Available(funds, es, w, project, t) >= 0
    requires Prudent(funds, es, op, WindowOf(w, project), t)
    requires ReserveStep(funds, es, op.auth, op.request, op.amount, op.currency, op.id, op.now).0 == Applied
    ensures Available(funds, Apply(funds, es, op), w, project, t) >= 0
  {
    var selected := SelectWallet(funds.wallets, op.auth.tenant, op.auth.project, op.currency).value;
    var row := ReserveRow(op.auth, selected, op.request, op.amount, op.currency, op.id);
    BalanceOfAppend(es, row, WindowOf(w, project));
    if WindowOf(w, project).Covers(row) {
      ReserveStaysInWindow(funds, w, project, op.auth, op.request, op.amount, op.currency, op.id);
    }
  }

  lemma {:induction false} ReserveKeepsFunded(funds: Funds, es: seq<Entry>, w: Wallet, project: Uuid, t: int, op: Op)
    requires op.ReserveOp? && ProjectWallet(funds, w, project)
    requires PendingDebits(es, WindowOf(w, project)) && Available(funds, es, w, project, t) >= 0
    requires Prudent(funds, es, op, WindowOf(w, project), t)
    ensures var after := Apply(funds, es, op);
            PendingDebits(after, WindowOf(w, project)) && Available(funds, after, w, project, t) >= 0
  {
    if ReserveStep(funds, es, op.auth, op.request, op.amount, op.currency, op.id, op.now).0 == Applied {
      AppliedReserve(funds, es, w, project, t, op);
      var selected := SelectWallet(funds.wallets, op.auth.tenant, op.auth.project, op.currency).value;
      var row := ReserveRow(op.auth, selected, op.request, op.amount, op.currency, op.id);
      AppendKeepsDebits(es, row, WindowOf(w, project));
    }
  }

  lemma {:induction false} ReverseKeepsDebits(es: seq<Entry>, win: Window, auth: Auth, request: Uuid)
    requires PendingDebits(es, win)
    ensures PendingDebits(ReverseReserves(es, auth, request), win)
    ensures LedgerBalance(ReverseReserves(es, auth, request), win) >= LedgerBalance(es, win)
  {
    ReleaseGivesBack(es, win, auth, request);
    HeldIsDebit(es, win, auth, request);
  }

  /** A covered settle never lowers the balance. */
  lemma {:induction false} CoveredSettle(es: seq<Entry>, win: Window, auth: Auth, request: Uuid, cost: int,
                                         currency: string, id: Uuid)
    requires PendingDebits(es, win) && SettleStep(es, auth, request, cost, currency, id).0 == Settled
    requires win.Covers(SettleRow(auth, request, cost, currency, id)) ==> SettleCovered(es, win, auth, request, cost)
    ensures LedgerBalance(SettleStep(es, auth, request, cost, currency, id).1, win) >= LedgerBalance(es, win)
  {
    HeldIsDebit(es, win, auth, request);
    SettleSwapsHoldForCost(es, win, auth, request, cost, currency, id);
    if win.Covers(SettleRow(auth, request, cost, currency, id)) {
      var i :| 0 <= i < |es| && win.Covers(es[i]) && Releasable(es[i], auth, request) && Abs(cost) <= -es[i].amount;
      HeldReaches(es, win, auth, request, i);
    }
  }

  lemma {:induction false} SettleKeepsDebits(es: seq<Entry>, win: Window, auth: Auth, request: Uuid, cost: int,
                                             currency: string, id: Uuid)
    requires PendingDebits(es, win)
    ensures PendingDebits(SettleStep(es, auth, request, cost, currency, id).1, win)
  {
    var row := SettleRow(auth, request, cost, currency, id);
    if Conflicts(es, row) {
      ReverseKeepsDebits(es, win, auth, request);
    } else {
      AppendKeepsDebits(es, row, win);
      ReverseKeepsDebits(es + [row], win, auth, request);
    }
  }

  lemma {:induction false} SettleKeepsFunded(funds: Funds, es: seq<Entry>, w: Wallet, project: Uuid, t: int, op: Op)
    requires op.SettleOp?
    requires PendingDebits(es, WindowOf(w, project)) && Available(funds, es, w, project, t) >= 0
    requires Prudent(funds, es, op, WindowOf(w, project), t)
    ensures var after := Apply(funds, es, op);
            PendingDebits(after, WindowOf(w, project)) && Available(funds, after, w, project, t) >= 0
  {
    var win := WindowOf(w, project);
    SettleKeepsDebits(es, win, op.auth, op.request, op.cost, op.currency, op.id);
    ReverseKeepsDebits(es, win, op.auth, op.request);
    if SettleStep(es, op.auth, op.request, op.cost, op.currency, op.id).0 == Settled {
      CoveredSettle(es, win, op.auth, op.request, op.cost, op.currency, op.id);
    }
  }

  lemma {:induction false} RefundKeepsFunded(es: seq<Entry>, win: Window, auth: Auth, request: Uuid, settleId: Uuid,
                                             id: Uuid)
    requires PendingDebits(es, win)
    ensures PendingDebits(RefundStep(es, auth, request, settleId, id).1, win)
    ensures LedgerBalance(RefundStep(es, auth, request, settleId, id).1, win) >= LedgerBalance(es, win)
  {
    var source := FindSource(es, auth, request, settleId);
    if source.Some? {
      var row := RefundRow(auth, source.value, -source.value.amount - RefundTotal(es, auth.tenant, settleId), id);
      BalanceOfAppend(es, row, win);
    }
  }

  lemma {:induction false} StepKeepsFunded(funds: Funds, es: seq<Entry>, w: Wallet, project: Uuid, t: int, op: Op)
    requires ProjectWallet(funds, w, project)
    requires PendingDebits(es, WindowOf(w, project)) && Available(funds, es, w, project, t) >= 0
    requires Prudent(funds, es, op, WindowOf(w, project), t)
    ensures var after := Apply(funds, es, op);
            PendingDebits(after, WindowOf(w, project)) && Available(funds, after, w, project, t) >= 0
  {
    var win := WindowOf(w, project);
    match op
    case ReserveOp(_, _, _, _, _, _) => ReserveKeepsFunded(funds, es, w, project, t, op);
    case ReleaseOp(auth, request) => ReverseKeepsDebits(es, win, auth, request);
    case SettleOp(_, _, _, _, _) => SettleKeepsFunded(funds, es, w, project, t, op);
    case RefundOp(auth, request, settleId, id) => RefundKeepsFunded(es, win, auth, request, settleId, id);
    case OtherOp(row) => BalanceOfAppend(es, row, win);
  }

  /**
   No overdraft. From a funded state, after every run of transactions of any
   requests, projects and tenants, credit plus live ledger rows minus the
   floor of a project-owned wallet is never negative.
   */
  lemma {:induction false} NoOverdraft(funds: Funds, es: seq<Entry>, ops: seq<Op>, w: Wallet, project: Uuid, t: int)
    requires ProjectWallet(funds, w, project)
    requires PendingDebits(es, WindowOf(w, project)) && Available(funds, es, w, project, t) >= 0
    requires PrudentRun(funds, es, ops, WindowOf(w, project), t)
    ensures PendingDebits(Run(funds, es, ops), WindowOf(w, project))
    ensures Available(funds, Run(funds, es, ops), w, project, t) >= 0
  {
    if ops != [] {
      NoOverdraft(funds, es, ops[..|ops| - 1], w, project, t);
      StepKeepsFunded(funds, Run(funds, es, ops[..|ops| - 1]), w, project, t, ops[|ops| - 1]);
    }
  }

  /**
   The settle transaction itself has no balance guard: an inserted settle
   leaves the window funded exactly when the cost is within the balance plus
   what the request still holds.
   */
  lemma {:induction false} SettleOverdrawsExactly(funds: Funds, es: seq<Entry>, w: Wallet, project: Uuid, t: int,
                                                  auth: Auth, request: Uuid, cost: int, currency: string, id: Uuid)
    requires SettleStep(es, auth, request, cost, currency, id).0 == Settled
    requires WindowOf(w, project).Covers(SettleRow(auth, request, cost, currency, id))
    ensures Available(funds, SettleStep(es, auth, request, cost, currency, id).1, w, project, t) >= 0
       <==> Abs(cost) <= Available(funds, es, w, project, t) - Held(es, WindowOf(w, project), auth, request)
  {
    SettleSwapsHoldForCost(es, WindowOf(w, project), auth, request, cost, currency, id);
  }

  /**
   Why the run theorem is about project-owned wallets: a settle row names no
   wallet and is counted through its project, so in the window that another
   project has on a shared wallet, an inserted settle only gives the hold back.
   */
  lemma {:induction false} SettleUnseenByOtherProjects(es: seq<Entry>, win: Window, auth: Auth, request: Uuid,
                                                       cost: int, currency: string, id: Uuid)
    requires SettleStep(es, auth, request, cost, currency, id).0 == Settled
    requires win.project != auth.project
    ensures LedgerBalance(SettleStep(es, auth, request, cost, currency, id).1, win)
         == LedgerBalance(es, win) - Held(es, win, auth, request)
  {
    SettleSwapsHoldForCost(es, win, auth, request, cost, currency, id);
  }
}
