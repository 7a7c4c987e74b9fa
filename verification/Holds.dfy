/** A settle, first or replayed, ends what the request holds, and nothing brings it back. */
module Holds {
  import opened Uuids
  import opened Callers
  import opened Ledger
  import opened LedgerRuns
  import opened Overdraft
  import opened ExactlyOnce

  lemma {:induction false} NothingReleasable(es: seq<Entry>, win: Window, auth: Auth, request: Uuid)
    requires forall i :: 0 <= i < |es| ==> !Releasable(es[i], auth, request)
    ensures Held(es, win, auth, request) == 0
  {
    if es != [] {
      NothingReleasable(es[..|es| - 1], win, auth, request);
    }
  }

  lemma {:induction false} ReverseEndsHold(es: seq<Entry>, win: Window, auth: Auth, request: Uuid)
    ensures Held(ReverseReserves(es, auth, request), win, auth, request) == 0
  {
    NothingReleasable(ReverseReserves(es, auth, request), win, auth, request);
  }

  /**
   Every settle with a storable cost, whether it inserts its row or finds the
   charge already there, leaves the request holding nothing in any window; a
   replay changes no balance otherwise.
   */
  lemma {:induction false} SettleEndsHold(es: seq<Entry>, win: Window, auth: Auth, request: Uuid, cost: int,
                                          currency: string, id: Uuid)
    requires Storable(cost)
    ensures var settled := SettleStep(es, auth, request, cost, currency, id);
            && Held(settled.1, win, auth, request) == 0
            && (settled.0 == NotInserted ==>
                  LedgerBalance(settled.1, win) == LedgerBalance(es, win) - Held(es, win, auth, request))
  {
    var row := SettleRow(auth, request, cost, currency, id);
    if Conflicts(es, row) {
      ReverseEndsHold(es, win, auth, request);
      ReleaseGivesBack(es, win, auth, request);
    } else {
      ReverseEndsHold(es + [row], win, auth, request);
    }
  }

  lemma {:induction false} OnlyReserve(es: seq<Entry>, tenant: Uuid, request: Uuid, i: nat, j: nat)
    requires AtMostOneReserve(es, tenant, request) && i < |es| && j < |es|
    requires IsReserveOf(es[i], tenant, request) && IsReserveOf(es[j], tenant, request)
    ensures i == j
  {
  }

  /** A row of the request's reserve that is reversed is the only one it will ever have. */
  lemma {:induction false} SpentHoldStaysSpent(funds: Funds, es: seq<Entry>, ops: seq<Op>, i: nat, win: Window,
                                               auth: Auth, request: Uuid)
    requires UniqueRows(es) && ReservesKeyed(es, auth.tenant, request)
    requires i < |es| && IsReserveOf(es[i], auth.tenant, request) && es[i].status == Reversed
    requires forall j :: 0 <= j < |ops| && ops[j].OtherOp? ==> !IsReserveOf(ops[j].row, auth.tenant, request)
    ensures Held(Run(funds, es, ops), win, auth, request) == 0
  {
    var later := Run(funds, es, ops);
    RunExtends(funds, es, ops);
    ReservedAtMostOnce(funds, es, ops, auth.tenant, request);
    assert Evolves(es[i], later[i]);
    forall j | 0 <= j < |later| ensures !Releasable(later[j], auth, request) {
      if IsReserveOf(later[j], auth.tenant, request) {
        OnlyReserve(later, auth.tenant, request, i, j);
      }
    }
    NothingReleasable(later, win, auth, request);
  }

  /**
   Once a request that has been reserved is settled, first or again, it holds
   nothing at any later point of any run: no retry of any transaction brings a
   hold back.
   */
  lemma {:induction false} SettledHoldNeverReturns(funds: Funds, es: seq<Entry>, ops: seq<Op>, i: nat, win: Window,
                                                   auth: Auth, request: Uuid, cost: int, currency: string, id: Uuid)
    requires UniqueRows(es) && ReservesKeyed(es, auth.tenant, request) && Storable(cost)
    requires i < |es| && Releasable(es[i], auth, request)
    requires forall j :: 0 <= j < |ops| && ops[j].OtherOp? ==> !IsReserveOf(ops[j].row, auth.tenant, request)
    ensures Held(Run(funds, SettleStep(es, auth, request, cost, currency, id).1, ops), win, auth, request) == 0
  {
    var op := SettleOp(auth, request, cost, currency, id);
    var after := SettleStep(es, auth, request, cost, currency, id).1;
    SettleKeepsUnique(es, auth, request, cost, currency, id);
    ApplyKeepsReservesKeyed(funds, es, op, auth.tenant, request);
    SettleReverses(es, i, auth, request, cost, currency, id);
    SpentHoldStaysSpent(funds, after, ops, i, win, auth, request);
  }

  lemma {:induction false} SettleReverses(es: seq<Entry>, i: nat, auth: Auth, request: Uuid, cost: int,
                                          currency: string, id: Uuid)
    requires Storable(cost) && i < |es| && Releasable(es[i], auth, request)
    ensures var after := SettleStep(es, auth, request, cost, currency, id).1;
            i < |after| && after[i] == es[i].(status := Reversed)
  {
    var row := SettleRow(auth, request, cost, currency, id);
    if !Conflicts(es, row) {
      assert (es + [row])[i] == es[i];
    }
  }
}
