/**
 The repository methods that run the ledger transactions against mutable
 table contents. Each one is proved to be exactly its atomic step.
 */
module LedgerRepository {
  import opened Uuids
  import opened Callers
  import opened Ledger

  class Repository {
    const funds: Funds
    var entries: seq<Entry>

    constructor (funds: Funds, entries: seq<Entry>)
      ensures this.funds == funds && this.entries == entries
    {
      this.funds := funds;
      this.entries := entries;
    }

    /** `sum(le.amount)` over the live rows of the window. */
    method SumLedger(win: Window) returns (total: int)
      ensures total == LedgerBalance(entries, win)
    {
      total := 0;
      for i := 0 to |entries|
        invariant total == LedgerBalance(entries[..i], win)
      {
        assert entries[..i + 1][..i] == entries[..i];
        if win.Covers(entries[i]) {
          total := total + entries[i].amount;
        }
      }
      assert entries[..|entries|] == entries;
    }

    /** `sum(cg.remaining_amount)` over the grants in force. */
    method SumCredit(w: Wallet, now: int) returns (total: int)
      ensures total == CreditBalance(funds.grants, w.tenant, w.id, w.currency, now)
    {
      var gs := funds.grants;
      total := 0;
      for i := 0 to |gs|
        invariant total == CreditBalance(gs[..i], w.tenant, w.id, w.currency, now)
      {
        assert gs[..i + 1][..i] == gs[..i];
        if GrantCounts(gs[i], w.tenant, w.id, w.currency, now) {
          total := total + gs[i].remaining;
        }
      }
      assert gs[..|gs|] == gs;
    }

    /** `insert ... on conflict do nothing`, with the column checks first. */
    method Insert(row: Entry) returns (inserted: bool)
      requires Storable(row.amount)
      modifies this
      ensures inserted <==> !Conflicts(old(entries), row)
      ensures entries == if inserted then old(entries) + [row] else old(entries)
    {
      var i := 0;
      while i < |entries| && !ConflictsWith(entries[i], row)
        invariant 0 <= i <= |entries|
        invariant forall j :: 0 <= j < i ==> !ConflictsWith(entries[j], row)
        invariant entries == old(entries)
      {
        i := i + 1;
      }
      inserted := i == |entries|;
      if inserted {
        entries := entries + [row];
      }
    }

    method InsertPendingPaidReserve(auth: Auth, request: Uuid, amount: int, currency: string, id: Uuid, now: int)
      returns (outcome: ReserveOutcome)
      modifies this
      ensures (outcome, entries) == ReserveStep(funds, old(entries), auth, request, amount, currency, id, now)
    {
      var selected := SelectWallet(funds.wallets, auth.tenant, auth.project, currency);
      if selected.None? {
        return RejectedInsufficientBalance;
      }
      var w := selected.value;
      var credit := SumCredit(w, now);
      var ledger := SumLedger(Window(w.tenant, w.id, auth.project, w.currency));
      if credit + ledger - w.floor >= amount {
        if !Storable(-amount) {
          return ReserveFailed;
        }
        var inserted := Insert(ReserveRow(auth, w, request, amount, currency, id));
        if inserted {
          return Applied;
        }
      }
      outcome := if HasLiveReserve(entries, auth.tenant, request) then Idempotent else RejectedInsufficientBalance;
    }

    /** `update ... set status = 'reversed'` on the request's pending paid reserves, row by row. */
    method ReversePending(auth: Auth, request: Uuid) returns (affected: nat)
      modifies this
      ensures entries == ReverseReserves(old(entries), auth, request)
      ensures affected == CountReleasable(old(entries), auth, request)
    {
      affected := 0;
      ghost var before := entries;
      for i := 0 to |entries|
        invariant |entries| == |before|
        invariant forall j :: 0 <= j < i ==> entries[j] == ReleaseRow(before[j], auth, request)
        invariant forall j :: i <= j < |before| ==> entries[j] == before[j]
        invariant affected == CountReleasable(before[..i], auth, request)
      {
        assert before[..i + 1][..i] == before[..i];
        if Releasable(entries[i], auth, request) {
          entries := entries[i := entries[i].(status := Reversed)];
          affected := affected + 1;
        }
      }
      assert before[..|before|] == before;
    }

    method ReleasePendingPaidReserve(auth: Auth, request: Uuid) returns (released: bool)
      modifies this
      ensures (released, entries) == ReleaseStep(old(entries), auth, request)
    {
      CountFinds(entries, auth, request);
      var affected := ReversePending(auth, request);
      released := affected > 0;
    }

    method InsertConfirmedSettle(auth: Auth, request: Uuid, cost: int, currency: string, id: Uuid)
      returns (outcome: SettleOutcome)
      modifies this
      ensures (outcome, entries) == SettleStep(old(entries), auth, request, cost, currency, id)
    {
      if cost == 0 {
        return NotInserted;
      }
      var row := SettleRow(auth, request, cost, currency, id);
      if !Storable(row.amount) {
        return SettleFailed;
      }
      var inserted := Insert(row);
      var _ := ReversePending(auth, request);
      outcome := if inserted then Settled else NotInserted;
    }

    /** `sum(refund.amount)` over the confirmed refunds of one settle row. */
    method SumRefunds(tenant: Uuid, settleId: Uuid) returns (total: int)
      ensures total == RefundTotal(entries, tenant, settleId)
    {
      total := 0;
      for i := 0 to |entries|
        invariant total == RefundTotal(entries[..i], tenant, settleId)
      {
        assert entries[..i + 1][..i] == entries[..i];
        if IsRefundOf(entries[i], tenant, settleId) {
          total := total + entries[i].amount;
        }
      }
      assert entries[..|entries|] == entries;
    }

    method InsertFullPaidRefundAfterSettle(auth: Auth, request: Uuid, settleId: Uuid, id: Uuid)
      returns (outcome: RefundOutcome)
      modifies this
      ensures (outcome, entries) == RefundStep(old(entries), auth, request, settleId, id)
    {
      var source := FindSource(entries, auth, request, settleId);
      if source.None? {
        return SourceNotSettled;
      }
      var refunded := SumRefunds(auth.tenant, settleId);
      var remaining := -source.value.amount - refunded;
      if remaining > 0 {
        if !Storable(remaining) {
          return RefundFailed;
        }
        var inserted := Insert(RefundRow(auth, source.value, remaining, id));
        if inserted {
          return RefundApplied;
        }
      }
      outcome := RefundReadback(entries, auth.tenant, settleId);
    }
  }
}
