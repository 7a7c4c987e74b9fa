/** The rows that the ledger's transactions write, select and change, field by field. */
module LedgerRows {
  import opened Wrappers
  import opened Uuids
  import opened Callers
  import opened Ledger

  /**
   The wallet that pays: of the caller's tenant and the currency, active, not
   deleted, of the caller's project or of none; the project's own before the
   tenant's, then the oldest, then the smallest id.
   */
  lemma {:induction false} WalletThatPays(ws: seq<Wallet>, tenant: Uuid, project: Uuid, currency: string, w: Wallet)
    requires w in ws && w.tenant == tenant && w.currency == currency && w.active && !w.deleted
    requires w.project == None || w.project == Some(project)
    ensures SelectWallet(ws, tenant, project, currency).Some?
    ensures var s := SelectWallet(ws, tenant, project, currency).value;
            && s in ws && s.tenant == tenant && s.currency == currency && s.active && !s.deleted
            && (s.project == None || s.project == Some(project))
            && (w.project == Some(project) ==> s.project == Some(project))
            && (w.project == s.project ==>
                  s.createdAt < w.createdAt || (s.createdAt == w.createdAt && s.id <= w.id))
  {
  }

  /** An applied reserve appends exactly this pending debit, paid from the selected wallet. */
  lemma {:induction false} ReserveWrites(funds: Funds, es: seq<Entry>, auth: Auth, request: Uuid, amount: int,
                                         currency: string, id: Uuid, now: int)
    requires ReserveStep(funds, es, auth, request, amount, currency, id, now).0 == Applied
    ensures SelectWallet(funds.wallets, auth.tenant, auth.project, currency).Some?
    ensures var w := SelectWallet(funds.wallets, auth.tenant, auth.project, currency).value;
            ReserveStep(funds, es, auth, request, amount, currency, id, now).1
            == es + [Entry(id, auth.tenant, Some(auth.project), Some(w.id), Some(request), Some(auth.virtualKey), None,
                           Reserve, -amount, currency, Pending, "reserve:" + Hyphenated(request), true)]
  {
    assert ReserveReadback(es, auth.tenant, request) != Applied;
  }

  /**
   The answer to a reserve that found a wallet and was not applied: idempotent if
   the request's reserve is there, pending or confirmed, and rejected otherwise.
   */
  lemma {:induction false} ReserveAnswers(funds: Funds, es: seq<Entry>, auth: Auth, request: Uuid, amount: int,
                                          currency: string, id: Uuid, now: int)
    requires SelectWallet(funds.wallets, auth.tenant, auth.project, currency).Some? && Storable(amount)
    requires ReserveStep(funds, es, auth, request, amount, currency, id, now).0 != Applied
    ensures ReserveStep(funds, es, auth, request, amount, currency, id, now).0
         == if exists e :: e in es && e.tenant == auth.tenant && e.request == Some(request) && e.kind == Reserve
                           && e.key == "reserve:" + Hyphenated(request) && e.status in {Pending, Confirmed}
            then Idempotent else RejectedInsufficientBalance
  {
    if e :| && e in es && e.tenant == auth.tenant && e.request == Some(request) && e.kind == Reserve
            && e.key == "reserve:" + Hyphenated(request) && e.status in {Pending, Confirmed}
    {
      var i :| 0 <= i < |es| && es[i] == e;
      assert IsLiveReserve(es[i], auth.tenant, request);
    }
    if HasLiveReserve(es, auth.tenant, request) {
      var i :| 0 <= i < |es| && IsLiveReserve(es[i], auth.tenant, request);
      assert es[i] in es;
    }
  }

  /**
   An inserted settle appends exactly this confirmed debit of the cost's
   magnitude, without a wallet, and reverses the request's holds.
   */
  lemma {:induction false} SettleWrites(es: seq<Entry>, auth: Auth, request: Uuid, cost: int, currency: string,
                                        id: Uuid)
    requires SettleStep(es, auth, request, cost, currency, id).0 == Settled
    ensures var charge := Entry(id, auth.tenant, Some(auth.project), None, Some(request), Some(auth.virtualKey), None,
                                Settle, if cost > 0 then -cost else cost, currency, Confirmed,
                                "settle:" + Hyphenated(request), false);
            SettleStep(es, auth, request, cost, currency, id).1 == ReverseReserves(es, auth, request) + [charge]
  {
    var row := SettleRow(auth, request, cost, currency, id);
    assert (es + [row])[..|es|] == es;
  }

  /**
   An applied refund appends exactly this confirmed credit of what is left,
   pointing at the charge and paid back to the charge's wallet.
   */
  lemma {:induction false} RefundWrites(es: seq<Entry>, auth: Auth, request: Uuid, settleId: Uuid, id: Uuid)
    requires RefundStep(es, auth, request, settleId, id).0 == RefundApplied
    ensures FindSource(es, auth, request, settleId).Some?
    ensures var charge := FindSource(es, auth, request, settleId).value;
            var left := -charge.amount - RefundTotal(es, auth.tenant, settleId);
            && left > 0
            && RefundStep(es, auth, request, settleId, id).1
               == es + [Entry(id, auth.tenant, Some(auth.project), charge.wallet, Some(request), Some(auth.virtualKey),
                              Some(settleId), Refund, left, charge.currency, Confirmed,
                              "refund:" + Hyphenated(settleId), true)]
  {
    assert RefundReadback(es, auth.tenant, settleId) != RefundApplied;
  }

  /** The answer to a refund of a charge that is there and was not applied. */
  lemma {:induction false} RefundAnswers(es: seq<Entry>, auth: Auth, request: Uuid, settleId: Uuid, id: Uuid)
    requires FindSource(es, auth, request, settleId).Some?
    requires var r := RefundStep(es, auth, request, settleId, id).0; r != RefundApplied && r != RefundFailed
    ensures RefundStep(es, auth, request, settleId, id).0
         == if exists e :: e in es && e.tenant == auth.tenant && e.related == Some(settleId) && e.kind == Refund
                           && e.key == "refund:" + Hyphenated(settleId) && e.status == Confirmed
            then RefundIdempotent else NothingRefundable
  {
    if e :| && e in es && e.tenant == auth.tenant && e.related == Some(settleId) && e.kind == Refund
            && e.key == "refund:" + Hyphenated(settleId) && e.status == Confirmed
    {
      var i :| 0 <= i < |es| && es[i] == e;
      assert IsRefundOf(es[i], auth.tenant, settleId);
    }
    if i :| 0 <= i < |es| && IsRefundOf(es[i], auth.tenant, settleId) && es[i].key == "refund:" + Hyphenated(settleId) {
      assert es[i] in es;
    }
  }

  /** What a refund may be taken against. */
  lemma {:induction false} RefundableCharge(es: seq<Entry>, auth: Auth, request: Uuid, settleId: Uuid)
    ensures FindSource(es, auth, request, settleId).Some?
       <==> exists e :: e in es && e.tenant == auth.tenant && e.request == Some(request)
                        && e.virtualKey == Some(auth.virtualKey) && e.id == settleId && e.kind == Settle
                        && e.status == Confirmed && e.amount < 0
  {
    var source := FindSource(es, auth, request, settleId);
    if source.Some? {
      assert source.value in es;
    }
  }

  /**
   A release or settle reverses exactly the pending paid reserves of the same
   tenant, request and virtual key, and changes nothing else of any row.
   */
  lemma {:induction false} ReverseTouches(es: seq<Entry>, auth: Auth, request: Uuid, i: nat)
    requires i < |es|
    ensures var e := es[i];
            var held := e.tenant == auth.tenant && e.request == Some(request) && e.virtualKey == Some(auth.virtualKey)
                        && e.kind == Reserve && e.status == Pending && e.paidBeta;
            ReverseReserves(es, auth, request)[i] == if held then e.(status := Reversed) else e
  {
  }

  /** How many rows a release reports: as many as there are such reserves. */
  lemma {:induction false} ReportedReleases(es: seq<Entry>, auth: Auth, request: Uuid)
    ensures CountReleasable(es, auth, request) == |set i | 0 <= i < |es| && Releasable(es[i], auth, request)|
  {
    var all := set i | 0 <= i < |es| && Releasable(es[i], auth, request);
    if es == [] {
      assert all == {};
    } else {
      var front := es[..|es| - 1];
      ReportedReleases(front, auth, request);
      var rest := set i | 0 <= i < |front| && Releasable(front[i], auth, request);
      assert all == if Releasable(es[|es| - 1], auth, request) then rest + {|es| - 1} else rest;
    }
  }

  /** Which row keeps another one out: the same id, the tenant's same key, or a live settle of the same request. */
  lemma {:induction false} KeepsOut(present: Entry, e: Entry)
    ensures ConflictsWith(present, e)
       <==> || present.id == e.id
            || (present.tenant == e.tenant && present.key == e.key)
            || (&& present.tenant == e.tenant && present.request == e.request && e.request != None
                && present.kind == Settle && e.kind == Settle
                && present.status != Reversed && e.status != Reversed)
  {
  }

  /** What counts as a refund of a charge. */
  lemma {:induction false} RefundsAdd(es: seq<Entry>, e: Entry, tenant: Uuid, settleId: Uuid)
    ensures RefundTotal(es + [e], tenant, settleId) - RefundTotal(es, tenant, settleId)
         == if e.tenant == tenant && e.related == Some(settleId) && e.kind == Refund && e.status == Confirmed
            then e.amount else 0
    ensures RefundTotal([], tenant, settleId) == 0
  {
    assert (es + [e])[..|es|] == es;
  }
}
