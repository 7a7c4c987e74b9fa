/** Idempotency keys of the ledger. */
module LedgerKeys {
  import opened Uuids

  const SETTLE: string := "settle:"
  const RESERVE: string := "reserve:"
  const RELEASE: string := "release:"
  const REFUND: string := "refund:"

  function SettleKey(request: Uuid): string { SETTLE + Hyphenated(request) }

  function ReserveKey(request: Uuid): string { RESERVE + Hyphenated(request) }

  function ReleaseKey(request: Uuid): string { RELEASE + Hyphenated(request) }

  function RefundKey(settleEntry: Uuid): string { REFUND + Hyphenated(settleEntry) }

  lemma {:induction false} TailInjective(prefix: string, a: Uuid, b: Uuid)
    requires prefix + Hyphenated(a) == prefix + Hyphenated(b)
    ensures a == b
  {
    assert (prefix + Hyphenated(a))[|prefix|..] == Hyphenated(a);
    assert (prefix + Hyphenated(b))[|prefix|..] == Hyphenated(b);
    HyphenatedInjective(a, b);
  }

  /** Within one operation, a key determines its request (or settle entry). */
  lemma {:induction false} KeysInjective(a: Uuid, b: Uuid)
    ensures SettleKey(a) == SettleKey(b) ==> a == b
    ensures ReserveKey(a) == ReserveKey(b) ==> a == b
    ensures ReleaseKey(a) == ReleaseKey(b) ==> a == b
    ensures RefundKey(a) == RefundKey(b) ==> a == b
  {
    if SettleKey(a) == SettleKey(b) { TailInjective(SETTLE, a, b); }
    if ReserveKey(a) == ReserveKey(b) { TailInjective(RESERVE, a, b); }
    if ReleaseKey(a) == ReleaseKey(b) { TailInjective(RELEASE, a, b); }
    if RefundKey(a) == RefundKey(b) { TailInjective(REFUND, a, b); }
  }

  /** Keys of different operations never coincide, whatever the identifiers. */
  lemma {:induction false} KeysDisjoint(a: Uuid, b: Uuid, c: Uuid, d: Uuid)
    ensures SettleKey(a) !in {ReserveKey(b), ReleaseKey(c), RefundKey(d)}
    ensures ReserveKey(b) !in {ReleaseKey(c), RefundKey(d)}
    ensures ReleaseKey(c) != RefundKey(d)
  {
    var s, r, l, f := SettleKey(a), ReserveKey(b), ReleaseKey(c), RefundKey(d);
    assert s[0] == 's' && r[0] == 'r' && l[0] == 'r' && f[0] == 'r';
    assert r[2] == 's' && l[2] == 'l' && f[2] == 'f';
  }
}
