/** Admission control of virtual keys: per-minute request and token windows, and concurrency slots. */
module RateWindows {
  import opened Wrappers
  import opened Uuids

  /** A counter and the minute it belongs to, either of which may be missing from the stored document. */
  datatype Meter = Meter(window: Option<int>, used: Option<int>) {
    function Window(): int { if window.Some? then window.value else -1 }
    function Used(): int { if used.Some? then used.value else 0 }
  }

  datatype VirtualKey = VirtualKey(tenant: Uuid, active: bool, deleted: bool, rpm: Meter, tpm: Meter,
                                   concurrency: Option<int>) {
    function InUse(): int { if concurrency.Some? then concurrency.value else 0 }
  }

  datatype Acquire = Acquire(applied: bool, usedAfter: Option<int>, remaining: Option<int>)

  datatype Op =
    | Rpm(tenant: Uuid, key: Uuid, limit: int, now: nat)
    | Tpm(tenant: Uuid, key: Uuid, limit: int, tokens: int, now: nat)
    | Enter(tenant: Uuid, key: Uuid, limit: int, now: nat)
    | Leave(tenant: Uuid, key: Uuid, now: nat)

  type Keys = map<Uuid, VirtualKey>

  function Bucket(now: nat): nat { now / 60 }

  const NOT_APPLIED: Acquire := Acquire(false, None, None)

  function Granted(limit: int, used: int): Acquire {
    Acquire(true, Some(used), Some(if limit - used > 0 then limit - used else 0))
  }

  // ---------------------------------------------------------------- the guarded updates

  predicate Open(keys: Keys, tenant: Uuid, key: Uuid) {
    key in keys && keys[key].tenant == tenant && !keys[key].deleted && keys[key].active
  }

  function RpmStep(keys: Keys, tenant: Uuid, key: Uuid, limit: int, now: nat): (Acquire, Keys) {
    var bucket := Bucket(now);
    if !Open(keys, tenant, key) then (NOT_APPLIED, keys)
    else
      var m := keys[key].rpm;
      if m.Window() != bucket || m.Used() < limit then
        var used := if m.Window() == bucket then m.Used() + 1 else 1;
        (Granted(limit, used), keys[key := keys[key].(rpm := Meter(Some(bucket), Some(used)))])
      else (NOT_APPLIED, keys)
  }

  function TpmStep(keys: Keys, tenant: Uuid, key: Uuid, limit: int, tokens: int, now: nat): (Acquire, Keys) {
    var bucket := Bucket(now);
    if !Open(keys, tenant, key) then (NOT_APPLIED, keys)
    else
      var m := keys[key].tpm;
      if && tokens > 0
         && (m.Window() != bucket || m.Used() + tokens <= limit)
         && (m.Window() == bucket || tokens <= limit)
      then
        var used := if m.Window() == bucket then m.Used() + tokens else tokens;
        (Granted(limit, used), keys[key := keys[key].(tpm := Meter(Some(bucket), Some(used)))])
      else (NOT_APPLIED, keys)
  }

  function EnterStep(keys: Keys, tenant: Uuid, key: Uuid, limit: int): (Acquire, Keys) {
    if Open(keys, tenant, key) && keys[key].InUse() < limit then
      var used := keys[key].InUse() + 1;
      (Granted(limit, used), keys[key := keys[key].(concurrency := Some(used))])
    else (NOT_APPLIED, keys)
  }

  function LeaveStep(keys: Keys, tenant: Uuid, key: Uuid): Keys {
    if key in keys && keys[key].tenant == tenant && !keys[key].deleted then
      keys[key := keys[key].(concurrency := Some(if keys[key].InUse() - 1 > 0 then keys[key].InUse() - 1 else 0))]
    else keys
  }

  function Step(keys: Keys, op: Op): (Acquire, Keys) {
    match op
    case Rpm(tenant, key, limit, now) => RpmStep(keys, tenant, key, limit, now)
    case Tpm(tenant, key, limit, tokens, now) => TpmStep(keys, tenant, key, limit, tokens, now)
    case Enter(tenant, key, limit, _) => EnterStep(keys, tenant, key, limit)
    case Leave(tenant, key, _) => (NOT_APPLIED, LeaveStep(keys, tenant, key))
  }

  function Run(keys: Keys, ops: seq<Op>): Keys {
    if ops == [] then keys else Step(Run(keys, ops[..|ops| - 1]), ops[|ops| - 1]).1
  }

  // ---------------------------------------------------------------- grants of one key

  datatype Kind = Requests | Tokens

  datatype Grant = Grant(at: nat, amount: int)

  /** What an operation asks of one key's meter of one kind; nothing if it is about something else. */
  predicate Asks(op: Op, key: Uuid, kind: Kind) {
    op.key == key && if kind == Requests then op.Rpm? else op.Tpm?
  }

  function Amount(op: Op): int { if op.Tpm? then op.tokens else 1 }

  /** The grant that one operation makes to a key's meter, if any. */
  function GrantOf(keys: Keys, op: Op, key: Uuid, kind: Kind): seq<Grant> {
    if Asks(op, key, kind) && Step(keys, op).0.applied then [Grant(op.now, Amount(op))] else []
  }

  /** The grants made to one key over a run, in order. */
  function Grants(keys: Keys, ops: seq<Op>, key: Uuid, kind: Kind): seq<Grant> {
    if ops == [] then []
    else
      var front, op := ops[..|ops| - 1], ops[|ops| - 1];
      Grants(keys, front, key, kind) + GrantOf(Run(keys, front), op, key, kind)
  }

  lemma {:induction false} Regroup(a: seq<Grant>, b: seq<Grant>, c: seq<Grant>)
    ensures (a + b) + c == a + (b + c)
  {
  }

  function SumIn(gs: seq<Grant>, bucket: int): int {
    if gs == [] then 0
    else SumIn(gs[..|gs| - 1], bucket) + if Bucket(gs[|gs| - 1].at) == bucket then gs[|gs| - 1].amount else 0
  }

  function SumBetween(gs: seq<Grant>, from: nat, to: nat): int {
    if gs == [] then 0
    else SumBetween(gs[..|gs| - 1], from, to) + if from <= gs[|gs| - 1].at < to then gs[|gs| - 1].amount else 0
  }

  lemma {:induction false} SumAppend(gs: seq<Grant>, g: Grant, bucket: int)
    ensures SumIn(gs + [g], bucket) == SumIn(gs, bucket) + if Bucket(g.at) == bucket then g.amount else 0
  {
    assert (gs + [g])[..|gs|] == gs;
  }

  lemma {:induction false} SumConcat(a: seq<Grant>, b: seq<Grant>, bucket: int)
    ensures SumIn(a + b, bucket) == SumIn(a, bucket) + SumIn(b, bucket)
  {
    if b == [] {
      assert a + b == a;
    } else {
      var front, last := b[..|b| - 1], b[|b| - 1];
      SumConcat(a, front, bucket);
      assert a + b == (a + front) + [last];
      SumAppend(a + front, last, bucket);
    }
  }

  predicate Positive(gs: seq<Grant>) {
    forall i :: 0 <= i < |gs| ==> gs[i].amount > 0
  }

  lemma {:induction false} PositiveSum(gs: seq<Grant>, bucket: int)
    requires Positive(gs)
    ensures SumIn(gs, bucket) >= 0
  {
    if gs != [] {
      PositiveSum(gs[..|gs| - 1], bucket);
    }
  }

  lemma {:induction false} SumOfOtherBuckets(gs: seq<Grant>, bucket: int)
    requires forall i :: 0 <= i < |gs| ==> Bucket(gs[i].at) != bucket
    ensures SumIn(gs, bucket) == 0
  {
    if gs != [] {
      SumOfOtherBuckets(gs[..|gs| - 1], bucket);
    }
  }

  // ---------------------------------------------------------------- the meter is the log

  function MeterOf(keys: Keys, key: Uuid, kind: Kind): Meter {
    if key !in keys then Meter(None, None) else if kind == Requests then keys[key].rpm else keys[key].tpm
  }

  /** The meter holds what was granted in its minute, and no grant is later than its minute. */
  predicate Tracks(m: Meter, gs: seq<Grant>) {
    if m.window.None? then gs == []
    else
      && m.used.Some? && m.used.value == SumIn(gs, m.window.value) && m.used.value > 0
      && forall i :: 0 <= i < |gs| ==> Bucket(gs[i].at) <= m.window.value
  }

  /** The amount already granted in the current minute. */
  lemma {:induction false} TracksNow(m: Meter, gs: seq<Grant>, bucket: nat)
    requires Tracks(m, gs) && m.Window() <= bucket
    ensures SumIn(gs, bucket) == if m.Window() == bucket then m.Used() else 0
  {
    if m.Window() != bucket {
      SumOfOtherBuckets(gs, bucket);
    }
  }

  predicate Ordered(ops: seq<Op>) {
    forall i, j :: 0 <= i < j < |ops| ==> ops[i].now <= ops[j].now
  }

  /**
   A run that goes on, in time, from a meter on which `prior` had been granted;
   a key that was never metered has no prior grants.
   */
  predicate Continues(keys: Keys, prior: seq<Grant>, ops: seq<Op>, key: Uuid, kind: Kind) {
    && Tracks(MeterOf(keys, key, kind), prior) && Positive(prior)
    && Ordered(ops)
    && forall i :: 0 <= i < |ops| ==> MeterOf(keys, key, kind).Window() <= Bucket(ops[i].now)
  }

  /** Whatever a started meter holds can be taken as one prior grant. */
  lemma {:induction false} StartedMeterTracks(m: Meter)
    requires m.window.Some? && m.window.value >= 0 && m.used.Some? && m.used.value > 0
    ensures Tracks(m, [Grant(60 * m.window.value, m.used.value)])
  {
    var gs := [Grant(60 * m.window.value, m.used.value)];
    assert gs[..0] == [] && Bucket(60 * m.window.value) == m.window.value;
  }

  /** A grant of `g` in the current minute, written to the meter, is tracked. */
  lemma {:induction false} GrantTracks(m: Meter, gs: seq<Grant>, g: Grant)
    requires Tracks(m, gs) && m.Window() <= Bucket(g.at) && g.amount > 0
    ensures var used := (if m.Window() == Bucket(g.at) then m.Used() else 0) + g.amount;
            Tracks(Meter(Some(Bucket(g.at)), Some(used)), gs + [g])
  {
    TracksNow(m, gs, Bucket(g.at));
    SumAppend(gs, g, Bucket(g.at));
  }

  /** A granted request or token amount is added to what the meter holds for the current minute; nothing else is. */
  lemma {:induction false} MeterAfter(keys: Keys, op: Op, key: Uuid, kind: Kind)
    requires Asks(op, key, kind)
    ensures var m, step := MeterOf(keys, key, kind), Step(keys, op);
            var used := (if m.Window() == Bucket(op.now) then m.Used() else 0) + Amount(op);
            && MeterOf(step.1, key, kind) == (if step.0.applied then Meter(Some(Bucket(op.now)), Some(used)) else m)
            && (step.0.applied ==> Amount(op) > 0)
  {
  }

  /** An operation that does not ask a meter leaves it alone. */
  lemma {:induction false} OthersLeaveMeter(keys: Keys, op: Op, key: Uuid, kind: Kind)
    requires !Asks(op, key, kind)
    ensures MeterOf(Step(keys, op).1, key, kind) == MeterOf(keys, key, kind)
  {
  }

  lemma {:induction false} StepTracks(keys: Keys, op: Op, key: Uuid, kind: Kind, gs: seq<Grant>)
    requires Tracks(MeterOf(keys, key, kind), gs) && MeterOf(keys, key, kind).Window() <= Bucket(op.now)
    ensures Tracks(MeterOf(Step(keys, op).1, key, kind), gs + GrantOf(keys, op, key, kind))
    ensures MeterOf(Step(keys, op).1, key, kind).Window() <= Bucket(op.now)
  {
    assert gs + [] == gs;
    if !Asks(op, key, kind) {
      OthersLeaveMeter(keys, op, key, kind);
    } else {
      MeterAfter(keys, op, key, kind);
      if Step(keys, op).0.applied {
        GrantTracks(MeterOf(keys, key, kind), gs, Grant(op.now, Amount(op)));
      }
    }
  }

  lemma {:induction false} RunTracks(keys: Keys, prior: seq<Grant>, ops: seq<Op>, key: Uuid, kind: Kind, now: nat)
    requires Continues(keys, prior, ops, key, kind) && MeterOf(keys, key, kind).Window() <= Bucket(now)
    requires forall i :: 0 <= i < |ops| ==> ops[i].now <= now
    ensures Tracks(MeterOf(Run(keys, ops), key, kind), prior + Grants(keys, ops, key, kind))
    ensures MeterOf(Run(keys, ops), key, kind).Window() <= Bucket(now)
  {
    if ops == [] {
      assert prior + [] == prior;
    } else {
      var front, op := ops[..|ops| - 1], ops[|ops| - 1];
      var made := Grants(keys, front, key, kind);
      RunTracks(keys, prior, front, key, kind, op.now);
      StepTracks(Run(keys, front), op, key, kind, prior + made);
      Regroup(prior, made, GrantOf(Run(keys, front), op, key, kind));
      BucketMonotone(op.now, now);
    }
  }

  lemma {:induction false} BucketMonotone(a: nat, b: nat)
    requires a <= b
    ensures Bucket(a) <= Bucket(b)
  {
  }

  // ---------------------------------------------------------------- admission is exact

  /** Most that a minute may grant: a request limit below one still lets the first request of a minute through. */
  function Cap(limit: int, kind: Kind): int {
    if kind == Requests then (if limit < 1 then 1 else limit) else (if limit < 0 then 0 else limit)
  }

  /** Granted exactly when the key is open and there is room, with the new sum and what is left reported. */
  predicate ExactReply(reply: Acquire, open: bool, op: Op, kind: Kind, before: int)
    requires op.Rpm? || op.Tpm?
  {
    var after := before + Amount(op);
    && (reply.applied <==> open && Amount(op) > 0 && after <= Cap(op.limit, kind))
    && (reply.applied ==> reply.usedAfter == Some(after))
    && (reply.applied ==> reply.remaining == Some(if op.limit > after then op.limit - after else 0))
  }

  /** One guarded update, in terms of what its minute has granted so far. */
  lemma {:induction false} StepAdmits(keys: Keys, op: Op, key: Uuid, kind: Kind, before: int)
    requires Asks(op, key, kind)
    requires var m := MeterOf(keys, key, kind); before == if m.Window() == Bucket(op.now) then m.Used() else 0
    requires var m := MeterOf(keys, key, kind); m.Window() == Bucket(op.now) ==> m.Used() > 0
    ensures ExactReply(Step(keys, op).0, Open(keys, op.tenant, op.key), op, kind, before)
  {
  }

  lemma {:induction false} ContinuesPrefix(keys: Keys, prior: seq<Grant>, ops: seq<Op>, op: Op, key: Uuid, kind: Kind)
    requires Continues(keys, prior, ops + [op], key, kind)
    ensures Continues(keys, prior, ops, key, kind) && MeterOf(keys, key, kind).Window() <= Bucket(op.now)
    ensures forall i :: 0 <= i < |ops| ==> ops[i].now <= op.now
  {
    var all := ops + [op];
    assert all[|ops|] == op;
    forall i | 0 <= i < |ops|
      ensures ops[i].now <= op.now && MeterOf(keys, key, kind).Window() <= Bucket(ops[i].now)
    {
      assert all[i] == ops[i];
    }
    forall i, j | 0 <= i < j < |ops| ensures ops[i].now <= ops[j].now { assert all[i] == ops[i] && all[j] == ops[j]; }
  }

  /**
   On a meter with any history, an open key's request is granted if and only if
   what its minute has granted so far leaves room under the cap, and the reply
   reports exactly the sum granted in that minute and what is left of the limit.
   */
  lemma {:induction false} AdmissionIsExact(keys: Keys, prior: seq<Grant>, ops: seq<Op>, op: Op, key: Uuid, kind: Kind)
    requires Continues(keys, prior, ops + [op], key, kind) && Asks(op, key, kind)
    ensures ExactReply(Step(Run(keys, ops), op).0, Open(Run(keys, ops), op.tenant, op.key), op, kind,
                       SumIn(prior + Grants(keys, ops, key, kind), Bucket(op.now)))
  {
    var log := prior + Grants(keys, ops, key, kind);
    ContinuesPrefix(keys, prior, ops, op, key, kind);
    RunTracks(keys, prior, ops, key, kind, op.now);
    TracksNow(MeterOf(Run(keys, ops), key, kind), log, Bucket(op.now));
    StepAdmits(Run(keys, ops), op, key, kind, SumIn(log, Bucket(op.now)));
  }

  lemma {:induction false} GrantsArePositive(keys: Keys, ops: seq<Op>, key: Uuid, kind: Kind)
    ensures Positive(Grants(keys, ops, key, kind))
  {
    if ops != [] {
      var front, op := ops[..|ops| - 1], ops[|ops| - 1];
      GrantsArePositive(keys, front, key, kind);
      if Asks(op, key, kind) && Step(Run(keys, front), op).0.applied {
        MeterAfter(Run(keys, front), op, key, kind);
      }
    }
  }

  /** Everybody who asks in that minute asks with the same limit. */
  predicate FixedLimit(ops: seq<Op>, key: Uuid, kind: Kind, limit: int, bucket: int) {
    forall i :: 0 <= i < |ops| && Asks(ops[i], key, kind) && Bucket(ops[i].now) == bucket ==> ops[i].limit == limit
  }

  /** If the run grants anything in a minute, then all grants of that minute, prior ones too, stay under the cap. */
  lemma {:induction false} MinuteStaysUnder(keys: Keys, prior: seq<Grant>, ops: seq<Op>, key: Uuid, kind: Kind,
                                            limit: int, bucket: int)
    requires Continues(keys, prior, ops, key, kind) && FixedLimit(ops, key, kind, limit, bucket)
    ensures SumIn(Grants(keys, ops, key, kind), bucket) > 0
        ==> SumIn(prior + Grants(keys, ops, key, kind), bucket) <= Cap(limit, kind)
  {
    if ops != [] {
      var front, op := ops[..|ops| - 1], ops[|ops| - 1];
      var made, g := Grants(keys, front, key, kind), Grant(op.now, Amount(op));
      assert ops == front + [op];
      ContinuesPrefix(keys, prior, front, op, key, kind);
      MinuteStaysUnder(keys, prior, front, key, kind, limit, bucket);
      if Asks(op, key, kind) && Step(Run(keys, front), op).0.applied {
        AdmissionIsExact(keys, prior, front, op, key, kind);
        Regroup(prior, made, [g]);
        SumAppend(prior + made, g, bucket);
        SumAppend(made, g, bucket);
      } else {
        assert made + [] == made;
      }
    }
  }

  /** A minute grants at most the cap of the limit asked with in that minute, over any run on any keys. */
  lemma {:induction false} MinuteIsCapped(keys: Keys, prior: seq<Grant>, ops: seq<Op>, key: Uuid, kind: Kind,
                                          limit: int, bucket: int)
    requires Continues(keys, prior, ops, key, kind) && FixedLimit(ops, key, kind, limit, bucket)
    ensures SumIn(Grants(keys, ops, key, kind), bucket) <= Cap(limit, kind)
    ensures SumIn(Grants(keys, ops, key, kind), bucket) > 0
        ==> SumIn(prior, bucket) + SumIn(Grants(keys, ops, key, kind), bucket) <= Cap(limit, kind)
  {
    MinuteStaysUnder(keys, prior, ops, key, kind, limit, bucket);
    SumConcat(prior, Grants(keys, ops, key, kind), bucket);
    PositiveSum(prior, bucket);
  }

  lemma {:induction false} SpanWithinTwoMinutes(gs: seq<Grant>, from: nat)
    requires Positive(gs)
    ensures SumBetween(gs, from, from + 60) <= SumIn(gs, Bucket(from)) + SumIn(gs, Bucket(from) + 1)
  {
    if gs != [] {
      SpanWithinTwoMinutes(gs[..|gs| - 1], from);
      var at := gs[|gs| - 1].at;
      if from <= at < from + 60 {
        assert Bucket(at) == Bucket(from) || Bucket(at) == Bucket(from) + 1;
      }
    }
  }

  /** Any sixty seconds, wherever they start, grant at most twice the cap. */
  lemma {:induction false} AnySixtySeconds(keys: Keys, prior: seq<Grant>, ops: seq<Op>, key: Uuid, kind: Kind,
                                           limit: int, from: nat)
    requires Continues(keys, prior, ops, key, kind)
    requires FixedLimit(ops, key, kind, limit, Bucket(from)) && FixedLimit(ops, key, kind, limit, Bucket(from) + 1)
    ensures SumBetween(Grants(keys, ops, key, kind), from, from + 60) <= 2 * Cap(limit, kind)
  {
    GrantsArePositive(keys, ops, key, kind);
    SpanWithinTwoMinutes(Grants(keys, ops, key, kind), from);
    MinuteIsCapped(keys, prior, ops, key, kind, limit, Bucket(from));
    MinuteIsCapped(keys, prior, ops, key, kind, limit, Bucket(from) + 1);
  }

  // ---------------------------------------------------------------- concurrency slots

  /** Slots taken minus slots given back, by the operations of one key that had an effect. */
  function Outstanding(keys: Keys, ops: seq<Op>, key: Uuid): int {
    if ops == [] then 0
    else
      var front, op := ops[..|ops| - 1], ops[|ops| - 1];
      Outstanding(keys, front, key)
      + if op.key != key || key !in keys || keys[key].tenant != op.tenant then 0
        else if op.Enter? && Step(Run(keys, front), op).0.applied then 1
        else if op.Leave? && !keys[key].deleted then -1
        else 0
  }

  /** Nobody gives back a slot that is not taken, those taken at first included. */
  predicate Paired(keys: Keys, ops: seq<Op>, key: Uuid)
    requires key in keys
  {
    keys[key].InUse() + Outstanding(keys, ops, key) >= 0 && (ops != [] ==> Paired(keys, ops[..|ops| - 1], key))
  }

  /**
   While releases are paired with grants, the stored number is exactly what it
   was at first plus the slots taken and not yet given back, and a grant never
   takes it above the limit it was asked with.
   */
  lemma {:induction false} SlotsAreConserved(keys: Keys, ops: seq<Op>, key: Uuid)
    requires key in keys && Paired(keys, ops, key)
    ensures key in Run(keys, ops)
    ensures Run(keys, ops)[key].InUse() == keys[key].InUse() + Outstanding(keys, ops, key)
    ensures Run(keys, ops)[key].tenant == keys[key].tenant && Run(keys, ops)[key].deleted == keys[key].deleted
    ensures ops != [] && ops[|ops| - 1].Enter? && ops[|ops| - 1].key == key
            && Step(Run(keys, ops[..|ops| - 1]), ops[|ops| - 1]).0.applied
            ==> Run(keys, ops)[key].InUse() <= ops[|ops| - 1].limit
  {
    if ops != [] {
      SlotsAreConserved(keys, ops[..|ops| - 1], key);
    }
  }

  // ---------------------------------------------------------------- who is served, and from what counts

  /** Only an active key of the tenant that is not deleted is ever granted anything. */
  lemma {:induction false} OnlyOpenKeysAreGranted(keys: Keys, op: Op)
    requires Step(keys, op).0.applied
    ensures op.key in keys && keys[op.key].tenant == op.tenant && keys[op.key].active && !keys[op.key].deleted
  {
  }

  /** Such a key is granted within its limit; a count missing from the stored document counts as zero. */
  lemma {:induction false} MissingCountsAreZero(keys: Keys, tenant: Uuid, key: Uuid, limit: int, tokens: int, now: nat)
    requires key in keys && keys[key].tenant == tenant && keys[key].active && !keys[key].deleted
    requires keys[key].rpm.used.None? && keys[key].tpm.used.None? && keys[key].concurrency.None?
    ensures var rpm := Step(keys, Rpm(tenant, key, limit, now)).0;
            && (limit >= 1 ==> rpm == Acquire(true, Some(1), Some(limit - 1)))
            && (limit < 1 && keys[key].rpm.window == Some(now / 60) ==> !rpm.applied)
    ensures Step(keys, Tpm(tenant, key, limit, tokens, now)).0
         == if 1 <= tokens <= limit then Acquire(true, Some(tokens), Some(limit - tokens))
            else Acquire(false, None, None)
    ensures Step(keys, Enter(tenant, key, limit, now)).0
         == if limit >= 1 then Acquire(true, Some(1), Some(limit - 1)) else Acquire(false, None, None)
  {
  }

  /** A release lowers the slots of the tenant's key, deleted ones excepted, by one, but not below zero. */
  lemma {:induction false} ReleaseLowers(keys: Keys, tenant: Uuid, key: Uuid, now: nat)
    requires key in keys
    ensures var after := Step(keys, Leave(tenant, key, now)).1;
            && key in after
            && after[key].InUse() == (if keys[key].tenant != tenant || keys[key].deleted then keys[key].InUse()
                                      else if keys[key].InUse() >= 1 then keys[key].InUse() - 1 else 0)
  {
  }

  // ---------------------------------------------------------------- the rows themselves

  lemma {:induction false} RunOfAppend(keys: Keys, ops: seq<Op>, op: Op)
    ensures Run(keys, ops + [op]) == Step(Run(keys, ops), op).1
  {
    assert (ops + [op])[..|ops|] == ops;
  }

  /** The rows of virtual keys, updated in place, with the operations they have served. */
  class VirtualKeys {
    var keys: Keys

    ghost const first: Keys
    ghost var history: seq<Op>

    ghost predicate Valid()
      reads this
    {
      keys == Run(first, history)
    }

    /** The reply to `op` is the exact one for all that its minute has granted, whatever had been granted at first. */
    ghost predicate Exact(reply: Acquire, open: bool, op: Op, kind: Kind, served: seq<Op>)
      requires op.Rpm? || op.Tpm?
      reads this
    {
      forall prior :: Continues(first, prior, served + [op], op.key, kind) ==>
        ExactReply(reply, open, op, kind, SumIn(prior + Grants(first, served, op.key, kind), Bucket(op.now)))
    }

    /** The slots in use are those at first, plus those taken and not given back. */
    ghost predicate Conserved(key: Uuid)
      reads this
    {
      key in first && Paired(first, history, key) ==>
        key in keys && keys[key].InUse() == first[key].InUse() + Outstanding(first, history, key)
    }

    constructor (keys: Keys)
      ensures Valid() && first == keys && history == []
    {
      this.keys := keys;
      this.first := keys;
      this.history := [];
    }

    ghost method Serve(op: Op)
      requires keys == Step(Run(first, history), op).1
      modifies this`history
      ensures Valid() && history == old(history) + [op] && Conserved(op.key)
    {
      RunOfAppend(first, history, op);
      history := history + [op];
      if op.key in first && Paired(first, history, op.key) {
        SlotsAreConserved(first, history, op.key);
      }
    }

    /** What a meter's guarded update means over the whole history. */
    lemma {:induction false} IsExact(reply: Acquire, op: Op, kind: Kind)
      requires Valid() && Asks(op, op.key, kind) && reply == Step(keys, op).0
      ensures Exact(reply, Open(keys, op.tenant, op.key), op, kind, history)
    {
      forall prior | Continues(first, prior, history + [op], op.key, kind)
        ensures ExactReply(reply, Open(keys, op.tenant, op.key), op, kind,
                           SumIn(prior + Grants(first, history, op.key, kind), Bucket(op.now)))
      {
        AdmissionIsExact(first, prior, history, op, op.key, kind);
      }
    }

    method AcquireRpmSlot(tenant: Uuid, key: Uuid, limit: int, now: nat) returns (r: Acquire)
      requires Valid()
      modifies this
      ensures Valid() && history == old(history) + [Rpm(tenant, key, limit, now)]
      ensures Exact(r, old(Open(keys, tenant, key)), Rpm(tenant, key, limit, now), Requests, old(history))
      ensures keys - {key} == old(keys) - {key} && (!r.applied ==> keys == old(keys))
    {
      ghost var op := Rpm(tenant, key, limit, now);
      IsExact(Step(keys, op).0, op, Requests);
      var bucket := Bucket(now);
      r := NOT_APPLIED;
      if Open(keys, tenant, key) {
        var row := keys[key];
        if row.rpm.Window() != bucket || row.rpm.Used() < limit {
          var used := 1;
          if row.rpm.Window() == bucket {
            used := row.rpm.Used() + 1;
          }
          keys := keys[key := row.(rpm := Meter(Some(bucket), Some(used)))];
          r := Granted(limit, used);
        }
      }
      Serve(op);
    }

    method AcquireTpmCapacity(tenant: Uuid, key: Uuid, limit: int, tokens: int, now: nat) returns (r: Acquire)
      requires Valid()
      modifies this
      ensures Valid() && history == old(history) + [Tpm(tenant, key, limit, tokens, now)]
      ensures Exact(r, old(Open(keys, tenant, key)), Tpm(tenant, key, limit, tokens, now), Tokens, old(history))
      ensures keys - {key} == old(keys) - {key} && (!r.applied ==> keys == old(keys))
    {
      ghost var op := Tpm(tenant, key, limit, tokens, now);
      IsExact(Step(keys, op).0, op, Tokens);
      var bucket := Bucket(now);
      r := NOT_APPLIED;
      if Open(keys, tenant, key) && tokens > 0 {
        var row := keys[key];
        var used := tokens;
        if row.tpm.Window() == bucket {
          used := row.tpm.Used() + tokens;
        }
        if used <= limit {
          keys := keys[key := row.(tpm := Meter(Some(bucket), Some(used)))];
          r := Granted(limit, used);
        }
      }
      Serve(op);
    }

    method AcquireConcurrencySlot(tenant: Uuid, key: Uuid, limit: int, ghost now: nat) returns (r: Acquire)
      requires Valid()
      modifies this
      ensures Valid() && history == old(history) + [Enter(tenant, key, limit, now)] && Conserved(key)
      ensures r.applied <==> old(Open(keys, tenant, key) && keys[key].InUse() < limit)
      ensures r.applied ==> key in keys && r.usedAfter == Some(keys[key].InUse()) && keys[key].InUse() <= limit
      ensures keys - {key} == old(keys) - {key} && (!r.applied ==> keys == old(keys))
    {
      r := NOT_APPLIED;
      if Open(keys, tenant, key) && keys[key].InUse() < limit {
        var used := keys[key].InUse() + 1;
        keys := keys[key := keys[key].(concurrency := Some(used))];
        r := Granted(limit, used);
      }
      Serve(Enter(tenant, key, limit, now));
    }

    method ReleaseConcurrencySlot(tenant: Uuid, key: Uuid, ghost now: nat)
      requires Valid()
      modifies this
      ensures Valid() && history == old(history) + [Leave(tenant, key, now)] && Conserved(key)
      ensures keys - {key} == old(keys) - {key}
    {
      GiveBack(tenant, key);
      Serve(Leave(tenant, key, now));
    }

    /** The decrement, which stops at zero. */
    method GiveBack(tenant: Uuid, key: Uuid)
      modifies this`keys
      ensures keys == LeaveStep(old(keys), tenant, key) && keys - {key} == old(keys) - {key}
    {
      if key in keys && keys[key].tenant == tenant && !keys[key].deleted {
        var left := keys[key].InUse() - 1;
        keys := keys[key := keys[key].(concurrency := Some(if left > 0 then left else 0))];
      }
    }
  }
}
