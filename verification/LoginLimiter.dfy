/**
 The failed-login limiter: the two Redis scripts with their key expiry, the
 in-memory store, and an idealised store that never expires or forgets.

 Times are whole seconds on one clock shared by the callers and Redis.
 */
module LoginLimiter {
  import opened Wrappers
  import opened Bytes
  import Resp

  const U32_MAX: nat := 0xFFFF_FFFF

  type U32 = n: nat | n <= U32_MAX

  datatype Policy = Policy(maxFailures: U32, windowSeconds: nat) {
    function Sanitized(): (p: Policy)
      ensures p.maxFailures >= 1 && p.windowSeconds >= 1
    {
      Policy(if maxFailures < 1 then 1 else maxFailures, if windowSeconds < 1 then 1 else windowSeconds)
    }
  }

  datatype Counter = Counter(count: nat, startedAt: nat)

  /** The value under a key; another writer may have left text that does not parse. */
  datatype Stored = Malformed | Valid(counter: Counter)

  datatype Cell = Cell(stored: Stored, expiresAt: nat)

  /** What a script returns: the limited flag, the failure count, the retry delay. */
  datatype Reply = Reply(limited: bool, failures: nat, retryAfter: nat)

  datatype Op =
    | Check(key: string, now: nat, policy: Policy)
    | Record(key: string, now: nat, policy: Policy)
    | Clear(key: string, now: nat, policy: Policy)

  const NO_FAILURES: Reply := Reply(false, 0, 0)

  // ---------------------------------------------------------------- the scripts

  predicate Stale(c: Counter, now: nat, p: Policy) { now - c.startedAt >= p.windowSeconds }

  function Judge(c: Counter, now: nat, p: Policy): Reply {
    if c.count >= p.maxFailures then
      var left := c.startedAt + p.windowSeconds - now;
      Reply(true, c.count, if left < 1 then 1 else left)
    else Reply(false, c.count, 0)
  }

  /** The counter after one more failure: continues an open window, else opens one. */
  function Bump(raw: Option<Stored>, now: nat, p: Policy): Counter {
    if raw.Some? && raw.value.Valid? && !Stale(raw.value.counter, now, p)
    then Counter(raw.value.counter.count + 1, raw.value.counter.startedAt)
    else Counter(1, now)
  }

  /** Whether the check script keeps the value it found. */
  predicate Kept(raw: Option<Stored>, now: nat, p: Policy) {
    raw.Some? && raw.value.Valid? && !Stale(raw.value.counter, now, p)
  }

  function CheckReply(raw: Option<Stored>, now: nat, p: Policy): Reply {
    if Kept(raw, now, p) then Judge(raw.value.counter, now, p) else NO_FAILURES
  }

  /** `GET`: a key past its expiry is gone. */
  function Get(cells: map<string, Cell>, key: string, now: nat): Option<Stored> {
    if key in cells && now < cells[key].expiresAt then Some(cells[key].stored) else None
  }

  function RedisStep(cells: map<string, Cell>, op: Op): (Reply, map<string, Cell>) {
    var p := op.policy.Sanitized();
    var raw := Get(cells, op.key, op.now);
    match op
    case Check(key, now, _) =>
      (CheckReply(raw, now, p), if Kept(raw, now, p) then cells else cells - {key})
    case Record(key, now, _) =>
      var c := Bump(raw, now, p);
      (Judge(c, now, p), cells[key := Cell(Valid(c), now + p.windowSeconds)])
    case Clear(key, _, _) => (NO_FAILURES, cells - {key})
  }

  // ---------------------------------------------------------------- the idealised store

  function Lookup<T>(m: map<string, T>, key: string): Option<T> {
    if key in m then Some(m[key]) else None
  }

  function IdealStep(m: map<string, Stored>, op: Op): (Reply, map<string, Stored>) {
    var p := op.policy.Sanitized();
    var raw := Lookup(m, op.key);
    match op
    case Check(key, now, _) => (CheckReply(raw, now, p), m)
    case Record(key, now, _) =>
      var c := Bump(raw, now, p);
      (Judge(c, now, p), m[key := Valid(c)])
    case Clear(key, _, _) => (NO_FAILURES, m - {key})
  }

  // ---------------------------------------------------------------- the in-memory store

  function SaturatingAdd(n: nat): nat { if n >= U32_MAX then U32_MAX else n + 1 }

  function SaturatingSub(a: nat, b: nat): nat { if a < b then 0 else a - b }

  predicate ActiveState(s: Option<Counter>, now: nat, p: Policy) {
    s.Some? && SaturatingSub(now, s.value.startedAt) < p.windowSeconds
  }

  function Evaluate(s: Option<Counter>, now: nat, p: Policy): Reply {
    if !ActiveState(s, now, p) then NO_FAILURES
    else if s.value.count >= p.maxFailures then
      var left := SaturatingSub(s.value.startedAt + p.windowSeconds, now);
      Reply(true, s.value.count, if left < 1 then 1 else left)
    else Reply(false, s.value.count, 0)
  }

  function RecordFailure(s: Option<Counter>, now: nat, p: Policy): Counter {
    if ActiveState(s, now, p) then Counter(SaturatingAdd(s.value.count), s.value.startedAt) else Counter(1, now)
  }

  function MemoryStep(m: map<string, Counter>, op: Op): (Reply, map<string, Counter>) {
    var p := op.policy.Sanitized();
    var s := Lookup(m, op.key);
    match op
    case Check(key, now, _) =>
      var reply := Evaluate(s, now, p);
      (reply, if reply.failures == 0 then m - {key} else m)
    case Record(key, now, _) =>
      var c := RecordFailure(s, now, p);
      (Evaluate(Some(c), now, p), m[key := c])
    case Clear(key, _, _) => (NO_FAILURES, m - {key})
  }

  // ---------------------------------------------------------------- runs

  function RedisRun(cells: map<string, Cell>, ops: seq<Op>): map<string, Cell> {
    if ops == [] then cells else RedisStep(RedisRun(cells, ops[..|ops| - 1]), ops[|ops| - 1]).1
  }

  function IdealRun(m: map<string, Stored>, ops: seq<Op>): map<string, Stored> {
    if ops == [] then m else IdealStep(IdealRun(m, ops[..|ops| - 1]), ops[|ops| - 1]).1
  }

  function MemoryRun(m: map<string, Counter>, ops: seq<Op>): map<string, Counter> {
    if ops == [] then m else MemoryStep(MemoryRun(m, ops[..|ops| - 1]), ops[|ops| - 1]).1
  }

  /** Time does not go back and the window does not grow along the run. */
  predicate Steady(ops: seq<Op>) {
    forall i, j :: 0 <= i < j < |ops| ==>
      ops[i].now <= ops[j].now
      && ops[i].policy.Sanitized().windowSeconds >= ops[j].policy.Sanitized().windowSeconds
  }

  /** Neither goes the run back behind `start`, nor does its window exceed `window`. */
  predicate Since(ops: seq<Op>, start: nat, window: nat) {
    forall i :: 0 <= i < |ops| ==> start <= ops[i].now && ops[i].policy.Sanitized().windowSeconds <= window
  }

  /** A time and a window with which the run may go on. */
  predicate Until(ops: seq<Op>, now: nat, window: nat) {
    forall i :: 0 <= i < |ops| ==> ops[i].now <= now && ops[i].policy.Sanitized().windowSeconds >= window
  }

  // ---------------------------------------------------------------- key expiry changes no decision

  /** Outdated for every later time and every window no larger. */
  predicate Forgotten(s: Stored, now: nat, window: nat) {
    s.Malformed? || now - s.counter.startedAt >= window
  }

  /** What Redis shows at `now` is the ideal value, or the ideal value is outdated. */
  predicate Agree(shown: Option<Stored>, ideal: Option<Stored>, now: nat, window: nat) {
    shown == ideal || (shown.None? && Forgotten(ideal.value, now, window))
  }

  /** Windows started in the past, and a counter's key outlives its window. */
  predicate TtlOutlives(cells: map<string, Cell>, now: nat, window: nat) {
    forall k :: k in cells && cells[k].stored.Valid? ==>
      && cells[k].stored.counter.startedAt <= now
      && cells[k].stored.counter.startedAt + window <= cells[k].expiresAt
  }

  ghost predicate Simulates(cells: map<string, Cell>, m: map<string, Stored>, now: nat, window: nat) {
    && TtlOutlives(cells, now, window)
    && forall k :: Agree(Get(cells, k, now), Lookup(m, k), now, window)
  }

  lemma {:induction false} SimulatesLater(cells: map<string, Cell>, m: map<string, Stored>, now: nat, window: nat,
                                          later: nat, smaller: nat)
    requires Simulates(cells, m, now, window) && now <= later && smaller <= window
    ensures Simulates(cells, m, later, smaller)
  {
    forall k ensures Agree(Get(cells, k, later), Lookup(m, k), later, smaller) {
      assert Agree(Get(cells, k, now), Lookup(m, k), now, window);
    }
  }

  lemma {:induction false} StepSimulates(cells: map<string, Cell>, m: map<string, Stored>, op: Op)
    requires Simulates(cells, m, op.now, op.policy.Sanitized().windowSeconds)
    ensures RedisStep(cells, op).0 == IdealStep(m, op).0
    ensures Simulates(RedisStep(cells, op).1, IdealStep(m, op).1, op.now, op.policy.Sanitized().windowSeconds)
  {
    var now, window := op.now, op.policy.Sanitized().windowSeconds;
    assert Agree(Get(cells, op.key, now), Lookup(m, op.key), now, window);
    var cells', m' := RedisStep(cells, op).1, IdealStep(m, op).1;
    forall k ensures Agree(Get(cells', k, now), Lookup(m', k), now, window) {
      assert Agree(Get(cells, k, now), Lookup(m, k), now, window);
    }
  }

  lemma {:induction false} RunSimulates(cells: map<string, Cell>, m: map<string, Stored>, start: nat, wide: nat,
                                        ops: seq<Op>, now: nat, window: nat)
    requires Simulates(cells, m, start, wide) && start <= now && window <= wide
    requires Steady(ops) && Since(ops, start, wide) && Until(ops, now, window)
    ensures Simulates(RedisRun(cells, ops), IdealRun(m, ops), now, window)
  {
    if ops == [] {
      SimulatesLater(cells, m, start, wide, now, window);
    } else {
      var front, op := ops[..|ops| - 1], ops[|ops| - 1];
      assert ops == front + [op];
      var w := op.policy.Sanitized().windowSeconds;
      SteadyPrefix(front, op);
      SincePrefix(front, op, start, wide);
      RunSimulates(cells, m, start, wide, front, op.now, w);
      StepSimulates(RedisRun(cells, front), IdealRun(m, front), op);
      SimulatesLater(RedisRun(cells, ops), IdealRun(m, ops), op.now, w, now, window);
    }
  }

  lemma {:induction false} SteadyPrefix(ops: seq<Op>, op: Op)
    requires Steady(ops + [op])
    ensures Steady(ops) && Until(ops, op.now, op.policy.Sanitized().windowSeconds)
  {
    var all := ops + [op];
    assert all[|ops|] == op;
    forall i | 0 <= i < |ops|
      ensures ops[i].now <= op.now && ops[i].policy.Sanitized().windowSeconds >= op.policy.Sanitized().windowSeconds
    {
      assert all[i] == ops[i];
    }
    forall i, j | 0 <= i < j < |ops|
      ensures ops[i].now <= ops[j].now
           && ops[i].policy.Sanitized().windowSeconds >= ops[j].policy.Sanitized().windowSeconds
    {
      assert all[i] == ops[i] && all[j] == ops[j];
    }
  }

  lemma {:induction false} SincePrefix(ops: seq<Op>, op: Op, start: nat, window: nat)
    requires Since(ops + [op], start, window)
    ensures Since(ops, start, window) && start <= op.now && op.policy.Sanitized().windowSeconds <= window
  {
    var all := ops + [op];
    assert all[|ops|] == op;
    forall i | 0 <= i < |ops| ensures start <= ops[i].now && ops[i].policy.Sanitized().windowSeconds <= window {
      assert all[i] == ops[i];
    }
  }

  /** What a store shows at one instant, malformed values included. */
  function Shown(cells: map<string, Cell>, now: nat): map<string, Stored> {
    map k | k in cells && now < cells[k].expiresAt :: cells[k].stored
  }

  /** A store in order is simulated from the start by what it shows. */
  lemma {:induction false} ShownSimulates(cells: map<string, Cell>, now: nat, window: nat)
    requires TtlOutlives(cells, now, window)
    ensures Simulates(cells, Shown(cells, now), now, window)
  {
  }

  /**
   Key expiry and deletion on check are invisible: from any related pair of
   stores, malformed values included, after any run of checks, failures and
   clears on any keys, the next step gets the same reply as on a store that
   never expires or deletes anything outdated.
   */
  lemma {:induction false} ExpiryIsNeutral(cells: map<string, Cell>, m: map<string, Stored>, start: nat, window: nat,
                                           ops: seq<Op>, op: Op)
    requires Simulates(cells, m, start, window)
    requires Steady(ops + [op]) && Since(ops + [op], start, window)
    ensures RedisStep(RedisRun(cells, ops), op).0 == IdealStep(IdealRun(m, ops), op).0
  {
    SteadyPrefix(ops, op);
    SincePrefix(ops, op, start, window);
    RunSimulates(cells, m, start, window, ops, op.now, op.policy.Sanitized().windowSeconds);
    StepSimulates(RedisRun(cells, ops), IdealRun(m, ops), op);
  }

  /** A key's expiry goes on outliving its window over every run. */
  lemma {:induction false} RunOutlives(cells: map<string, Cell>, start: nat, window: nat, ops: seq<Op>, op: Op)
    requires TtlOutlives(cells, start, window)
    requires Steady(ops + [op]) && Since(ops + [op], start, window)
    ensures TtlOutlives(RedisRun(cells, ops), op.now, op.policy.Sanitized().windowSeconds)
  {
    ShownSimulates(cells, start, window);
    SteadyPrefix(ops, op);
    SincePrefix(ops, op, start, window);
    RunSimulates(cells, Shown(cells, start), start, window, ops, op.now, op.policy.Sanitized().windowSeconds);
  }

  /** After a failure under `p` at `t`, a check under `q` at `later` gets the same answer with and without expiry. */
  predicate Neutral(p: Policy, q: Policy, key: string, t: nat, later: nat) {
    var ops, op := [Record(key, t, p)], Check(key, later, q);
    RedisStep(RedisRun(map[], ops), op).0 == IdealStep(IdealRun(map[], ops), op).0
  }

  /** If the window grows between calls, expiry shows: an entry is gone that the new window would still count. */
  lemma {:induction false} GrowingWindowShowsExpiry(p: Policy, q: Policy, key: string, t: nat)
    requires p.Sanitized().windowSeconds < q.Sanitized().windowSeconds
    ensures !Neutral(p, q, key, t, t + p.Sanitized().windowSeconds)
  {
    var ops := [Record(key, t, p)];
    assert ops[..0] == [];
    assert RedisRun(map[], ops) == map[key := Cell(Valid(Counter(1, t)), t + p.Sanitized().windowSeconds)];
    assert IdealRun(map[], ops) == map[key := Valid(Counter(1, t))];
  }

  /** Not growing the window is therefore exactly what neutrality needs of two policies used in turn. */
  lemma {:induction false} NeutralExactlyWithoutGrowth(p: Policy, q: Policy)
    ensures (forall key, t, later | t <= later :: Neutral(p, q, key, t, later))
       <==> q.Sanitized().windowSeconds <= p.Sanitized().windowSeconds
  {
    if q.Sanitized().windowSeconds <= p.Sanitized().windowSeconds {
      forall key, t, later | t <= later ensures Neutral(p, q, key, t, later) {
        ExpiryIsNeutral(map[], map[], t, p.Sanitized().windowSeconds, [Record(key, t, p)], Check(key, later, q));
      }
    } else {
      GrowingWindowShowsExpiry(p, q, "", 0);
    }
  }

  // ---------------------------------------------------------------- both back ends decide alike

  /** The in-memory count stops at 32 bits. */
  function Saturated(n: nat): U32 { if n > U32_MAX then U32_MAX else n }

  function SaturatedReply(r: Reply): Reply { r.(failures := Saturated(r.failures)) }

  predicate MemoryAgrees(s: Option<Counter>, ideal: Option<Stored>, now: nat, window: nat) {
    match s
    case Some(c) =>
      && ideal.Some? && ideal.value.Valid?
      && ideal.value.counter.count >= 1 && ideal.value.counter.startedAt <= now
      && c == Counter(Saturated(ideal.value.counter.count), ideal.value.counter.startedAt)
    case None => ideal.None? || Forgotten(ideal.value, now, window)
  }

  ghost predicate MemorySimulates(mem: map<string, Counter>, m: map<string, Stored>, now: nat, window: nat) {
    forall k :: MemoryAgrees(Lookup(mem, k), Lookup(m, k), now, window)
  }

  lemma {:induction false} MemoryLater(mem: map<string, Counter>, m: map<string, Stored>, now: nat, window: nat,
                                       later: nat, smaller: nat)
    requires MemorySimulates(mem, m, now, window) && now <= later && smaller <= window
    ensures MemorySimulates(mem, m, later, smaller)
  {
    forall k ensures MemoryAgrees(Lookup(mem, k), Lookup(m, k), later, smaller) {
      assert MemoryAgrees(Lookup(mem, k), Lookup(m, k), now, window);
    }
  }

  lemma {:induction false} StepMemorySimulates(mem: map<string, Counter>, m: map<string, Stored>, op: Op)
    requires MemorySimulates(mem, m, op.now, op.policy.Sanitized().windowSeconds)
    ensures MemoryStep(mem, op).0 == SaturatedReply(IdealStep(m, op).0)
    ensures MemorySimulates(MemoryStep(mem, op).1, IdealStep(m, op).1, op.now, op.policy.Sanitized().windowSeconds)
  {
    var now, window := op.now, op.policy.Sanitized().windowSeconds;
    assert MemoryAgrees(Lookup(mem, op.key), Lookup(m, op.key), now, window);
    var mem', m' := MemoryStep(mem, op).1, IdealStep(m, op).1;
    forall k ensures MemoryAgrees(Lookup(mem', k), Lookup(m', k), now, window) {
      assert MemoryAgrees(Lookup(mem, k), Lookup(m, k), now, window);
    }
  }

  lemma {:induction false} RunMemorySimulates(mem: map<string, Counter>, m: map<string, Stored>, start: nat, wide: nat,
                                              ops: seq<Op>, now: nat, window: nat)
    requires MemorySimulates(mem, m, start, wide) && start <= now && window <= wide
    requires Steady(ops) && Since(ops, start, wide) && Until(ops, now, window)
    ensures MemorySimulates(MemoryRun(mem, ops), IdealRun(m, ops), now, window)
  {
    if ops == [] {
      MemoryLater(mem, m, start, wide, now, window);
    } else {
      var front, op := ops[..|ops| - 1], ops[|ops| - 1];
      assert ops == front + [op];
      var w := op.policy.Sanitized().windowSeconds;
      SteadyPrefix(front, op);
      SincePrefix(front, op, start, wide);
      RunMemorySimulates(mem, m, start, wide, front, op.now, w);
      StepMemorySimulates(MemoryRun(mem, front), IdealRun(m, front), op);
      MemoryLater(MemoryRun(mem, ops), IdealRun(m, ops), op.now, w, now, window);
    }
  }

  /** The in-memory store, too, answers like the idealised one, up to its 32-bit count. */
  lemma {:induction false} MemoryIsNeutral(mem: map<string, Counter>, m: map<string, Stored>, start: nat, window: nat,
                                           ops: seq<Op>, op: Op)
    requires MemorySimulates(mem, m, start, window)
    requires Steady(ops + [op]) && Since(ops + [op], start, window)
    ensures MemoryStep(MemoryRun(mem, ops), op).0 == SaturatedReply(IdealStep(IdealRun(m, ops), op).0)
  {
    SteadyPrefix(ops, op);
    SincePrefix(ops, op, start, window);
    RunMemorySimulates(mem, m, start, window, ops, op.now, op.policy.Sanitized().windowSeconds);
    StepMemorySimulates(MemoryRun(mem, ops), IdealRun(m, ops), op);
  }

  /**
   From any stores related to one idealised store, the Redis store and the
   in-memory store give the same decision at every step of every run: the same
   flag and delay, and the same count up to 32 bits.
   */
  lemma {:induction false} BackendsAgree(cells: map<string, Cell>, mem: map<string, Counter>, m: map<string, Stored>,
                                         start: nat, window: nat, ops: seq<Op>, op: Op)
    requires Simulates(cells, m, start, window) && MemorySimulates(mem, m, start, window)
    requires Steady(ops + [op]) && Since(ops + [op], start, window)
    ensures MemoryStep(MemoryRun(mem, ops), op).0 == SaturatedReply(RedisStep(RedisRun(cells, ops), op).0)
  {
    ExpiryIsNeutral(cells, m, start, window, ops, op);
    MemoryIsNeutral(mem, m, start, window, ops, op);
  }

  // ---------------------------------------------------------------- the reply on the wire

  datatype Decision = Decision(limited: bool, retryAfter: Option<nat>, failures: nat)

  function IntegerOf(r: Resp.Response): Result<int, Resp.ReadError> {
    if r.Integer? then Ok(r.value) else Err(Resp.InvalidResponse)
  }

  function DecisionFromResponse(r: Resp.Response): Result<Decision, Resp.ReadError> {
    if !r.Array? || |r.items| != 3 then Err(Resp.InvalidResponse)
    else
      var limited, failures, retry := IntegerOf(r.items[0]), IntegerOf(r.items[1]), IntegerOf(r.items[2]);
      if limited.Err? then Err(limited.error)
      else if failures.Err? then Err(failures.error)
      else if !(0 <= failures.value <= U32_MAX) then Err(Resp.InvalidResponse)
      else if retry.Err? then Err(retry.error)
      else if retry.value < 0 then Err(Resp.InvalidResponse)
      else
        var l := limited.value == 1;
        Ok(Decision(l, if l then Some(if retry.value < 1 then 1 else retry.value) else None, failures.value))
  }

  function FailClosed(policy: Policy): Decision {
    var p := policy.Sanitized();
    Decision(true, Some(p.windowSeconds), p.maxFailures)
  }

  /** The caller's view of whatever came back: undecodable input never admits a login. */
  function DecisionFromStream(input: seq<Byte>, policy: Policy): Decision {
    var reading := Resp.ReadResponse(input);
    if reading.Failed? then FailClosed(policy)
    else
      var d := DecisionFromResponse(reading.value);
      if d.Ok? then d.value else FailClosed(policy)
  }

  function ReplyResponse(r: Reply): Resp.Response {
    Resp.Array([Resp.Integer(if r.limited then 1 else 0), Resp.Integer(r.failures), Resp.Integer(r.retryAfter)])
  }

  /**
   A script's reply, sent over the wire and decoded, is the decision it stands
   for; a count too large for the decision's 32 bits fails closed.
   */
  lemma {:induction false} ReplySurvivesWire(r: Reply, tail: seq<Byte>, policy: Policy)
    requires r.failures <= Resp.INT_MAX && r.retryAfter <= Resp.INT_MAX
    ensures DecisionFromStream(Resp.Render(ReplyResponse(r)) + tail, policy)
         == if r.failures > U32_MAX then FailClosed(policy)
            else
              var delay := if r.retryAfter < 1 then 1 else r.retryAfter;
              Decision(r.limited, if r.limited then Some(delay) else None, r.failures)
  {
    Resp.ReadInvertsRender(ReplyResponse(r), tail);
  }

  /** Three integers, of which the first is not the limited flag and the others fit the decision. */
  predicate Admitting(r: Resp.Response) {
    && r.Array? && |r.items| == 3
    && r.items[0].Integer? && r.items[1].Integer? && r.items[2].Integer?
    && r.items[0].value != 1 && 0 <= r.items[1].value <= U32_MAX && r.items[2].value >= 0
  }

  /** Fail closed: whatever bytes arrive, a login is let through only on a complete, well-typed, unlimited reply. */
  lemma {:induction false} OnlyDecodedRepliesAdmit(input: seq<Byte>, policy: Policy)
    ensures !DecisionFromStream(input, policy).limited
       <==> Resp.ReadResponse(input).Read? && Admitting(Resp.ReadResponse(input).value)
    ensures var d := DecisionFromStream(input, policy); d.limited ==> d.retryAfter.Some? && d.retryAfter.value >= 1
  {
  }

  /** The bytes of an admitting reply: `*3`, then three `:` lines, the first not one and the others in range. */
  predicate AdmittingBytes(input: seq<Byte>) {
    && input != [] && input[0] == 42
    && var count := Resp.ReadInteger(input[1..]);
       && count.Read? && count.value == 3 && count.rest != [] && count.rest[0] == 58
       && var limited := Resp.ReadInteger(count.rest[1..]);
          && limited.Read? && limited.value != 1 && limited.rest != [] && limited.rest[0] == 58
          && var failures := Resp.ReadInteger(limited.rest[1..]);
             && failures.Read? && 0 <= failures.value <= 0xFFFF_FFFF && failures.rest != [] && failures.rest[0] == 58
             && var delay := Resp.ReadInteger(failures.rest[1..]);
                delay.Read? && delay.value >= 0
  }

  lemma {:induction false} IntegerResponse(input: seq<Byte>)
    ensures Resp.ReadResponse(input).Read? && Resp.ReadResponse(input).value.Integer?
       <==> input != [] && input[0] == 58 && Resp.ReadInteger(input[1..]).Read?
    ensures input != [] && input[0] == 58 && Resp.ReadInteger(input[1..]).Read? ==>
              var n := Resp.ReadInteger(input[1..]);
              Resp.ReadResponse(input) == Resp.Read(Resp.Integer(n.value), n.rest)
  {
  }

  lemma {:induction false} ThreeItems(input: seq<Byte>)
    ensures var a := Resp.ReadResponse(input);
            if a.Failed? then Resp.ReadItems(input, 3).Failed?
            else
              var b := Resp.ReadResponse(a.rest);
              if b.Failed? then Resp.ReadItems(input, 3).Failed?
              else
                var c := Resp.ReadResponse(b.rest);
                if c.Failed? then Resp.ReadItems(input, 3).Failed?
                else Resp.ReadItems(input, 3) == Resp.Read([a.value, b.value, c.value], c.rest)
  {
    var a := Resp.ReadResponse(input);
    if a.Read? {
      var b := Resp.ReadResponse(a.rest);
      if b.Read? {
        var c := Resp.ReadResponse(b.rest);
        if c.Read? {
          assert Resp.ReadItems(c.rest, 0) == Resp.Read([], c.rest);
          assert Resp.ReadItems(b.rest, 1) == Resp.Read([c.value] + [], c.rest);
          assert Resp.ReadItems(a.rest, 2) == Resp.Read([b.value] + ([c.value] + []), c.rest);
          assert [a.value] + ([b.value] + ([c.value] + [])) == [a.value, b.value, c.value];
        }
      }
    }
  }

  lemma {:induction false} StarResponse(input: seq<Byte>)
    requires input != [] && input[0] == 42
    ensures var n, r := Resp.ReadInteger(input[1..]), Resp.ReadResponse(input);
            if n.Failed? then r.Failed?
            else if n.value < 0 then r == Resp.Read(Resp.Array([]), n.rest)
            else
              var items := Resp.ReadItems(n.rest, n.value);
              if items.Failed? then r.Failed? else r == Resp.Read(Resp.Array(items.value), items.rest)
  {
  }

  lemma {:induction false} OtherResponse(input: seq<Byte>)
    requires input == [] || input[0] != 42
    ensures var r := Resp.ReadResponse(input); r.Read? ==> !r.value.Array?
  {
  }

  lemma {:induction false} ArrayResponse(input: seq<Byte>)
    ensures var r := Resp.ReadResponse(input);
            if input != [] && input[0] == 42 && Resp.ReadInteger(input[1..]).Read?
               && Resp.ReadInteger(input[1..]).value == 3
            then
              var items := Resp.ReadItems(Resp.ReadInteger(input[1..]).rest, 3);
              if items.Failed? then r.Failed? else r.Read? && r.value == Resp.Array(items.value)
            else !(r.Read? && r.value.Array? && |r.value.items| == 3)
  {
    if input != [] && input[0] == 42 { StarResponse(input); } else { OtherResponse(input); }
  }

  /**
   Fail closed, on the bytes: a login is let through if and only if the stream
   starts with exactly such a reply. In particular an empty stream and every
   simple, error, integer or bulk reply limits the key for the whole window.
   */
  lemma {:induction false} OnlyTheseBytesAdmit(input: seq<Byte>, policy: Policy)
    ensures !DecisionFromStream(input, policy).limited <==> AdmittingBytes(input)
    ensures input == [] || input[0] != 42 ==>
              DecisionFromStream(input, policy)
              == Decision(true, Some(if policy.windowSeconds == 0 then 1 else policy.windowSeconds),
                          if policy.maxFailures == 0 then 1 else policy.maxFailures)
  {
    OnlyDecodedRepliesAdmit(input, policy);
    ArrayResponse(input);
    if input != [] && input[0] == 42 && Resp.ReadInteger(input[1..]).Read? {
      var first := Resp.ReadInteger(input[1..]).rest;
      ThreeItems(first);
      IntegerResponse(first);
      var a := Resp.ReadResponse(first);
      if a.Read? {
        IntegerResponse(a.rest);
        var b := Resp.ReadResponse(a.rest);
        if b.Read? { IntegerResponse(b.rest); }
      }
    }
  }
}
