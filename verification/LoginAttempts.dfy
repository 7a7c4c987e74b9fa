/**
 Logins run one at a time against the Redis store: how many failures get
 through, and for how long a key stays limited.
 */
module LoginAttempts {
  import opened Wrappers
  import opened LoginLimiter
  import opened LoginPolicies

  /** How a login that passes the check ends; `Aborted` is a database error on the way. */
  datatype Verdict = Accepted | Rejected | Aborted

  datatype Attempt = Attempt(key: string, now: nat, verdict: Verdict)

  datatype Outcome = Blocked(retryAfter: nat) | InvalidCredentials | RateLimited(retryAfter: nat) | LoggedIn | Errored

  /** One login: check first, record a failure, clear on success; an error does neither. */
  function LoginStep(cells: map<string, Cell>, a: Attempt, policy: Policy): (Outcome, map<string, Cell>) {
    var check := RedisStep(cells, Check(a.key, a.now, policy));
    if check.0.limited then (Blocked(check.0.retryAfter), check.1)
    else if a.verdict == Accepted then (LoggedIn, RedisStep(check.1, Clear(a.key, a.now, policy)).1)
    else if a.verdict == Aborted then (Errored, check.1)
    else
      var record := RedisStep(check.1, Record(a.key, a.now, policy));
      (if record.0.limited then RateLimited(record.0.retryAfter) else InvalidCredentials, record.1)
  }

  function LoginRun(cells: map<string, Cell>, attempts: seq<Attempt>, policy: Policy): map<string, Cell> {
    if attempts == [] then cells
    else LoginStep(LoginRun(cells, attempts[..|attempts| - 1], policy), attempts[|attempts| - 1], policy).1
  }

  // ---------------------------------------------------------------- failures that got through

  /** A failed attempt that passed the check, and the start of the failure window it was counted in. */
  datatype Pass = Pass(at: nat, start: nat)

  predicate Passes(cells: map<string, Cell>, a: Attempt, key: string, policy: Policy) {
    a.key == key && a.verdict == Rejected && !LoginStep(cells, a, policy).0.Blocked?
  }

  function StartOf(cells: map<string, Cell>, key: string): nat {
    if key in cells && cells[key].stored.Valid? then cells[key].stored.counter.startedAt else 0
  }

  /** The failures of one key that got through, in order, on a store that held `cells` at first. */
  function Passed(cells: map<string, Cell>, attempts: seq<Attempt>, key: string, policy: Policy): seq<Pass> {
    if attempts == [] then []
    else
      var front, a := attempts[..|attempts| - 1], attempts[|attempts| - 1];
      var reached := LoginRun(cells, front, policy);
      Passed(cells, front, key, policy)
      + if Passes(reached, a, key, policy) then [Pass(a.now, StartOf(LoginStep(reached, a, policy).1, key))] else []
  }

  function CountIn(log: seq<Pass>, start: nat): nat {
    if log == [] then 0 else CountIn(log[..|log| - 1], start) + if log[|log| - 1].start == start then 1 else 0
  }

  lemma {:induction false} CountAppend(log: seq<Pass>, p: Pass, start: nat)
    ensures CountIn(log + [p], start) == CountIn(log, start) + if p.start == start then 1 else 0
  {
    assert (log + [p])[..|log|] == log;
  }

  lemma {:induction false} CountNone(log: seq<Pass>, start: nat)
    requires forall i :: 0 <= i < |log| ==> log[i].start != start
    ensures CountIn(log, start) == 0
  {
    if log != [] {
      CountNone(log[..|log| - 1], start);
    }
  }

  // ---------------------------------------------------------------- the invariant

  predicate Inside(p: Pass, window: nat) { p.start <= p.at < p.start + window }

  /** In the same window, or in an earlier one that does not overlap. */
  predicate SameOrBefore(a: Pass, b: Pass, window: nat) { a.start == b.start || a.start + window <= b.start }

  /** Every pass lies in its window, and different windows do not overlap. */
  predicate Windowed(log: seq<Pass>, window: nat) {
    && (forall i :: 0 <= i < |log| ==> Inside(log[i], window))
    && (forall i, j {:trigger SameOrBefore(log[i], log[j], window)} ::
          0 <= i < j < |log| ==> SameOrBefore(log[i], log[j], window))
  }

  /** The failures a store had already counted, at first, in the window that started at `start`. */
  function Earlier(base: Option<Counter>, start: nat): nat {
    if base.Some? && base.value.startedAt == start then base.value.count else 0
  }

  /** A window with passes has no more of them than the earlier failures leave room for. */
  ghost predicate Bounded(base: Option<Counter>, log: seq<Pass>, limit: nat) {
    forall s :: CountIn(log, s) > 0 ==> CountIn(log, s) + Earlier(base, s) <= limit
  }

  /** The window `s` is `start` or over before it. */
  predicate EndsBy(s: nat, start: nat, window: nat) { s == start || s + window <= start }

  /** All windows of the log, and the one found at first, are over at `now`. */
  predicate AllOver(base: Option<Counter>, log: seq<Pass>, now: nat, window: nat) {
    && (base.Some? ==> base.value.startedAt + window <= now)
    && forall i :: 0 <= i < |log| ==> log[i].start + window <= now
  }

  /** The stored counter is what its window held at first plus the passes of that window; there is no later window. */
  predicate Tracks(base: Option<Counter>, cells: map<string, Cell>, key: string, log: seq<Pass>, now: nat, p: Policy) {
    match Get(cells, key, now)
    case None => AllOver(base, log, now, p.windowSeconds)
    case Some(Malformed) => AllOver(base, log, now, p.windowSeconds)
    case Some(Valid(c)) =>
      && c.count == CountIn(log, c.startedAt) + Earlier(base, c.startedAt)
      && c.startedAt <= now
      && (base.Some? ==> EndsBy(base.value.startedAt, c.startedAt, p.windowSeconds))
      && forall i :: 0 <= i < |log| ==> EndsBy(log[i].start, c.startedAt, p.windowSeconds)
  }

  ghost predicate Inv(base: Option<Counter>, cells: map<string, Cell>, key: string, log: seq<Pass>, now: nat,
                      p: Policy) {
    && TtlOutlives(cells, now, p.windowSeconds)
    && Windowed(log, p.windowSeconds)
    && Bounded(base, log, p.maxFailures)
    && Tracks(base, cells, key, log, now, p)
  }

  lemma {:induction false} InvLater(base: Option<Counter>, cells: map<string, Cell>, key: string, log: seq<Pass>,
                                    now: nat, later: nat, p: Policy)
    requires Inv(base, cells, key, log, now, p) && now <= later
    ensures Inv(base, cells, key, log, later, p)
  {
  }

  lemma {:induction false} OtherKeyKeepsInv(base: Option<Counter>, cells: map<string, Cell>, a: Attempt, key: string,
                                            log: seq<Pass>, policy: Policy)
    requires Inv(base, cells, key, log, a.now, policy.Sanitized()) && a.key != key
    ensures Inv(base, LoginStep(cells, a, policy).1, key, log, a.now, policy.Sanitized())
  {
    var after := LoginStep(cells, a, policy).1;
    assert Get(after, key, a.now) == Get(cells, key, a.now);
  }

  /** A login that only checks, being blocked or aborted, changes nothing that is shown. */
  lemma {:induction false} CheckKeepsInv(base: Option<Counter>, cells: map<string, Cell>, a: Attempt, log: seq<Pass>,
                                           policy: Policy)
    requires Inv(base, cells, a.key, log, a.now, policy.Sanitized())
    requires LoginStep(cells, a, policy).0.Blocked? || a.verdict == Aborted
    ensures Inv(base, LoginStep(cells, a, policy).1, a.key, log, a.now, policy.Sanitized())
  {
  }

  /** What a failed attempt that passes the check leaves behind. */
  lemma {:induction false} PassStores(cells: map<string, Cell>, a: Attempt, policy: Policy)
    requires Passes(cells, a, a.key, policy)
    ensures var p, raw := policy.Sanitized(), Get(cells, a.key, a.now);
            var c := Bump(raw, a.now, p);
            && (Kept(raw, a.now, p) ==> raw.value.counter.count < p.maxFailures)
            && StartOf(LoginStep(cells, a, policy).1, a.key) == c.startedAt
            && LoginStep(cells, a, policy).1 == cells[a.key := Cell(Valid(c), a.now + p.windowSeconds)]
  {
    var p, raw := policy.Sanitized(), Get(cells, a.key, a.now);
    var check := RedisStep(cells, Check(a.key, a.now, policy)).1;
    var c := Bump(raw, a.now, p);
    assert Bump(Get(check, a.key, a.now), a.now, p) == c;
    var cell := Cell(Valid(c), a.now + p.windowSeconds);
    assert check[a.key := cell] == cells[a.key := cell];
  }

  lemma {:induction false} ExtendWindowed(log: seq<Pass>, pass: Pass, window: nat)
    requires Windowed(log, window)
    requires pass.start <= pass.at < pass.start + window
    requires forall i :: 0 <= i < |log| ==> EndsBy(log[i].start, pass.start, window)
    ensures Windowed(log + [pass], window)
  {
    var all := log + [pass];
    forall i, j | 0 <= i < j < |all| ensures SameOrBefore(all[i], all[j], window) {
      if j < |log| {
        assert SameOrBefore(log[i], log[j], window);
      }
    }
  }

  lemma {:induction false} ExtendBounded(base: Option<Counter>, log: seq<Pass>, pass: Pass, limit: nat)
    requires Bounded(base, log, limit) && CountIn(log, pass.start) + Earlier(base, pass.start) < limit
    ensures Bounded(base, log + [pass], limit)
  {
    forall s | CountIn(log + [pass], s) > 0 ensures CountIn(log + [pass], s) + Earlier(base, s) <= limit {
      CountAppend(log, pass, s);
    }
  }

  lemma {:induction false} PassTracks(base: Option<Counter>, cells: map<string, Cell>, a: Attempt, log: seq<Pass>,
                                      p: Policy)
    requires p.windowSeconds >= 1 && Tracks(base, cells, a.key, log, a.now, p)
    ensures var c := Bump(Get(cells, a.key, a.now), a.now, p);
            && c.startedAt <= a.now < c.startedAt + p.windowSeconds
            && c.count == CountIn(log, c.startedAt) + Earlier(base, c.startedAt) + 1
            && (base.Some? ==> EndsBy(base.value.startedAt, c.startedAt, p.windowSeconds))
            && forall i :: 0 <= i < |log| ==> EndsBy(log[i].start, c.startedAt, p.windowSeconds)
  {
    if !Kept(Get(cells, a.key, a.now), a.now, p) {
      assert AllOver(base, log, a.now, p.windowSeconds);
      CountNone(log, a.now);
    }
  }

  lemma {:induction false} ExtendTracks(base: Option<Counter>, cells: map<string, Cell>, key: string, c: Counter,
                                        log: seq<Pass>, pass: Pass, p: Policy)
    requires p.windowSeconds >= 1 && c.startedAt == pass.start <= pass.at
    requires c.count == CountIn(log, c.startedAt) + Earlier(base, c.startedAt) + 1
    requires base.Some? ==> EndsBy(base.value.startedAt, c.startedAt, p.windowSeconds)
    requires forall i :: 0 <= i < |log| ==> EndsBy(log[i].start, c.startedAt, p.windowSeconds)
    ensures Tracks(base, cells[key := Cell(Valid(c), pass.at + p.windowSeconds)], key, log + [pass], pass.at, p)
  {
    CountAppend(log, pass, c.startedAt);
    assert Get(cells[key := Cell(Valid(c), pass.at + p.windowSeconds)], key, pass.at) == Some(Valid(c));
  }

  /** Counting one more failure, while there is room, keeps the invariant. */
  lemma {:induction false} CountKeepsInv(base: Option<Counter>, cells: map<string, Cell>, a: Attempt, log: seq<Pass>,
                                         p: Policy, c: Counter)
    requires p.maxFailures >= 1 && p.windowSeconds >= 1 && Inv(base, cells, a.key, log, a.now, p)
    requires c == Bump(Get(cells, a.key, a.now), a.now, p) && c.count <= p.maxFailures
    ensures Inv(base, cells[a.key := Cell(Valid(c), a.now + p.windowSeconds)], a.key,
                log + [Pass(a.now, c.startedAt)], a.now, p)
  {
    var pass := Pass(a.now, c.startedAt);
    PassTracks(base, cells, a, log, p);
    ExtendWindowed(log, pass, p.windowSeconds);
    ExtendBounded(base, log, pass, p.maxFailures);
    ExtendTracks(base, cells, a.key, c, log, pass, p);
  }

  lemma {:induction false} PassKeepsInv(base: Option<Counter>, cells: map<string, Cell>, a: Attempt, log: seq<Pass>,
                                        policy: Policy)
    requires Inv(base, cells, a.key, log, a.now, policy.Sanitized())
    requires Passes(cells, a, a.key, policy)
    ensures var after := LoginStep(cells, a, policy).1;
            Inv(base, after, a.key, log + [Pass(a.now, StartOf(after, a.key))], a.now, policy.Sanitized())
  {
    PassStores(cells, a, policy);
    var c := Bump(Get(cells, a.key, a.now), a.now, policy.Sanitized());
    CountKeepsInv(base, cells, a, log, policy.Sanitized(), c);
  }

  predicate Ordered(attempts: seq<Attempt>) {
    forall i, j :: 0 <= i < j < |attempts| ==> attempts[i].now <= attempts[j].now
  }

  predicate NeverSucceeds(attempts: seq<Attempt>, key: string) {
    forall i :: 0 <= i < |attempts| && attempts[i].key == key ==> attempts[i].verdict != Accepted
  }

  /** The counter that a store shows under a key at first, if it shows a well-formed one. */
  function Base(cells: map<string, Cell>, key: string, start: nat): Option<Counter> {
    match Get(cells, key, start)
    case Some(Valid(c)) => Some(c)
    case Some(Malformed) => None
    case None => None
  }

  lemma {:induction false} RunKeepsInv(cells: map<string, Cell>, start: nat, attempts: seq<Attempt>, key: string,
                                       policy: Policy, now: nat)
    requires TtlOutlives(cells, start, policy.Sanitized().windowSeconds)
    requires Ordered(attempts) && NeverSucceeds(attempts, key)
    requires start <= now && forall i :: 0 <= i < |attempts| ==> start <= attempts[i].now <= now
    ensures Inv(Base(cells, key, start), LoginRun(cells, attempts, policy), key,
                Passed(cells, attempts, key, policy), now, policy.Sanitized())
  {
    var base, p := Base(cells, key, start), policy.Sanitized();
    if attempts == [] {
      InvLater(base, cells, key, [], start, now, p);
    } else {
      var front, a := attempts[..|attempts| - 1], attempts[|attempts| - 1];
      var reached, log := LoginRun(cells, front, policy), Passed(cells, front, key, policy);
      forall i | 0 <= i < |front| ensures start <= front[i].now <= a.now { assert front[i] == attempts[i]; }
      RunKeepsInv(cells, start, front, key, policy, a.now);
      if a.key != key {
        OtherKeyKeepsInv(base, reached, a, key, log, policy);
      } else if Passes(reached, a, key, policy) {
        PassKeepsInv(base, reached, a, log, policy);
      } else {
        CheckKeepsInv(base, reached, a, log, policy);
      }
      assert log + [] == log;
      InvLater(base, LoginRun(cells, attempts, policy), key, Passed(cells, attempts, key, policy), a.now, now, p);
    }
  }

  /**
   From any store in order, over every run of logins for any keys in which
   this key never succeeds: a failure window lets through no more failures than
   `max_failures` less what it held at first, each inside its window, and any
   pass inside a window is counted in that window.
   */
  lemma {:induction false} FailuresPerWindowAreBounded(cells: map<string, Cell>, start: nat, attempts: seq<Attempt>,
                                                       key: string, policy: Policy, s: nat)
    requires TtlOutlives(cells, start, policy.Sanitized().windowSeconds)
    requires Ordered(attempts) && NeverSucceeds(attempts, key)
    requires forall i :: 0 <= i < |attempts| ==> start <= attempts[i].now
    ensures var log, window := Passed(cells, attempts, key, policy), Length(policy);
            && (CountIn(log, s) > 0 ==> CountIn(log, s) + Earlier(Base(cells, key, start), s) <= Limit(policy))
            && Windowed(log, window)
            && (forall i, j | 0 <= i < |log| && 0 <= j < |log| ::
                  log[i].start <= log[j].at < log[i].start + window ==> log[j].start == log[i].start)
  {
    var now := if attempts == [] then start else attempts[|attempts| - 1].now;
    RunKeepsInv(cells, start, attempts, key, policy, now);
    var log, p := Passed(cells, attempts, key, policy), policy.Sanitized();
    forall i, j | 0 <= i < |log| && 0 <= j < |log| && log[i].start <= log[j].at < log[i].start + p.windowSeconds
      ensures log[j].start == log[i].start
    {
      if i < j {
        assert SameOrBefore(log[i], log[j], p.windowSeconds);
      } else if j < i {
        assert SameOrBefore(log[j], log[i], p.windowSeconds);
      }
    }
  }

  /** How many failures the store shows for a key in the window that is open, and when that window started. */
  function Open(cells: map<string, Cell>, key: string, now: nat, policy: Policy): (nat, nat) {
    match Get(cells, key, now)
    case Some(Valid(c)) => if now < c.startedAt + Length(policy) then (c.count, c.startedAt) else (0, now)
    case Some(Malformed) => (0, now)
    case None => (0, now)
  }

  /**
   How a login ends: blocked, with the time left of the window, if and only if
   the open window holds the policy's number of failures; otherwise accepted,
   errored, or rejected, and the rejection that fills the window already says
   how long to wait.
   */
  lemma {:induction false} LoginEnds(cells: map<string, Cell>, a: Attempt, policy: Policy)
    requires TtlOutlives(cells, a.now, policy.Sanitized().windowSeconds)
    ensures var (count, start) := Open(cells, a.key, a.now, policy);
            var wait := start + Length(policy) - a.now;
            LoginStep(cells, a, policy).0
            == if count >= Limit(policy) then Blocked(wait)
               else if a.verdict == Accepted then LoggedIn
               else if a.verdict == Aborted then Errored
               else if count + 1 >= Limit(policy) then RateLimited(wait)
               else InvalidCredentials
  {
  }

  // ---------------------------------------------------------------- how long a key stays limited

  /** The key is limited until exactly `end`. */
  predicate LimitedUntil(cells: map<string, Cell>, key: string, end: nat, p: Policy) {
    && key in cells
    && cells[key].stored.Valid?
    && var c := cells[key].stored.counter;
       && c.startedAt + p.windowSeconds == end
       && c.count >= p.maxFailures
       && end <= cells[key].expiresAt
  }

  lemma {:induction false} StepKeepsLimit(cells: map<string, Cell>, op: Op, key: string, end: nat, policy: Policy)
    requires LimitedUntil(cells, key, end, policy.Sanitized())
    requires TtlOutlives(cells, op.now, policy.Sanitized().windowSeconds)
    requires op.policy == policy && op.now < end && !(op.Clear? && op.key == key)
    ensures LimitedUntil(RedisStep(cells, op).1, key, end, policy.Sanitized())
    ensures TtlOutlives(RedisStep(cells, op).1, op.now, policy.Sanitized().windowSeconds)
  {
  }

  /** Operations at times from `from` on, in order, before `end`, that do not clear the key. */
  predicate Quiet(ops: seq<Op>, key: string, from: nat, end: nat, policy: Policy) {
    && (forall i :: 0 <= i < |ops| ==>
          ops[i].policy == policy && from <= ops[i].now < end && !(ops[i].Clear? && ops[i].key == key))
    && (forall i, j :: 0 <= i < j < |ops| ==> ops[i].now <= ops[j].now)
  }

  lemma {:induction false} RunKeepsLimit(cells: map<string, Cell>, ops: seq<Op>, key: string, from: nat, end: nat,
                                         policy: Policy, now: nat)
    requires LimitedUntil(cells, key, end, policy.Sanitized())
    requires TtlOutlives(cells, from, policy.Sanitized().windowSeconds)
    requires Quiet(ops, key, from, end, policy)
    requires from <= now && forall i :: 0 <= i < |ops| ==> ops[i].now <= now
    ensures LimitedUntil(RedisRun(cells, ops), key, end, policy.Sanitized())
    ensures TtlOutlives(RedisRun(cells, ops), now, policy.Sanitized().windowSeconds)
  {
    if ops != [] {
      var front, op := ops[..|ops| - 1], ops[|ops| - 1];
      RunKeepsLimit(cells, front, key, from, end, policy, op.now);
      StepKeepsLimit(RedisRun(cells, front), op, key, end, policy);
    }
  }

  lemma {:induction false} LimitDecides(cells: map<string, Cell>, key: string, end: nat, policy: Policy, later: nat)
    requires LimitedUntil(cells, key, end, policy.Sanitized())
    ensures var reply := RedisStep(cells, Check(key, later, policy)).0;
            && (reply.limited <==> later < end)
            && (reply.limited ==> reply.retryAfter == end - later)
            && (!reply.limited ==> reply == NO_FAILURES)
  {
  }

  /** A reply that limits the key, to a check or to a recorded failure, announces when the limit ends. */
  lemma {:induction false} ReplyLimits(cells: map<string, Cell>, first: Op)
    requires first.Check? || first.Record?
    requires TtlOutlives(cells, first.now, first.policy.Sanitized().windowSeconds)
    ensures var p, answer := first.policy.Sanitized(), RedisStep(cells, first);
            && TtlOutlives(answer.1, first.now, p.windowSeconds)
            && (answer.0.limited ==> LimitedUntil(answer.1, first.key, first.now + answer.0.retryAfter, p))
  {
  }

  /**
   Exact retry time. From any store in order and after any run on it, once the
   reply to a check or to a recorded failure reports a key limited with some
   retry delay, then whatever checks and failures follow on any keys before
   that delay is over, the key is limited at a later time if and only if that
   time is before the announced one, and the announced delay counts down to it.
   */
  lemma {:induction false} LimitedForExactlyRetryAfter(cells: map<string, Cell>, start: nat, window: nat,
                                                       history: seq<Op>, first: Op, ops: seq<Op>, later: nat)
    requires TtlOutlives(cells, start, window)
    requires Steady(history + [first]) && Since(history + [first], start, window)
    requires first.Check? || first.Record?
    ensures var answer := RedisStep(RedisRun(cells, history), first);
            var end := first.now + answer.0.retryAfter;
            var reply := RedisStep(RedisRun(answer.1, ops), Check(first.key, later, first.policy)).0;
            answer.0.limited && Quiet(ops, first.key, first.now, end, first.policy) ==>
              && (reply.limited <==> later < end)
              && (reply.limited ==> reply.retryAfter == end - later)
              && (!reply.limited ==> reply == NO_FAILURES)
  {
    var reached := RedisRun(cells, history);
    RunOutlives(cells, start, window, history, first);
    ReplyLimits(reached, first);
    var answer := RedisStep(reached, first);
    var end := first.now + answer.0.retryAfter;
    if answer.0.limited && Quiet(ops, first.key, first.now, end, first.policy) {
      var last := if ops == [] then first.now else ops[|ops| - 1].now;
      RunKeepsLimit(answer.1, ops, first.key, first.now, end, first.policy, last);
      LimitDecides(RedisRun(answer.1, ops), first.key, end, first.policy, later);
    }
  }
}
