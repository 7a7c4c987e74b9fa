/**
 The two limiter back ends as mutable stores. Each keeps, as ghost state, the
 operations it has served, and every answer it gives is the answer of the
 idealised store that has served the same operations.
 */
module LoginStores {
  import opened Wrappers
  import opened LoginLimiter

  lemma {:induction false} RunOfAppend(cells: map<string, Cell>, mem: map<string, Counter>, ops: seq<Op>, op: Op)
    ensures RedisRun(cells, ops + [op]) == RedisStep(RedisRun(cells, ops), op).1
    ensures MemoryRun(mem, ops + [op]) == MemoryStep(MemoryRun(mem, ops), op).1
  {
    assert (ops + [op])[..|ops|] == ops;
  }

  /** Any steady run may be taken to start at its first operation. */
  lemma {:induction false} SinceFirst(ops: seq<Op>)
    requires Steady(ops) && ops != []
    ensures Since(ops, ops[0].now, ops[0].policy.Sanitized().windowSeconds)
  {
  }

  /** Redis as the scripts see it: values with an expiry time, some perhaps left by another writer. */
  class RedisStore {
    var cells: map<string, Cell>

    ghost const contents: map<string, Cell>
    ghost const start: nat
    ghost const window: nat
    ghost var history: seq<Op>

    /** The store holds what its operations made of the first contents, which were in order at `start`. */
    ghost predicate Valid()
      reads this
    {
      TtlOutlives(contents, start, window) && cells == RedisRun(contents, history)
    }

    /** The reply of a store that never expires or deletes, and started with what this one showed. */
    ghost function IdealReply(op: Op): Reply
      reads this
    {
      IdealStep(IdealRun(Shown(contents, start), history), op).0
    }

    constructor (cells: map<string, Cell>, ghost start: nat, ghost window: nat)
      requires TtlOutlives(cells, start, window)
      ensures Valid() && history == [] && contents == cells && this.start == start && this.window == window
    {
      this.cells := cells;
      this.contents := cells;
      this.start := start;
      this.window := window;
      this.history := [];
    }

    /** A step of the run, and what it means for the caller. */
    ghost method Serve(op: Op, reply: Reply)
      requires TtlOutlives(contents, start, window)
      requires reply == RedisStep(RedisRun(contents, history), op).0
      requires cells == RedisStep(RedisRun(contents, history), op).1
      modifies this`history
      ensures Valid() && history == old(history) + [op]
      ensures Steady(history) && Since(history, start, window) ==> reply == old(IdealReply(op))
    {
      RunOfAppend(contents, map[], history, op);
      if Steady(history + [op]) && Since(history + [op], start, window) {
        ShownSimulates(contents, start, window);
        ExpiryIsNeutral(contents, Shown(contents, start), start, window, history, op);
      }
      history := history + [op];
    }

    method CheckScript(key: string, now: nat, policy: Policy) returns (reply: Reply)
      requires Valid()
      modifies this
      ensures Valid() && history == old(history) + [Check(key, now, policy)]
      ensures Steady(history) && Since(history, start, window) ==> reply == old(IdealReply(Check(key, now, policy)))
    {
      reply := RunCheck(key, now, policy);
      Serve(Check(key, now, policy), reply);
    }

    method RecordScript(key: string, now: nat, policy: Policy) returns (reply: Reply)
      requires Valid()
      modifies this
      ensures Valid() && history == old(history) + [Record(key, now, policy)]
      ensures Steady(history) && Since(history, start, window) ==> reply == old(IdealReply(Record(key, now, policy)))
    {
      reply := RunRecord(key, now, policy);
      Serve(Record(key, now, policy), reply);
    }

    /** Clears a key: the next check of it reports no failures, and other keys show what they showed. */
    method Delete(key: string, ghost now: nat, ghost policy: Policy)
      requires Valid()
      modifies this
      ensures Valid() && history == old(history) + [Clear(key, now, policy)]
      ensures forall t, p :: RedisStep(cells, Check(key, t, p)).0 == NO_FAILURES
      ensures forall k, t :: k != key ==> Get(cells, k, t) == old(Get(cells, k, t))
    {
      cells := cells - {key};
      Serve(Clear(key, now, policy), NO_FAILURES);
    }

    method RunCheck(key: string, now: nat, policy: Policy) returns (reply: Reply)
      modifies this`cells
      ensures (reply, cells) == RedisStep(old(cells), Check(key, now, policy))
    {
      var p := policy.Sanitized();
      var raw := Get(cells, key, now);
      if raw.None? {
        cells := cells - {key};
        return NO_FAILURES;
      }
      if raw.value.Malformed? {
        cells := cells - {key};
        return NO_FAILURES;
      }
      var c := raw.value.counter;
      if now - c.startedAt >= p.windowSeconds {
        cells := cells - {key};
        return NO_FAILURES;
      }
      if c.count >= p.maxFailures {
        var left := c.startedAt + p.windowSeconds - now;
        return Reply(true, c.count, if left < 1 then 1 else left);
      }
      reply := Reply(false, c.count, 0);
    }

    method RunRecord(key: string, now: nat, policy: Policy) returns (reply: Reply)
      modifies this`cells
      ensures (reply, cells) == RedisStep(old(cells), Record(key, now, policy))
    {
      var p := policy.Sanitized();
      var raw := Get(cells, key, now);
      var count, startedAt := 1, now;
      if raw.Some? && raw.value.Valid? {
        var stored := raw.value.counter;
        if now - stored.startedAt < p.windowSeconds {
          count := stored.count + 1;
          startedAt := stored.startedAt;
        }
      }
      cells := cells[key := Cell(Stored.Valid(Counter(count, startedAt)), now + p.windowSeconds)];
      if count >= p.maxFailures {
        var left := startedAt + p.windowSeconds - now;
        return Reply(true, count, if left < 1 then 1 else left);
      }
      reply := Reply(false, count, 0);
    }
  }

  /** The in-process store, empty at first. */
  class MemoryStore {
    var failures: map<string, Counter>

    ghost var history: seq<Op>

    ghost predicate Valid()
      reads this
    {
      failures == MemoryRun(map[], history)
    }

    /** The reply of a store that never deletes, its count cut to 32 bits. */
    ghost function IdealReply(op: Op): Reply
      reads this
    {
      SaturatedReply(IdealStep(IdealRun(map[], history), op).0)
    }

    constructor ()
      ensures Valid() && history == []
    {
      failures := map[];
      history := [];
    }

    ghost method Serve(op: Op, reply: Reply)
      requires reply == MemoryStep(MemoryRun(map[], history), op).0
      requires failures == MemoryStep(MemoryRun(map[], history), op).1
      modifies this`history
      ensures Valid() && history == old(history) + [op]
      ensures Steady(history) ==> reply == old(IdealReply(op))
    {
      RunOfAppend(map[], map[], history, op);
      var all := history + [op];
      if Steady(all) {
        SinceFirst(all);
        MemoryIsNeutral(map[], map[], all[0].now, all[0].policy.Sanitized().windowSeconds, history, op);
      }
      history := all;
    }

    method CheckFailures(key: string, now: nat, policy: Policy) returns (reply: Reply)
      requires Valid()
      modifies this
      ensures Valid() && history == old(history) + [Check(key, now, policy)]
      ensures Steady(history) ==> reply == old(IdealReply(Check(key, now, policy)))
    {
      reply := Evaluate(Lookup(failures, key), now, policy.Sanitized());
      if reply.failures == 0 {
        failures := failures - {key};
      }
      Serve(Check(key, now, policy), reply);
    }

    method AddFailure(key: string, now: nat, policy: Policy) returns (reply: Reply)
      requires Valid()
      modifies this
      ensures Valid() && history == old(history) + [Record(key, now, policy)]
      ensures Steady(history) ==> reply == old(IdealReply(Record(key, now, policy)))
    {
      var state := RecordFailure(Lookup(failures, key), now, policy.Sanitized());
      failures := failures[key := state];
      reply := Evaluate(Some(state), now, policy.Sanitized());
      Serve(Record(key, now, policy), reply);
    }

    /** Clears a key: the next check of it reports no failures, and other keys keep their counters. */
    method Forget(key: string, ghost now: nat, ghost policy: Policy)
      requires Valid()
      modifies this
      ensures Valid() && history == old(history) + [Clear(key, now, policy)]
      ensures forall t, p :: MemoryStep(failures, Check(key, t, p)).0 == NO_FAILURES
      ensures forall k :: k != key ==> Lookup(failures, k) == old(Lookup(failures, k))
    {
      failures := failures - {key};
      Serve(Clear(key, now, policy), NO_FAILURES);
    }
  }
}
