/** The limit and the window of a policy, read off its own fields. */
module LoginPolicies {
  import opened Wrappers
  import opened LoginLimiter

  /** The number of failures at which a key is limited; a policy of zero counts as one. */
  function Limit(policy: Policy): nat { if policy.maxFailures == 0 then 1 else policy.maxFailures }

  /** How long a failure window lasts; zero seconds count as one. */
  function Length(policy: Policy): nat { if policy.windowSeconds == 0 then 1 else policy.windowSeconds }

  /** Failures of one key under one policy, in order, all within one window of the first. */
  predicate Burst(ops: seq<Op>, key: string, policy: Policy) {
    && ops != []
    && (forall i :: 0 <= i < |ops| ==> ops[i] == Record(key, ops[i].now, policy))
    && (forall i :: 0 <= i < |ops| ==> ops[0].now <= ops[i].now < ops[0].now + Length(policy))
    && (forall i, j :: 0 <= i < j < |ops| ==> ops[i].now <= ops[j].now)
  }

  /** What a reply says after `count` failures of a window that ends at `end`. */
  predicate Says(reply: Reply, count: nat, end: nat, now: nat, policy: Policy) {
    && reply.failures == count
    && (reply.limited <==> count >= Limit(policy))
    && reply.retryAfter == if reply.limited then end - now else 0
  }

  lemma {:induction false} BurstPrefix(ops: seq<Op>, key: string, policy: Policy)
    requires Burst(ops, key, policy) && |ops| > 1
    ensures Burst(ops[..|ops| - 1], key, policy) && ops[..|ops| - 1][0] == ops[0]
  {
    var front := ops[..|ops| - 1];
    forall i | 0 <= i < |front| ensures front[i] == ops[i] { }
  }

  lemma {:induction false} BurstStep(cells: map<string, Cell>, count: nat, start: nat, expiresAt: nat, op: Op)
    requires op.Record? && start <= op.now < start + Length(op.policy) && op.now < expiresAt
    requires op.key in cells && cells[op.key] == Cell(Valid(Counter(count, start)), expiresAt)
    ensures var step := RedisStep(cells, op);
            && Says(step.0, count + 1, start + Length(op.policy), op.now, op.policy)
            && step.1 == cells[op.key := Cell(Valid(Counter(count + 1, start)), op.now + Length(op.policy))]
  {
  }

  lemma {:induction false} FirstStep(cells: map<string, Cell>, op: Op)
    requires op.Record? && op.key !in cells
    ensures var step := RedisStep(cells, op);
            && Says(step.0, 1, op.now + Length(op.policy), op.now, op.policy)
            && step.1 == cells[op.key := Cell(Valid(Counter(1, op.now)), op.now + Length(op.policy))]
  {
  }

  lemma {:induction false} Overwrite(cells: map<string, Cell>, key: string, a: Cell, b: Cell)
    ensures cells[key := a][key := b] == cells[key := b]
  {
  }

  /** The store after a burst, and the reply to its last failure. */
  lemma {:induction false} BurstCounts(cells: map<string, Cell>, ops: seq<Op>, key: string, policy: Policy)
    requires Burst(ops, key, policy) && key !in cells
    ensures var last, end := ops[|ops| - 1], ops[0].now + Length(policy);
            && Says(RedisStep(RedisRun(cells, ops[..|ops| - 1]), last).0, |ops|, end, last.now, policy)
            && RedisRun(cells, ops) == cells[key := Cell(Valid(Counter(|ops|, ops[0].now)), last.now + Length(policy))]
  {
    var front, last := ops[..|ops| - 1], ops[|ops| - 1];
    if |ops| == 1 {
      FirstStep(cells, last);
    } else {
      BurstPrefix(ops, key, policy);
      BurstCounts(cells, front, key, policy);
      var before := front[|front| - 1];
      assert before == ops[|ops| - 2];
      var expiresAt := before.now + Length(policy);
      BurstStep(RedisRun(cells, front), |front|, ops[0].now, expiresAt, last);
      Overwrite(cells, key, Cell(Valid(Counter(|front|, ops[0].now)), expiresAt),
                Cell(Valid(Counter(|ops|, ops[0].now)), last.now + Length(policy)));
    }
  }

  /**
   The k-th failure of a window is answered as limited if and only if `k` has
   reached the policy's own `max_failures`, neither earlier nor later, with the
   time left of the policy's own window; and a check afterwards says the same
   until the window ends and nothing from then on.
   */
  lemma {:induction false} KthFailureLimits(cells: map<string, Cell>, ops: seq<Op>, key: string, policy: Policy,
                                            later: nat)
    requires Burst(ops, key, policy) && key !in cells && ops[|ops| - 1].now <= later
    ensures var k, last, end := |ops|, ops[|ops| - 1], ops[0].now + Length(policy);
            && Says(RedisStep(RedisRun(cells, ops[..k - 1]), last).0, k, end, last.now, policy)
            && var check := RedisStep(RedisRun(cells, ops), Check(key, later, policy)).0;
               if later < end then Says(check, k, end, later, policy) else check == Reply(false, 0, 0)
  {
    BurstCounts(cells, ops, key, policy);
  }

  /** The in-memory store answers the same, its count cut to 32 bits. */
  lemma {:induction false} KthFailureLimitsInMemory(ops: seq<Op>, key: string, policy: Policy)
    requires Burst(ops, key, policy) && |ops| <= 0xFFFF_FFFF
    ensures var last, end := ops[|ops| - 1], ops[0].now + Length(policy);
            Says(MemoryStep(MemoryRun(map[], ops[..|ops| - 1]), last).0, |ops|, end, last.now, policy)
  {
    var front, last := ops[..|ops| - 1], ops[|ops| - 1];
    assert ops == front + [last];
    BurstCounts(map[], ops, key, policy);
    BackendsAgree(map[], map[], map[], ops[0].now, Length(policy), front, last);
  }

  /** If the clock goes back behind the start of a window, the in-memory store goes on counting that window. */
  lemma {:induction false} ClockGoesBack(mem: map<string, Counter>, key: string, now: nat, policy: Policy)
    requires key in mem && now < mem[key].startedAt && 1 <= mem[key].count < U32_MAX
    ensures var c, end := mem[key], mem[key].startedAt + Length(policy);
            && Says(MemoryStep(mem, Check(key, now, policy)).0, c.count, end, now, policy)
            && Says(MemoryStep(mem, Record(key, now, policy)).0, c.count + 1, end, now, policy)
  {
  }
}
