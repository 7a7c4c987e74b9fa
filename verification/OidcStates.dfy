/**
 The store of pending OIDC authorization states: bounded, expiring, single
 use, with eviction of the entry that expires first.
 */
module OidcStates {
  const STATE_TTL_SECONDS: nat := 300
  const MAX_ENTRIES: nat := 2048

  datatype Pending = Pending(provider: string, nonce: string, expiresAt: nat)

  datatype Validation = Missing | Expired | Valid

  type Store = map<string, Pending>

  // ---------------------------------------------------------------- one operation

  /** Keys in the order of the store's map. */
  predicate LexLess(a: string, b: string) {
    if b == "" then false
    else if a == "" then true
    else if a[0] != b[0] then a[0] < b[0]
    else LexLess(a[1..], b[1..])
  }

  /** `a` is evicted rather than `b`. */
  predicate Before(states: Store, a: string, b: string)
    requires a in states && b in states
  {
    states[a].expiresAt < states[b].expiresAt || (states[a].expiresAt == states[b].expiresAt && LexLess(a, b))
  }

  /** No entry expires earlier, and among equals it has the smallest key. */
  predicate IsOldest(states: Store, k: string) {
    k in states && forall j :: j in states && j != k ==> Before(states, k, j)
  }

  function Pruned(states: Store, now: nat): (r: Store)
    ensures forall k :: k in r <==> k in states && states[k].expiresAt > now
    ensures forall k :: k in r ==> r[k] == states[k]
  {
    map k | k in states && states[k].expiresAt > now :: states[k]
  }

  /** What an insertion may leave: expired entries go, and if the store is still full, the oldest entry goes. */
  ghost predicate Inserted(before: Store, state: string, record: Pending, now: nat, after: Store) {
    var live := Pruned(before, now);
    if |live| >= MAX_ENTRIES
    then exists k :: IsOldest(live, k) && after == (live - {k})[state := record]
    else after == live[state := record]
  }

  function Validate(states: Store, state: string, provider: string, now: nat): Validation {
    if state !in states then Missing
    else
      var record := states[state];
      if record.expiresAt <= now then Expired
      else if record.provider != provider || record.nonce == "" then Missing
      else Valid
  }

  lemma {:induction false} LexTotal(a: string, b: string)
    requires a != b
    ensures LexLess(a, b) != LexLess(b, a)
  {
    if a != "" && b != "" && a[0] == b[0] {
      assert a == [a[0]] + a[1..] && b == [b[0]] + b[1..];
      LexTotal(a[1..], b[1..]);
    }
  }

  lemma {:induction false} LexTransitive(a: string, b: string, c: string)
    ensures LexLess(a, b) && LexLess(b, c) ==> LexLess(a, c)
  {
    if a != "" && b != "" && c != "" && a[0] == b[0] == c[0] {
      LexTransitive(a[1..], b[1..], c[1..]);
    }
  }

  /** The map's order: at the first difference the smaller character decides, and a prefix comes first. */
  lemma {:induction false} LexDecides(common: string, a: char, x: string, b: char, y: string)
    requires a < b
    ensures LexLess(common + [a] + x, common + [b] + y)
    ensures LexLess(common, common + [a] + x)
    ensures !LexLess(common + [a] + x, common)
  {
    var s, t := common + [a] + x, common + [b] + y;
    if common != "" {
      var rest := common[1..];
      assert s[1..] == rest + [a] + x && t[1..] == rest + [b] + y;
      LexDecides(rest, a, x, b, y);
    }
  }

  /** The oldest entry expires no later than any other, and comes first of those that expire with it. */
  lemma {:induction false} OldestExpiresFirst(states: Store, k: string, j: string)
    requires IsOldest(states, k) && j in states && j != k
    ensures states[k].expiresAt <= states[j].expiresAt
    ensures states[k].expiresAt == states[j].expiresAt ==> LexLess(k, j)
  {
  }

  /** A store that is not empty has an oldest entry. */
  lemma {:induction false} OldestExists(states: Store) returns (k: string)
    requires states != map[]
    ensures IsOldest(states, k)
    decreases |states|
  {
    k :| k in states;
    var others := states - {k};
    if others != map[] {
      DropSize(states, k);
      var j := OldestExists(others);
      LexTotal(k, j);
      assert forall i :: i in states && i != k && i != j ==> i in others && Before(others, j, i);
      if Before(states, j, k) {
        k := j;
      } else {
        forall i | i in states && i != k ensures Before(states, k, i) {
          LexTransitive(k, j, i);
        }
      }
    } else {
      assert forall i :: i in states && i != k ==> i in others;
    }
  }

  // ---------------------------------------------------------------- runs

  datatype Event =
    | Insertion(state: string, record: Pending, now: nat)
    | Callback(state: string, provider: string, now: nat)

  /** The stores before and after each event of a run that starts empty. */
  ghost predicate IsRun(stores: seq<Store>, events: seq<Event>) {
    && |stores| == |events| + 1
    && stores[0] == map[]
    && forall i {:trigger Step(stores, events, i)} :: 0 <= i < |events| ==> Step(stores, events, i)
  }

  ghost predicate Step(stores: seq<Store>, events: seq<Event>, i: nat)
    requires i < |events| && i + 1 < |stores|
  {
    match events[i]
    case Insertion(state, record, now) => Inserted(stores[i], state, record, now, stores[i + 1])
    case Callback(state, _, _) => stores[i + 1] == stores[i] - {state}
  }

  predicate Ordered(events: seq<Event>) {
    forall i, j :: 0 <= i < j < |events| ==> events[i].now <= events[j].now
  }

  /** No event strictly between `i` and `j` mentions the state. */
  predicate Untouched(events: seq<Event>, state: string, i: nat, j: nat)
    requires j <= |events|
  {
    forall k :: i < k < j ==> events[k].state != state
  }

  lemma {:induction false} PrunedSize(states: Store, now: nat)
    ensures |Pruned(states, now)| <= |states|
  {
    SubsetSize(Pruned(states, now).Keys, states.Keys);
  }

  lemma {:induction false} SubsetSize<T>(a: set<T>, b: set<T>)
    requires a <= b
    ensures |a| <= |b|
  {
    if a != {} {
      var x :| x in a;
      SubsetSize(a - {x}, b - {x});
    }
  }

  lemma {:induction false} PutSize(states: Store, state: string, record: Pending)
    ensures |states[state := record]| <= |states| + 1
  {
    assert states[state := record].Keys == states.Keys + {state};
  }

  lemma {:induction false} DropSize(states: Store, state: string)
    requires state in states
    ensures |states - {state}| == |states| - 1
  {
    assert (states - {state}).Keys == states.Keys - {state};
  }

  lemma {:induction false} InsertedSize(before: Store, state: string, record: Pending, now: nat, after: Store)
    requires |before| <= MAX_ENTRIES && Inserted(before, state, record, now, after)
    ensures |after| <= MAX_ENTRIES
  {
    var live := Pruned(before, now);
    PrunedSize(before, now);
    if |live| >= MAX_ENTRIES {
      var k :| IsOldest(live, k) && after == (live - {k})[state := record];
      DropSize(live, k);
      PutSize(live - {k}, state, record);
    } else {
      PutSize(live, state, record);
    }
  }

  /** The store never holds more than the allowed number of entries. */
  lemma {:induction false} SizeIsBounded(stores: seq<Store>, events: seq<Event>, i: nat)
    requires IsRun(stores, events) && i < |stores|
    ensures |stores[i]| <= MAX_ENTRIES
  {
    if i > 0 {
      SizeIsBounded(stores, events, i - 1);
      assert Step(stores, events, i - 1);
      match events[i - 1]
      case Insertion(state, record, now) => InsertedSize(stores[i - 1], state, record, now, stores[i]);
      case Callback(state, _, _) =>
        assert (stores[i - 1] - {state}).Keys == stores[i - 1].Keys - {state};
        SubsetSize(stores[i].Keys, stores[i - 1].Keys);
    }
  }

  /** Every entry was put there by an insertion that no later event has touched. */
  lemma {:induction false} EntryHasInsertion(stores: seq<Store>, events: seq<Event>, j: nat,
                                             state: string) returns (i: nat)
    requires IsRun(stores, events) && j < |stores| && state in stores[j]
    ensures i < j && events[i].Insertion? && events[i].state == state && events[i].record == stores[j][state]
    ensures Untouched(events, state, i, j)
  {
    assert Step(stores, events, j - 1);
    if events[j - 1].state == state {
      i := j - 1;
    } else {
      i := EntryHasInsertion(stores, events, j - 1, state);
    }
  }

  /** Callback `j` presents, for its own provider and in time, the state of insertion `i`, untouched in between. */
  predicate Answers(events: seq<Event>, i: nat, j: nat) {
    && i < j < |events|
    && events[i].Insertion? && events[j].Callback? && events[i].state == events[j].state
    && Untouched(events, events[j].state, i, j)
    && events[i].record.provider == events[j].provider && events[i].record.nonce != ""
    && events[j].now < events[i].record.expiresAt
  }

  ghost predicate Accepted(stores: seq<Store>, events: seq<Event>, j: nat)
    requires j < |events| && j < |stores| && events[j].Callback?
  {
    Validate(stores[j], events[j].state, events[j].provider, events[j].now) == Valid
  }

  /**
   A valid callback answers an insertion of the same state for the same
   provider that has not expired and that no event since has touched; in
   particular it has not been presented before.
   */
  lemma {:induction false} ValidHasInsertion(stores: seq<Store>, events: seq<Event>, j: nat) returns (i: nat)
    requires IsRun(stores, events) && j < |events| && events[j].Callback? && Accepted(stores, events, j)
    ensures Answers(events, i, j)
  {
    i := EntryHasInsertion(stores, events, j, events[j].state);
  }

  /** Single use: between two valid callbacks of one state there is a new insertion of it. */
  lemma {:induction false} ValidOncePerInsertion(stores: seq<Store>, events: seq<Event>, j: nat, k: nat)
    returns (i: nat)
    requires IsRun(stores, events) && j < k < |events|
    requires events[j].Callback? && events[k].Callback? && events[j].state == events[k].state
    requires Accepted(stores, events, j) && Accepted(stores, events, k)
    ensures j < i < k && events[i].Insertion? && events[i].state == events[j].state
  {
    i := ValidHasInsertion(stores, events, k);
  }

  // ---------------------------------------------------------------- losing a live state

  /** At insertion `e` the store was full of live entries and this one, expiring no later than any other, had to go. */
  ghost predicate EvictedAt(stores: seq<Store>, events: seq<Event>, e: nat, state: string, record: Pending)
    requires e < |events| && e + 1 < |stores|
  {
    && events[e].Insertion?
    && state !in stores[e + 1]
    && var live := Pruned(stores[e], events[e].now);
       && |live| >= MAX_ENTRIES
       && state in live && live[state] == record
       && forall k :: k in live ==> record.expiresAt <= live[k].expiresAt
  }

  lemma {:induction false} KeptUnlessEvicted(stores: seq<Store>, events: seq<Event>, i: nat, j: nat, now: nat)
    requires IsRun(stores, events) && Ordered(events) && i < j <= |events|
    requires events[i].Insertion? && Untouched(events, events[i].state, i, j)
    requires now < events[i].record.expiresAt && forall k :: i <= k < j ==> events[k].now <= now
    ensures (events[i].state in stores[j] && stores[j][events[i].state] == events[i].record)
         || exists e :: i < e < j && EvictedAt(stores, events, e, events[i].state, events[i].record)
    decreases j
  {
    var state, record := events[i].state, events[i].record;
    assert Step(stores, events, j - 1);
    if j > i + 1 {
      KeptUnlessEvicted(stores, events, i, j - 1, now);
      if state in stores[j - 1] && stores[j - 1][state] == record && events[j - 1].Insertion? {
        var live := Pruned(stores[j - 1], events[j - 1].now);
        if |live| >= MAX_ENTRIES && state !in stores[j] {
          var k :| IsOldest(live, k) && stores[j] == (live - {k})[events[j - 1].state := events[j - 1].record];
          assert k == state;
          assert EvictedAt(stores, events, j - 1, state, record);
        }
      }
    }
  }

  lemma {:induction false} GoneStaysGone(stores: seq<Store>, events: seq<Event>, state: string, e: nat, j: nat)
    requires IsRun(stores, events) && e < j < |stores|
    requires state !in stores[e + 1] && Untouched(events, state, e, j)
    ensures state !in stores[j]
    decreases j
  {
    if j > e + 1 {
      GoneStaysGone(stores, events, state, e, j - 1);
      assert Step(stores, events, j - 1);
    }
  }

  /** The state of insertion `i` was evicted before event `j`. */
  ghost predicate Evicted(stores: seq<Store>, events: seq<Event>, i: nat, j: nat)
    requires i < j <= |events| && j < |stores| && events[i].Insertion?
  {
    exists e :: i < e < j && EvictedAt(stores, events, e, events[i].state, events[i].record)
  }

  /**
   A state that is still live and has not been touched since its insertion is
   accepted for its own provider if and only if it was not evicted meanwhile
   from a full store in which no entry expired earlier.
   */
  lemma {:induction false} LiveStateLostOnlyByEviction(stores: seq<Store>, events: seq<Event>, i: nat, j: nat)
    requires IsRun(stores, events) && Ordered(events) && Answers(events, i, j)
    ensures Accepted(stores, events, j) <==> !Evicted(stores, events, i, j)
  {
    KeptUnlessEvicted(stores, events, i, j, events[j].now);
    forall e | i < e < j && EvictedAt(stores, events, e, events[i].state, events[i].record)
      ensures events[j].state !in stores[j]
    {
      GoneStaysGone(stores, events, events[i].state, e, j);
    }
  }

  /** At insertion `e` or later the entry was over and had been pruned. */
  ghost predicate PrunedBy(events: seq<Event>, e: nat, record: Pending)
    requires e < |events|
  {
    events[e].Insertion? && record.expiresAt <= events[e].now
  }

  /** The state of insertion `i` is gone at `j`: pruned after its expiry, or evicted before it. */
  ghost predicate Lost(stores: seq<Store>, events: seq<Event>, i: nat, j: nat)
    requires i < j <= |events| && j < |stores| && events[i].Insertion?
  {
    exists e :: i < e < j && (PrunedBy(events, e, events[i].record)
                              || EvictedAt(stores, events, e, events[i].state, events[i].record))
  }

  lemma {:induction false} KeptUnlessLost(stores: seq<Store>, events: seq<Event>, i: nat, j: nat)
    requires IsRun(stores, events) && i < j <= |events|
    requires events[i].Insertion? && Untouched(events, events[i].state, i, j)
    ensures if Lost(stores, events, i, j) then events[i].state !in stores[j]
            else events[i].state in stores[j] && stores[j][events[i].state] == events[i].record
    decreases j
  {
    var state, record := events[i].state, events[i].record;
    assert Step(stores, events, j - 1);
    if j > i + 1 {
      KeptUnlessLost(stores, events, i, j - 1);
      if Lost(stores, events, i, j - 1) {
        var e :| i < e < j - 1 && (PrunedBy(events, e, record) || EvictedAt(stores, events, e, state, record));
        assert Lost(stores, events, i, j);
      } else {
        LastLoss(stores, events, i, j);
      }
    }
  }

  lemma {:induction false} LastLoss(stores: seq<Store>, events: seq<Event>, i: nat, j: nat)
    requires IsRun(stores, events) && i + 1 < j <= |events|
    requires events[i].Insertion? && Untouched(events, events[i].state, i, j)
    requires !Lost(stores, events, i, j - 1)
    requires events[i].state in stores[j - 1] && stores[j - 1][events[i].state] == events[i].record
    ensures if Lost(stores, events, i, j) then events[i].state !in stores[j]
            else events[i].state in stores[j] && stores[j][events[i].state] == events[i].record
  {
    var state, record := events[i].state, events[i].record;
    assert Step(stores, events, j - 1);
    var gone := PrunedBy(events, j - 1, record) || EvictedAt(stores, events, j - 1, state, record);
    assert Lost(stores, events, i, j) <==> gone;
    if events[j - 1].Insertion? && !PrunedBy(events, j - 1, record) {
      var live := Pruned(stores[j - 1], events[j - 1].now);
      if |live| >= MAX_ENTRIES {
        var k :| IsOldest(live, k) && stores[j] == (live - {k})[events[j - 1].state := events[j - 1].record];
        if k == state {
          assert EvictedAt(stores, events, j - 1, state, record);
        }
      }
    }
  }

  /**
   What each answer means, for a state whose last insertion no event has touched
   since: missing if the entry was pruned or evicted meanwhile; otherwise expired
   if its time is over, missing if the provider differs or there is no nonce, and
   valid in all other cases. A state never inserted, or presented since, is missing.
   */
  lemma {:induction false} AnswersMean(stores: seq<Store>, events: seq<Event>, i: nat, j: nat)
    requires IsRun(stores, events) && i < j < |events| && events[i].Insertion? && events[j].Callback?
    requires events[i].state == events[j].state && Untouched(events, events[j].state, i, j)
    ensures var record := events[i].record;
            Validate(stores[j], events[j].state, events[j].provider, events[j].now)
            == if Lost(stores, events, i, j) then Missing
               else if record.expiresAt <= events[j].now then Expired
               else if record.provider == events[j].provider && record.nonce != "" then Valid
               else Missing
  {
    KeptUnlessLost(stores, events, i, j);
  }

  lemma {:induction false} UnknownIsMissing(stores: seq<Store>, events: seq<Event>, j: nat)
    requires IsRun(stores, events) && j < |events| && events[j].Callback?
    requires forall i :: 0 <= i < j && events[i].Insertion? && events[i].state == events[j].state ==>
               !Untouched(events, events[j].state, i, j)
    ensures Validate(stores[j], events[j].state, events[j].provider, events[j].now) == Missing
  {
    if events[j].state in stores[j] {
      var i := EntryHasInsertion(stores, events, j, events[j].state);
    }
  }

  /** The callback answers some insertion. */
  ghost predicate HasAnswer(events: seq<Event>, j: nat) {
    exists i :: Answers(events, i, j)
  }

  /** Whichever insertion the callback answers, it is accepted if and only if that state was not evicted. */
  ghost predicate LostOnlyByEviction(stores: seq<Store>, events: seq<Event>, j: nat, accepted: bool)
    requires j < |stores|
  {
    forall i :: Answers(events, i, j) ==> (accepted <==> !Evicted(stores, events, i, j))
  }

  // ---------------------------------------------------------------- the store itself

  lemma {:induction false} RunExtends(stores: seq<Store>, events: seq<Event>, after: Store, event: Event)
    requires IsRun(stores, events)
    requires match event
             case Insertion(state, record, now) => Inserted(stores[|events|], state, record, now, after)
             case Callback(state, _, _) => after == stores[|events|] - {state}
    ensures IsRun(stores + [after], events + [event])
  {
    var stores', events' := stores + [after], events + [event];
    forall i | 0 <= i < |events'| ensures Step(stores', events', i) {
      if i < |events| {
        assert Step(stores, events, i);
      }
    }
  }

  /** The map of pending states, with the events that made it and the maps it held in between. */
  class OidcStateStore {
    var states: Store

    ghost var stores: seq<Store>
    ghost var events: seq<Event>

    ghost predicate Valid()
      reads this
    {
      IsRun(stores, events) && states == stores[|events|]
    }

    constructor ()
      ensures Valid() && states == map[] && events == []
    {
      states := map[];
      stores := [map[]];
      events := [];
    }

    method PruneExpired(now: nat)
      modifies this`states
      ensures states == Pruned(old(states), now)
    {
      states := map k | k in states && states[k].expiresAt > now :: states[k];
    }

    /** Scans the entries for the one that expires first and removes it. */
    method RemoveOldest()
      modifies this`states
      ensures old(states) == map[] ==> states == old(states)
      ensures old(states) != map[] ==> exists k :: IsOldest(old(states), k) && states == old(states) - {k}
    {
      if states == map[] {
        return;
      }
      var oldest :| oldest in states;
      var todo := states.Keys - {oldest};
      while todo != {}
        invariant oldest in states && todo <= states.Keys && oldest !in todo && states == old(states)
        invariant forall j :: j in states && j !in todo && j != oldest ==> Before(states, oldest, j)
        decreases todo
      {
        var k :| k in todo;
        todo := todo - {k};
        LexTotal(oldest, k);
        if Before(states, k, oldest) {
          forall j | j in states && j !in todo && j != k ensures Before(states, k, j) {
            if j != oldest { LexTransitive(k, oldest, j); }
          }
          oldest := k;
        }
      }
      assert IsOldest(states, oldest);
      states := states - {oldest};
    }

    /** The three steps of an insertion on the map. */
    method PutState(state: string, record: Pending, now: nat)
      modifies this`states
      ensures Inserted(old(states), state, record, now, states)
    {
      PruneExpired(now);
      ghost var live := states;
      if |states| >= MAX_ENTRIES {
        RemoveOldest();
        ghost var k :| IsOldest(live, k) && states == live - {k};
      }
      states := states[state := record];
    }

    /** The state is stored as asked; the map stays bounded; what else goes is what an insertion may remove. */
    method Insert(state: string, record: Pending, now: nat)
      requires Valid()
      modifies this
      ensures Valid() && events == old(events) + [Insertion(state, record, now)]
      ensures state in states && states[state] == record && |states| <= MAX_ENTRIES
      ensures Inserted(old(states), state, record, now, states)
    {
      PutState(state, record, now);
      RunExtends(stores, events, states, Insertion(state, record, now));
      stores, events := stores + [states], events + [Insertion(state, record, now)];
      SizeIsBounded(stores, events, |events|);
    }

    /**
     Whatever the answer, the state cannot be presented again. A valid answer
     means that an insertion is being answered; and a callback that answers an
     insertion gets one if and only if that state was not evicted meanwhile.
     */
    method ValidateAndConsume(state: string, provider: string, now: nat) returns (r: Validation)
      requires Valid()
      modifies this
      ensures Valid() && events == old(events) + [Callback(state, provider, now)]
      ensures states == old(states) - {state}
      ensures r == Validation.Valid ==> HasAnswer(events, |old(events)|)
      ensures Ordered(events) ==> LostOnlyByEviction(stores, events, |old(events)|, r == Validation.Valid)
    {
      r := TakeState(state, provider, now);
      RunExtends(stores, events, states, Callback(state, provider, now));
      ghost var j := |events|;
      stores, events := stores + [states], events + [Callback(state, provider, now)];
      assert stores[j] == old(states) && (r == Validation.Valid <==> Accepted(stores, events, j));
      if r == Validation.Valid {
        var i := ValidHasInsertion(stores, events, j);
        assert HasAnswer(events, j);
      }
      if Ordered(events) {
        forall i | Answers(events, i, j) ensures r == Validation.Valid <==> !Evicted(stores, events, i, j) {
          LiveStateLostOnlyByEviction(stores, events, i, j);
        }
      }
    }

    /** The entry is removed first and judged afterwards. */
    method TakeState(state: string, provider: string, now: nat) returns (r: Validation)
      modifies this`states
      ensures r == Validate(old(states), state, provider, now)
      ensures states == old(states) - {state}
    {
      if state !in states {
        return Missing;
      }
      var record := states[state];
      states := states - {state};
      if record.expiresAt <= now {
        return Expired;
      }
      if record.provider != provider || record.nonce == "" {
        return Missing;
      }
      r := Validation.Valid;
    }

    /** A fresh authorization request remembers its state for the time to live. */
    method Persist(state: string, provider: string, nonce: string, now: nat)
      requires Valid()
      modifies this
      ensures Valid()
      ensures events == old(events) + [Insertion(state, Pending(provider, nonce, now + STATE_TTL_SECONDS), now)]
      ensures state in states && states[state] == Pending(provider, nonce, now + STATE_TTL_SECONDS)
      ensures |states| <= MAX_ENTRIES
    {
      Insert(state, Pending(provider, nonce, now + STATE_TTL_SECONDS), now);
    }
  }
}
