/** The provider-key state machine: runtime status updates, cooldown, and the lookup before an attempt. */
module ProviderKeys {
  import opened Wrappers
  import opened Uuids
  import opened Callers
  import opened Catalog

  /** A runtime report about one key; a cooldown is given in milliseconds from now. */
  datatype Report = Report(
    tenant: Uuid, key: Uuid, channel: Uuid, provider: Uuid, status: KeyStatus, cooldownMs: Option<int>, now: int)

  predicate ChannelOf(cs: seq<Channel>, tenant: Uuid, channel: Uuid, provider: Uuid) {
    exists i :: 0 <= i < |cs| && cs[i].tenant == tenant && cs[i].id == channel && cs[i].provider == provider
                && !cs[i].deleted
  }

  predicate Terminal(s: KeyStatus) { s == ManualDisabled || s == StatusDeleted }

  predicate Concerns(cs: seq<Channel>, k: ProviderKey, r: Report) {
    && k.tenant == r.tenant
    && k.id == r.key
    && k.channel == r.channel
    && !Terminal(k.status)
    && ChannelOf(cs, k.tenant, k.channel, r.provider)
  }

  function UpdatedKey(cs: seq<Channel>, k: ProviderKey, r: Report): ProviderKey {
    if Concerns(cs, k, r)
    then k.(status := r.status, cooldownUntil := if r.cooldownMs.None? then None else Some(r.now + r.cooldownMs.value))
    else k
  }

  function UpdateKeys(cs: seq<Channel>, keys: seq<ProviderKey>, r: Report): (after: seq<ProviderKey>)
    ensures |after| == |keys|
    ensures forall i :: 0 <= i < |keys| ==> after[i] == UpdatedKey(cs, keys[i], r)
  {
    if keys == [] then [] else UpdateKeys(cs, keys[..|keys| - 1], r) + [UpdatedKey(cs, keys[|keys| - 1], r)]
  }

  /** The table of provider keys, updated in place. */
  class KeyTable {
    const channels: seq<Channel>
    var keys: seq<ProviderKey>

    constructor (channels: seq<Channel>, keys: seq<ProviderKey>)
      ensures this.channels == channels && this.keys == keys
    {
      this.channels := channels;
      this.keys := keys;
    }

    method UpdateRuntimeStatus(r: Report) returns (affected: nat)
      modifies this
      ensures keys == UpdateKeys(channels, old(keys), r)
      ensures affected > 0 <==> exists i :: 0 <= i < |old(keys)| && Concerns(channels, old(keys)[i], r)
    {
      affected := 0;
      ghost var before := keys;
      for i := 0 to |keys|
        invariant |keys| == |before|
        invariant forall j :: 0 <= j < i ==> keys[j] == UpdatedKey(channels, before[j], r)
        invariant forall j :: i <= j < |before| ==> keys[j] == before[j]
        invariant affected > 0 <==> exists j :: 0 <= j < i && Concerns(channels, before[j], r)
      {
        if Concerns(channels, keys[i], r) {
          var until := if r.cooldownMs.None? then None else Some(r.now + r.cooldownMs.value);
          keys := keys[i := keys[i].(status := r.status, cooldownUntil := until)];
          affected := affected + 1;
        }
      }
    }
  }

  // ---------------------------------------------------------------- lookup before an attempt

  predicate Fetchable(cs: seq<Channel>, k: ProviderKey, tenant: Uuid, key: Uuid, provider: Uuid, channel: Uuid,
                      now: int) {
    && k.tenant == tenant
    && k.id == key
    && k.channel == channel
    && ChannelOf(cs, k.tenant, k.channel, provider)
    && !k.deleted
    && (|| (k.status in {Enabled, Degraded, RecoveryProbe} && (k.cooldownUntil.None? || k.cooldownUntil.value <= now))
        || (k.status == Cooldown && k.cooldownUntil.Some? && k.cooldownUntil.value <= now))
  }

  function FetchKey(cs: seq<Channel>, keys: seq<ProviderKey>, tenant: Uuid, key: Uuid, provider: Uuid, channel: Uuid,
                    now: int)
    : (r: Option<ProviderKey>)
    ensures r.Some? ==> r.value in keys && Fetchable(cs, r.value, tenant, key, provider, channel, now)
    ensures r.None? ==> forall k :: k in keys ==> !Fetchable(cs, k, tenant, key, provider, channel, now)
  {
    if keys == [] then None
    else if Fetchable(cs, keys[0], tenant, key, provider, channel, now) then Some(keys[0])
    else FetchKey(cs, keys[1..], tenant, key, provider, channel, now)
  }

  // ---------------------------------------------------------------- runs

  function RunReports(cs: seq<Channel>, keys: seq<ProviderKey>, reports: seq<Report>): (after: seq<ProviderKey>)
    ensures |after| == |keys|
  {
    if reports == [] then keys
    else UpdateKeys(cs, RunReports(cs, keys, reports[..|reports| - 1]), reports[|reports| - 1])
  }

  /** Disabled by hand or deleted is final: no run of runtime reports changes anything of such a key. */
  lemma {:induction false} TerminalIsAbsorbing(cs: seq<Channel>, keys: seq<ProviderKey>, reports: seq<Report>, i: nat)
    requires i < |keys| && Terminal(keys[i].status)
    ensures RunReports(cs, keys, reports)[i] == keys[i]
  {
    if reports != [] {
      TerminalIsAbsorbing(cs, keys, reports[..|reports| - 1], i);
    }
  }

  /** Reports about other keys leave a key alone. */
  lemma {:induction false} OthersLeaveKeyAlone(cs: seq<Channel>, keys: seq<ProviderKey>, reports: seq<Report>, i: nat)
    requires i < |keys|
    requires forall j :: 0 <= j < |reports| ==> !(reports[j].tenant == keys[i].tenant && reports[j].key == keys[i].id)
    ensures RunReports(cs, keys, reports)[i] == keys[i]
  {
    if reports != [] {
      OthersLeaveKeyAlone(cs, keys, reports[..|reports| - 1], i);
    }
  }

  /**
   A report rewrites a key exactly when tenant, id and channel are its own, the
   channel is live and of the reporting provider, and the key is neither
   disabled by hand nor deleted; then status and cooldown are the report's and
   nothing else changes.
   */
  lemma {:induction false} ReportRewrites(cs: seq<Channel>, keys: seq<ProviderKey>, r: Report, i: nat)
    requires i < |keys|
    ensures var k := keys[i];
            var live := exists c :: c in cs && c.tenant == k.tenant && c.id == k.channel && c.provider == r.provider
                                    && !c.deleted;
            var hit := k.tenant == r.tenant && k.id == r.key && k.channel == r.channel && live
                       && k.status != ManualDisabled && k.status != StatusDeleted;
            var until := match r.cooldownMs case None => None case Some(m) => Some(r.now + m);
            UpdateKeys(cs, keys, r)[i]
            == if hit then ProviderKey(k.id, k.tenant, k.channel, k.deleted, r.status, until, k.health) else k
  {
    var k := keys[i];
    if exists c :: c in cs && c.tenant == k.tenant && c.id == k.channel && c.provider == r.provider && !c.deleted {
      var c :| c in cs && c.tenant == k.tenant && c.id == k.channel && c.provider == r.provider && !c.deleted;
      var j :| 0 <= j < |cs| && cs[j] == c;
      assert ChannelOf(cs, k.tenant, k.channel, r.provider);
    }
  }

  /**
   A report without a cooldown: until another report about it, the key is usable
   at every instant if and only if it is not deleted and the status reported is
   one that serves.
   */
  lemma {:induction false} UncooledServes(cs: seq<Channel>, keys: seq<ProviderKey>, r: Report, later: seq<Report>,
                                          i: nat, at: int)
    requires i < |keys| && Concerns(cs, keys[i], r) && r.cooldownMs.None?
    requires forall j :: 0 <= j < |later| ==> !(later[j].tenant == r.tenant && later[j].key == r.key)
    ensures Usable(RunReports(cs, UpdateKeys(cs, keys, r), later)[i], at)
       <==> !keys[i].deleted && (r.status == Enabled || r.status == Degraded || r.status == RecoveryProbe)
  {
    OthersLeaveKeyAlone(cs, UpdateKeys(cs, keys, r), later, i);
  }

  /**
   A key cooled for `m` milliseconds: until another report about it, it is
   unusable at every instant before the cooldown ends, and from the end on it
   is usable exactly when its status is one that serves.
   */
  lemma {:induction false} CooldownHolds(cs: seq<Channel>, keys: seq<ProviderKey>, r: Report, later: seq<Report>,
                                         i: nat, at: int)
    requires i < |keys| && Concerns(cs, keys[i], r) && r.cooldownMs.Some?
    requires forall j :: 0 <= j < |later| ==> !(later[j].tenant == r.tenant && later[j].key == r.key)
    ensures var k := RunReports(cs, UpdateKeys(cs, keys, r), later)[i];
            Usable(k, at) <==> && !keys[i].deleted
                               && r.now + r.cooldownMs.value <= at
                               && r.status in {Enabled, Degraded, RecoveryProbe, Cooldown}
  {
    OthersLeaveKeyAlone(cs, UpdateKeys(cs, keys, r), later, i);
  }

  // ---------------------------------------------------------------- an unusable key is invisible

  function Without(keys: seq<ProviderKey>, i: nat): seq<ProviderKey>
    requires i < |keys|
  {
    keys[..i] + keys[i + 1..]
  }

  function Drop(db: Tables, i: nat): Tables
    requires i < |db.keys|
  {
    db.(keys := Without(db.keys, i))
  }

  lemma {:induction false} BestWithout(keys: seq<ProviderKey>, i: nat, c: Channel, now: int)
    requires i < |keys| && !Usable(keys[i], now)
    ensures BestKey(Without(keys, i), c, now) == BestKey(keys, c, now)
  {
    if i == 0 {
      assert Without(keys, 0) == keys[1..];
    } else {
      BestWithout(keys[1..], i - 1, c, now);
      assert Without(keys, i)[1..] == Without(keys[1..], i - 1);
    }
  }

  lemma {:induction false} FetchWithout(cs: seq<Channel>, keys: seq<ProviderKey>, i: nat, tenant: Uuid, key: Uuid,
                                        provider: Uuid, channel: Uuid, now: int)
    requires i < |keys| && !Usable(keys[i], now)
    ensures FetchKey(cs, Without(keys, i), tenant, key, provider, channel, now)
         == FetchKey(cs, keys, tenant, key, provider, channel, now)
  {
    if i == 0 {
      assert Without(keys, 0) == keys[1..];
    } else {
      FetchWithout(cs, keys[1..], i - 1, tenant, key, provider, channel, now);
      assert Without(keys, i)[1..] == Without(keys[1..], i - 1);
    }
  }

  /** A listing needs only the usable keys. */
  lemma {:induction false} RouteCarries(db: Tables, keys: seq<ProviderKey>, p: Profile, m: Model, now: int,
                                        matches: (string, string) -> bool)
    requires forall k :: k in db.keys && Usable(k, now) ==> k in keys
    requires HasRoute(db, p, m, now, matches)
    ensures HasRoute(db.(keys := keys), p, m, now, matches)
  {
    var a, c, k :| 0 <= a < |db.associations| && 0 <= c < |db.channels| && 0 <= k < |db.keys| &&
      Joins(db.providers, p, m, now, matches, db.associations[a], db.channels[c], db.keys[k]);
    assert db.keys[k] in keys;
    var k' :| 0 <= k' < |keys| && keys[k'] == db.keys[k];
    var other := db.(keys := keys);
    assert Joins(other.providers, p, m, now, matches, other.associations[a], other.channels[c], other.keys[k']);
  }

  lemma {:induction false} UsableStay(keys: seq<ProviderKey>, i: nat, now: int)
    requires i < |keys| && !Usable(keys[i], now)
    ensures forall k :: k in keys && Usable(k, now) ==> k in Without(keys, i)
    ensures forall k :: k in Without(keys, i) ==> k in keys
  {
    forall k | k in keys && Usable(k, now) ensures k in Without(keys, i) {
      var j :| 0 <= j < |keys| && keys[j] == k;
      assert j < i ==> Without(keys, i)[j] == k;
      assert j > i ==> Without(keys, i)[j - 1] == k;
    }
  }

  lemma {:induction false} RouteWithout(db: Tables, i: nat, p: Profile, m: Model, now: int,
                                        matches: (string, string) -> bool)
    requires i < |db.keys| && !Usable(db.keys[i], now)
    ensures HasRoute(Drop(db, i), p, m, now, matches) <==> HasRoute(db, p, m, now, matches)
  {
    UsableStay(db.keys, i, now);
    if HasRoute(db, p, m, now, matches) {
      RouteCarries(db, Without(db.keys, i), p, m, now, matches);
    }
    if HasRoute(Drop(db, i), p, m, now, matches) {
      RouteCarries(Drop(db, i), db.keys, p, m, now, matches);
      assert Drop(db, i).(keys := db.keys) == db;
    }
  }

  /** All three queries answer, for everything they can be asked, as if the key at `i` were not in the table. */
  ghost predicate Invisible(db: Tables, i: nat, now: int, matches: (string, string) -> bool)
    requires i < |db.keys|
  {
    var less := Drop(db, i);
    && (forall auth, m :: Listed(db, auth, m, now, matches) <==> Listed(less, auth, m, now, matches))
    && (forall auth, m, r :: IsCandidate(db, auth, m, now, matches, r) <==> IsCandidate(less, auth, m, now, matches, r))
    && (forall tenant, key, provider, channel ::
          FetchKey(db.channels, db.keys, tenant, key, provider, channel, now)
          == FetchKey(less.channels, less.keys, tenant, key, provider, channel, now))
  }

  /** An unusable key is in none of the three queries: not listed through, not routed to, not fetched. */
  lemma {:induction false} UnusableNowhere(db: Tables, i: nat, now: int, matches: (string, string) -> bool)
    requires i < |db.keys| && !Usable(db.keys[i], now)
    ensures Invisible(db, i, now, matches)
  {
    var less := Drop(db, i);
    forall auth, m ensures Listed(db, auth, m, now, matches) <==> Listed(less, auth, m, now, matches) {
      var p := ActiveProfile(db.profiles, auth);
      if p.Some? { RouteWithout(db, i, p.value, m, now, matches); }
    }
    forall auth, m, r
      ensures IsCandidate(db, auth, m, now, matches, r) <==> IsCandidate(less, auth, m, now, matches, r)
    {
      BestWithout(db.keys, i, r.channel, now);
    }
    forall tenant, key, provider, channel
      ensures FetchKey(db.channels, db.keys, tenant, key, provider, channel, now)
           == FetchKey(less.channels, less.keys, tenant, key, provider, channel, now)
    {
      FetchWithout(db.channels, db.keys, i, tenant, key, provider, channel, now);
    }
  }

  /**
   A key cooled for `m` milliseconds is ineligible in all three queries until
   `m` milliseconds have passed, whatever is reported about other keys.
   */
  lemma {:induction false} CooledNowhere(db: Tables, r: Report, later: seq<Report>, i: nat, at: int,
                                         matches: (string, string) -> bool)
    requires i < |db.keys| && Concerns(db.channels, db.keys[i], r) && r.cooldownMs.Some?
    requires forall j :: 0 <= j < |later| ==> !(later[j].tenant == r.tenant && later[j].key == r.key)
    requires at < r.now + r.cooldownMs.value
    ensures Invisible(db.(keys := RunReports(db.channels, UpdateKeys(db.channels, db.keys, r), later)), i, at, matches)
  {
    CooldownHolds(db.channels, db.keys, r, later, i, at);
    UnusableNowhere(db.(keys := RunReports(db.channels, UpdateKeys(db.channels, db.keys, r), later)), i, at, matches);
  }

  // ---------------------------------------------------------------- a routed key can be fetched

  predicate KeyIdsUnique(keys: seq<ProviderKey>) {
    forall i, j :: 0 <= i < j < |keys| ==> keys[i].id != keys[j].id
  }

  /** Once usable, a key that no row change touches stays usable. */
  lemma {:induction false} UsableIsMonotone(k: ProviderKey, now: int, later: int)
    requires Usable(k, now) && now <= later
    ensures Usable(k, later)
  {
  }

  lemma {:induction false} RunKeepsIds(cs: seq<Channel>, keys: seq<ProviderKey>, reports: seq<Report>, i: nat)
    requires i < |keys|
    ensures RunReports(cs, keys, reports)[i].id == keys[i].id
  {
    if reports != [] {
      RunKeepsIds(cs, keys, reports[..|reports| - 1], i);
    }
  }

  lemma {:induction false} RunKeepsIdsUnique(cs: seq<Channel>, keys: seq<ProviderKey>, reports: seq<Report>)
    requires KeyIdsUnique(keys)
    ensures KeyIdsUnique(RunReports(cs, keys, reports))
  {
    var after := RunReports(cs, keys, reports);
    forall i, j | 0 <= i < j < |after| ensures after[i].id != after[j].id {
      RunKeepsIds(cs, keys, reports, i);
      RunKeepsIds(cs, keys, reports, j);
    }
  }

  /** With unique ids, a lookup that can find a key finds that key. */
  lemma {:induction false} FetchFinds(cs: seq<Channel>, keys: seq<ProviderKey>, i: nat, tenant: Uuid, provider: Uuid,
                                      channel: Uuid, now: int)
    requires KeyIdsUnique(keys) && i < |keys| && Fetchable(cs, keys[i], tenant, keys[i].id, provider, channel, now)
    ensures FetchKey(cs, keys, tenant, keys[i].id, provider, channel, now) == Some(keys[i])
  {
    if i > 0 {
      assert keys[0].id != keys[i].id;
      FetchFinds(cs, keys[1..], i - 1, tenant, provider, channel, now);
    }
  }

  /**
   What an attempt gets: a key of the tenant with the id and channel asked for,
   not deleted, whose channel is live and of the provider asked for, and whose
   status serves with no cooldown left; and it gets one whenever there is one.
   */
  lemma {:induction false} FetchedKey(cs: seq<Channel>, keys: seq<ProviderKey>, tenant: Uuid, key: Uuid, provider: Uuid,
                                      channel: Uuid, now: int, k: ProviderKey)
    ensures var r := FetchKey(cs, keys, tenant, key, provider, channel, now);
            && (r == Some(k) ==> k in keys)
            && (r == Some(k) || (r.None? && k in keys) ==>
                  (r == Some(k) <==> && k.tenant == tenant && k.id == key && k.channel == channel && !k.deleted
                                     && (exists c :: c in cs && c.tenant == tenant && c.id == channel
                                                     && c.provider == provider && !c.deleted)
                                     && Usable(k, now)))
  {
    if exists c :: c in cs && c.tenant == tenant && c.id == channel && c.provider == provider && !c.deleted {
      var c :| c in cs && c.tenant == tenant && c.id == channel && c.provider == provider && !c.deleted;
      var j :| 0 <= j < |cs| && cs[j] == c;
      assert ChannelOf(cs, tenant, channel, provider);
    }
    if ChannelOf(cs, tenant, channel, provider) {
      var j :| 0 <= j < |cs| && cs[j].tenant == tenant && cs[j].id == channel && cs[j].provider == provider
               && !cs[j].deleted;
      assert cs[j] in cs;
    }
  }

  /** The attempt lookup asks of a key what the other two queries ask, for the channel and provider named. */
  lemma {:induction false} FetchesUsable(cs: seq<Channel>, k: ProviderKey, c: Channel, now: int)
    requires c in cs && !c.deleted && k.tenant == c.tenant && k.channel == c.id
    ensures Fetchable(cs, k, c.tenant, k.id, c.provider, c.id, now) <==> KeyOf(k, c, now)
  {
    var i :| 0 <= i < |cs| && cs[i] == c;
    assert ChannelOf(cs, k.tenant, k.channel, c.provider);
  }

  /**
   The ordinary case serves: an enabled key that was never cooled, on a live
   channel of an enabled provider that an association of the model reaches,
   gives a caller without a profile a candidate and is fetched for the attempt.
   */
  lemma {:induction false} HealthyKeyServes(db: Tables, auth: Auth, m: Model, now: int,
                                            matches: (string, string) -> bool, a: Association, c: Channel,
                                            pr: Provider, i: nat)
    requires auth.profile.None?
    requires a in db.associations && a.tenant == auth.tenant && a.model == m.id && a.enabled && !a.deleted
    requires || a.kind == Global || (a.kind == ExplicitChannel && a.channel == Some(c.id))
             || (a.kind == ChannelTag && a.tag.Some? && a.tag.value in c.tags)
             || (a.kind == ModelPattern && a.pattern.Some? && matches(m.key, a.pattern.value))
    requires c in db.channels && c.tenant == auth.tenant && !c.deleted && !c.statusDeleted
    requires || c.protocol == "openai_compatible" || c.protocol == "gemini_generate_content" || c.protocol == "gemini"
             || c.protocol == "anthropic" || c.protocol == "anthropic_messages" || c.protocol == "claude_compatible"
    requires pr in db.providers && pr.tenant == c.tenant && pr.id == c.provider && pr.enabled && !pr.deleted
    requires i < |db.keys| && db.keys[i].tenant == c.tenant && db.keys[i].channel == c.id
    requires !db.keys[i].deleted && db.keys[i].status == Enabled && db.keys[i].cooldownUntil == None
    ensures exists k: ProviderKey :: k.status == Enabled && IsCandidate(db, auth, m, now, matches, Candidate(a, c, k))
    ensures KeyIdsUnique(db.keys) ==>
              FetchKey(db.channels, db.keys, auth.tenant, db.keys[i].id, pr.id, c.id, now) == Some(db.keys[i])
  {
    FetchesUsable(db.channels, db.keys[i], c, now);
    var best := BestKey(db.keys, c, now);
    assert db.keys[i] in db.keys && KeyOf(db.keys[i], c, now);
    assert IsCandidate(db, auth, m, now, matches, Candidate(a, c, best.value));
    assert best.value.status == Enabled by {
      BestKeyOrder(db.keys, c, now, db.keys[i]);
    }
    if KeyIdsUnique(db.keys) {
      FetchFinds(db.channels, db.keys, i, auth.tenant, pr.id, c.id, now);
    }
  }

  lemma {:induction false} CandidateIsFetchable(db: Tables, auth: Auth, m: Model, now: int,
                                                matches: (string, string) -> bool, r: Candidate, later: int)
    requires IsCandidate(db, auth, m, now, matches, r) && now <= later
    ensures r.key in db.keys
    ensures Fetchable(db.channels, r.key, auth.tenant, r.key.id, r.channel.provider, r.channel.id, later)
  {
    assert r.key in db.keys && KeyOf(r.key, r.channel, now);
    UsableIsMonotone(r.key, now, later);
    var c :| 0 <= c < |db.channels| && db.channels[c] == r.channel;
    assert ChannelOf(db.channels, r.key.tenant, r.key.channel, r.channel.provider);
  }

  /**
   The key of a routed candidate can be fetched for the attempt at every later
   time, whatever is reported about other keys in between.
   */
  lemma {:induction false} RoutedKeyStaysFetchable(db: Tables, auth: Auth, m: Model, now: int,
                                                   matches: (string, string) -> bool, r: Candidate,
                                                   reports: seq<Report>, later: int)
    requires KeyIdsUnique(db.keys) && IsCandidate(db, auth, m, now, matches, r) && now <= later
    requires forall j :: 0 <= j < |reports| ==> !(reports[j].tenant == r.key.tenant && reports[j].key == r.key.id)
    ensures FetchKey(db.channels, RunReports(db.channels, db.keys, reports),
                     auth.tenant, r.key.id, r.channel.provider, r.channel.id, later) == Some(r.key)
  {
    CandidateIsFetchable(db, auth, m, now, matches, r, later);
    var i :| 0 <= i < |db.keys| && db.keys[i] == r.key;
    OthersLeaveKeyAlone(db.channels, db.keys, reports, i);
    RunKeepsIdsUnique(db.channels, db.keys, reports);
    FetchFinds(db.channels, RunReports(db.channels, db.keys, reports), i,
               auth.tenant, r.channel.provider, r.channel.id, later);
  }
}
