/**
 The gateway's model catalogue: which models a key may see, how a requested
 name resolves, which channels can serve it, and the provider-key state that
 all of these queries read.

 Times are in milliseconds. Pattern matching of model names is a parameter.
 */
module Catalog {
  import opened Wrappers
  import opened Uuids
  import opened Callers

  datatype Visibility = Public | Internal | Hidden

  datatype Profile = Profile(
    id: Uuid, tenant: Uuid, project: Uuid, active: bool, deleted: bool,
    allowedModels: seq<string>, deniedModels: seq<string>, aliases: map<string, Option<string>>,
    allowedTags: seq<string>, blockedProviders: seq<string>)

  datatype Model = Model(id: Uuid, tenant: Uuid, key: string, active: bool, deleted: bool, visibility: Visibility)

  datatype AssociationType = ExplicitChannel | ChannelTag | ModelPattern | Global

  datatype Association = Association(
    id: Uuid, tenant: Uuid, model: Uuid, kind: AssociationType, channel: Option<Uuid>,
    tag: Option<string>, pattern: Option<string>, enabled: bool, deleted: bool)

  datatype Channel = Channel(
    id: Uuid, tenant: Uuid, provider: Uuid, deleted: bool, statusDeleted: bool, protocol: string, tags: seq<string>)

  datatype Provider = Provider(id: Uuid, tenant: Uuid, enabled: bool, deleted: bool)

  datatype KeyStatus =
    Enabled | Degraded | Cooldown | RecoveryProbe | AuthFailed | QuotaExhausted | ManualDisabled | StatusDeleted

  datatype ProviderKey = ProviderKey(
    id: Uuid, tenant: Uuid, channel: Uuid, deleted: bool, status: KeyStatus, cooldownUntil: Option<int>, health: real)

  datatype Tables = Tables(
    profiles: seq<Profile>, models: seq<Model>, associations: seq<Association>,
    channels: seq<Channel>, providers: seq<Provider>, keys: seq<ProviderKey>)

  const PROTOCOLS: set<string> :=
    {"openai_compatible", "gemini_generate_content", "gemini", "anthropic", "anthropic_messages", "claude_compatible"}

  // ---------------------------------------------------------------- keys and profiles

  /** A key may be used: in service with no cooldown left, or its cooldown is over. */
  predicate Usable(k: ProviderKey, now: int) {
    && !k.deleted
    && (|| (k.status in {Enabled, Degraded, RecoveryProbe} && (k.cooldownUntil.None? || k.cooldownUntil.value <= now))
        || (k.status == Cooldown && k.cooldownUntil.Some? && k.cooldownUntil.value <= now))
  }

  predicate IsActiveProfile(p: Profile, auth: Auth) {
    && p.tenant == auth.tenant
    && p.project == auth.project
    && auth.profile == Some(p.id)
    && p.active
    && !p.deleted
  }

  function ActiveProfile(ps: seq<Profile>, auth: Auth): (r: Option<Profile>)
    ensures r.Some? ==> r.value in ps && IsActiveProfile(r.value, auth)
    ensures r.None? ==> forall p :: p in ps ==> !IsActiveProfile(p, auth)
  {
    if ps == [] then None
    else if IsActiveProfile(ps[0], auth) then Some(ps[0])
    else ActiveProfile(ps[1..], auth)
  }

  // ---------------------------------------------------------------- listing

  /** The name is an alias of something else, where a null target counts as something else. */
  predicate AliasedAway(p: Profile, key: string) {
    key in p.aliases && (if p.aliases[key].Some? then p.aliases[key].value else "") != key
  }

  /** The conditions of the listing's join, one table after the other. */
  predicate ListsAssociation(a: Association, m: Model) {
    a.tenant == m.tenant && a.model == m.id && a.enabled && !a.deleted
  }

  predicate ListsChannel(a: Association, c: Channel, key: string, matches: (string, string) -> bool) {
    && c.tenant == a.tenant && !c.deleted && !c.statusDeleted
    && c.protocol in {"openai_compatible", "gemini_generate_content", "gemini", "anthropic", "anthropic_messages",
                      "claude_compatible"}
    && (|| (a.kind == ExplicitChannel && a.channel == Some(c.id))
        || (a.kind == ChannelTag && a.tag.Some? && a.tag.value in c.tags)
        || a.kind == Global
        || (a.kind == ModelPattern && a.pattern.Some? && matches(key, a.pattern.value)))
  }

  predicate ListsProvider(ps: seq<Provider>, c: Channel) {
    exists i :: 0 <= i < |ps| && ps[i].tenant == c.tenant && ps[i].id == c.provider && ps[i].enabled && !ps[i].deleted
  }

  predicate ListsKey(k: ProviderKey, c: Channel, now: int) {
    && k.tenant == c.tenant && k.channel == c.id && !k.deleted
    && (|| (k.status in {Enabled, Degraded, RecoveryProbe} && (k.cooldownUntil.None? || k.cooldownUntil.value <= now))
        || (k.status == Cooldown && k.cooldownUntil.Some? && k.cooldownUntil.value <= now))
  }

  predicate ListsThrough(p: Profile, c: Channel) {
    && (|p.allowedTags| == 0 || exists i :: 0 <= i < |p.allowedTags| && p.allowedTags[i] in c.tags)
    && Hyphenated(c.provider) !in p.blockedProviders
  }

  /** One row of the listing's join. */
  predicate Joins(providers: seq<Provider>, p: Profile, m: Model, now: int, matches: (string, string) -> bool,
                  a: Association, c: Channel, k: ProviderKey) {
    && ListsAssociation(a, m) && ListsChannel(a, c, m.key, matches) && ListsProvider(providers, c)
    && ListsKey(k, c, now) && ListsThrough(p, c)
  }

  predicate HasRoute(db: Tables, p: Profile, m: Model, now: int, matches: (string, string) -> bool) {
    exists i, j, k :: 0 <= i < |db.associations| && 0 <= j < |db.channels| && 0 <= k < |db.keys| &&
      Joins(db.providers, p, m, now, matches, db.associations[i], db.channels[j], db.keys[k])
  }

  /** The model appears in the list of visible models. */
  predicate Listed(db: Tables, auth: Auth, m: Model, now: int, matches: (string, string) -> bool) {
    var profile := ActiveProfile(db.profiles, auth);
    && profile.Some?
    && m in db.models
    && m.tenant == auth.tenant
    && m.active && !m.deleted
    && (m.visibility == Public || m.visibility == Internal)
    && (|profile.value.allowedModels| == 0 || m.key in profile.value.allowedModels)
    && m.key !in profile.value.deniedModels
    && !AliasedAway(profile.value, m.key)
    && HasRoute(db, profile.value, m, now, matches)
  }

  // ---------------------------------------------------------------- resolving a name

  /** The name looked up: the alias target unless it is missing or null. */
  function Target(p: Option<Profile>, requested: string): string {
    if p.Some? && requested in p.value.aliases && p.value.aliases[requested].Some?
    then p.value.aliases[requested].value else requested
  }

  predicate Allowed(p: Profile, key: string) { p.allowedModels == [] || key in p.allowedModels }

  predicate Resolves(m: Model, auth: Auth, p: Option<Profile>, requested: string) {
    && m.tenant == auth.tenant
    && m.key == Target(p, requested)
    && m.active && !m.deleted
    && (auth.profile.None? || p.Some?)
    && (auth.profile.Some? && p.Some? ==> Allowed(p.value, m.key) && m.key !in p.value.deniedModels)
  }

  function FirstResolving(ms: seq<Model>, auth: Auth, p: Option<Profile>, requested: string): (r: Option<Model>)
    ensures r.Some? ==> r.value in ms && Resolves(r.value, auth, p, requested)
    ensures r.None? ==> forall m :: m in ms ==> !Resolves(m, auth, p, requested)
  {
    if ms == [] then None
    else if Resolves(ms[0], auth, p, requested) then Some(ms[0])
    else FirstResolving(ms[1..], auth, p, requested)
  }

  function ResolveModel(db: Tables, auth: Auth, requested: string): Option<Model> {
    FirstResolving(db.models, auth, ActiveProfile(db.profiles, auth), requested)
  }

  // ---------------------------------------------------------------- routing

  function StatusRank(s: KeyStatus): nat {
    match s
    case Enabled => 0
    case RecoveryProbe => 1
    case Cooldown => 2
    case _ => 3
  }

  predicate KeyBefore(a: ProviderKey, b: ProviderKey) {
    if StatusRank(a.status) != StatusRank(b.status) then StatusRank(a.status) < StatusRank(b.status)
    else if a.health != b.health then a.health > b.health
    else a.id < b.id
  }

  predicate KeyOf(k: ProviderKey, c: Channel, now: int) {
    && k.tenant == c.tenant
    && k.channel == c.id
    && !k.deleted
    && match k.status
       case Enabled => k.cooldownUntil.None? || k.cooldownUntil.value <= now
       case Degraded => k.cooldownUntil.None? || k.cooldownUntil.value <= now
       case RecoveryProbe => k.cooldownUntil.None? || k.cooldownUntil.value <= now
       case Cooldown => k.cooldownUntil.Some? && k.cooldownUntil.value <= now
       case _ => false
  }

  /** The one key a route uses on a channel: best status, then health, then id. */
  function BestKey(keys: seq<ProviderKey>, c: Channel, now: int): (r: Option<ProviderKey>)
    ensures r.Some? ==> r.value in keys && KeyOf(r.value, c, now)
    ensures r.Some? ==> forall k :: k in keys && KeyOf(k, c, now) ==> !KeyBefore(k, r.value)
    ensures r.None? ==> forall k :: k in keys ==> !KeyOf(k, c, now)
  {
    if keys == [] then None
    else
      var rest := BestKey(keys[1..], c, now);
      if !KeyOf(keys[0], c, now) then rest
      else if rest.Some? && KeyBefore(rest.value, keys[0]) then rest
      else Some(keys[0])
  }

  /** Which key is used: enabled before probing before cooled before degraded, then the healthiest, then by id. */
  lemma {:induction false} BestKeyOrder(keys: seq<ProviderKey>, c: Channel, now: int, k: ProviderKey)
    requires k in keys && KeyOf(k, c, now)
    ensures BestKey(keys, c, now).Some?
    ensures var b := BestKey(keys, c, now).value;
            && (k.status == Enabled ==> b.status == Enabled)
            && (k.status == RecoveryProbe ==> b.status == Enabled || b.status == RecoveryProbe)
            && (k.status == Cooldown ==> b.status == Enabled || b.status == RecoveryProbe || b.status == Cooldown)
            && (k.status == b.status ==> b.health > k.health || (b.health == k.health && b.id <= k.id))
  {
  }

  /** The association reaches the channel, and the channel can be called at all. */
  predicate Reaches(a: Association, c: Channel, key: string, matches: (string, string) -> bool) {
    && c.tenant == a.tenant
    && !c.deleted
    && !c.statusDeleted
    && c.protocol in PROTOCOLS
    && match a.kind
       case ExplicitChannel => a.channel == Some(c.id)
       case ChannelTag => a.tag.Some? && a.tag.value in c.tags
       case Global => true
       case ModelPattern => a.pattern.Some? && matches(key, a.pattern.value)
  }

  predicate ProviderUp(ps: seq<Provider>, c: Channel) {
    exists p :: p in ps && p.tenant == c.tenant && p.id == c.provider && p.enabled && !p.deleted
  }

  predicate ChannelAllowed(p: Profile, c: Channel) {
    && (p.allowedTags == [] || exists tag :: tag in p.allowedTags && tag in c.tags)
    && Hyphenated(c.provider) !in p.blockedProviders
  }

  datatype Candidate = Candidate(association: Association, channel: Channel, key: ProviderKey)

  predicate IsCandidate(db: Tables, auth: Auth, m: Model, now: int, matches: (string, string) -> bool, r: Candidate) {
    var profile := ActiveProfile(db.profiles, auth);
    && r.association in db.associations && r.channel in db.channels
    && r.association.tenant == auth.tenant
    && r.association.model == m.id && r.association.enabled && !r.association.deleted
    && Reaches(r.association, r.channel, m.key, matches)
    && ProviderUp(db.providers, r.channel)
    && BestKey(db.keys, r.channel, now) == Some(r.key)
    && (auth.profile.None? || profile.Some?)
    && (auth.profile.Some? && profile.Some? ==> ChannelAllowed(profile.value, r.channel))
  }

  ghost predicate Routable(db: Tables, auth: Auth, m: Model, now: int, matches: (string, string) -> bool) {
    exists r :: IsCandidate(db, auth, m, now, matches, r)
  }

  // ---------------------------------------------------------------- listing agrees with routing

  /** The conditions that the two queries spell out separately come to the same. */
  lemma {:induction false} SameChannels(a: Association, c: Channel, key: string, matches: (string, string) -> bool)
    ensures ListsChannel(a, c, key, matches) <==> Reaches(a, c, key, matches)
  {
  }

  lemma {:induction false} SameProviders(ps: seq<Provider>, c: Channel)
    ensures ListsProvider(ps, c) <==> ProviderUp(ps, c)
  {
    if ProviderUp(ps, c) {
      var p :| p in ps && p.tenant == c.tenant && p.id == c.provider && p.enabled && !p.deleted;
      var i :| 0 <= i < |ps| && ps[i] == p;
    }
  }

  lemma {:induction false} SameKeys(k: ProviderKey, c: Channel, now: int)
    ensures ListsKey(k, c, now) <==> KeyOf(k, c, now)
    ensures KeyOf(k, c, now) <==> k.tenant == c.tenant && k.channel == c.id && Usable(k, now)
  {
  }

  lemma {:induction false} SameProfiles(p: Profile, c: Channel)
    ensures ListsThrough(p, c) <==> ChannelAllowed(p, c)
  {
    if exists tag :: tag in p.allowedTags && tag in c.tags {
      var tag :| tag in p.allowedTags && tag in c.tags;
      var i :| 0 <= i < |p.allowedTags| && p.allowedTags[i] == tag;
    }
  }

  lemma {:induction false} RouteGivesCandidate(db: Tables, auth: Auth, m: Model, now: int,
                                               matches: (string, string) -> bool)
    requires ActiveProfile(db.profiles, auth).Some? && m.tenant == auth.tenant
    requires HasRoute(db, ActiveProfile(db.profiles, auth).value, m, now, matches)
    ensures Routable(db, auth, m, now, matches)
  {
    var p := ActiveProfile(db.profiles, auth).value;
    var i, j, k :| 0 <= i < |db.associations| && 0 <= j < |db.channels| && 0 <= k < |db.keys| &&
      Joins(db.providers, p, m, now, matches, db.associations[i], db.channels[j], db.keys[k]);
    SameChannels(db.associations[i], db.channels[j], m.key, matches);
    SameProviders(db.providers, db.channels[j]);
    SameKeys(db.keys[k], db.channels[j], now);
    SameProfiles(p, db.channels[j]);
    var best := BestKey(db.keys, db.channels[j], now);
    assert IsCandidate(db, auth, m, now, matches, Candidate(db.associations[i], db.channels[j], best.value));
  }

  lemma {:induction false} CandidateGivesRoute(db: Tables, auth: Auth, m: Model, now: int,
                                               matches: (string, string) -> bool)
    requires ActiveProfile(db.profiles, auth).Some? && m.tenant == auth.tenant
    requires Routable(db, auth, m, now, matches)
    ensures HasRoute(db, ActiveProfile(db.profiles, auth).value, m, now, matches)
  {
    var p := ActiveProfile(db.profiles, auth).value;
    var r :| IsCandidate(db, auth, m, now, matches, r);
    var i :| 0 <= i < |db.associations| && db.associations[i] == r.association;
    var j :| 0 <= j < |db.channels| && db.channels[j] == r.channel;
    SameChannels(r.association, r.channel, m.key, matches);
    SameProviders(db.providers, r.channel);
    SameKeys(r.key, r.channel, now);
    SameProfiles(p, r.channel);
    var k :| 0 <= k < |db.keys| && db.keys[k] == r.key;
    assert Joins(db.providers, p, m, now, matches, db.associations[i], db.channels[j], db.keys[k]);
  }

  /** Model keys are unique in a tenant and never empty. */
  predicate ModelsWellFormed(ms: seq<Model>) {
    && (forall i, j :: 0 <= i < j < |ms| ==> !(ms[i].tenant == ms[j].tenant && ms[i].key == ms[j].key))
    && (forall i :: 0 <= i < |ms| ==> ms[i].key != "")
  }

  /** Any table filled under the unique index of tenant and key is such. */
  lemma {:induction false} InsertKeepsWellFormed(ms: seq<Model>, m: Model)
    requires ModelsWellFormed(ms) && m.key != ""
    requires forall i :: 0 <= i < |ms| ==> ms[i].tenant != m.tenant || ms[i].key != m.key
    ensures ModelsWellFormed([]) && ModelsWellFormed(ms + [m])
  {
  }

  predicate NullAlias(p: Profile, key: string) { key in p.aliases && p.aliases[key].None? }

  lemma {:induction false} OwnNameResolves(db: Tables, auth: Auth, m: Model)
    requires ModelsWellFormed(db.models) && m in db.models
    ensures ResolveModel(db, auth, m.key) == Some(m) <==> Resolves(m, auth, ActiveProfile(db.profiles, auth), m.key)
  {
    var r := ResolveModel(db, auth, m.key);
    if r.Some? && Resolves(m, auth, ActiveProfile(db.profiles, auth), m.key) {
      assert r.value.key == m.key && r.value.tenant == m.tenant;
      var i :| 0 <= i < |db.models| && db.models[i] == m;
      var j :| 0 <= j < |db.models| && db.models[j] == r.value;
    }
  }

  /**
   An alias stands for its target: a name that the active profile maps to a
   model's key resolves to that model if and only if the model is active, not
   deleted, of the caller's tenant, and the profile allows and does not deny it;
   a name that is not mapped stands for itself.
   */
  lemma {:induction false} AliasResolves(db: Tables, auth: Auth, m: Model, requested: string)
    requires ModelsWellFormed(db.models) && m in db.models && ActiveProfile(db.profiles, auth).Some?
    requires var p := ActiveProfile(db.profiles, auth).value;
             (requested in p.aliases && p.aliases[requested] == Some(m.key))
             || (requested !in p.aliases && requested == m.key)
    ensures var p := ActiveProfile(db.profiles, auth).value;
            ResolveModel(db, auth, requested) == Some(m)
            <==> && m.tenant == auth.tenant && m.active && !m.deleted
                 && (|p.allowedModels| == 0 || m.key in p.allowedModels) && m.key !in p.deniedModels
  {
    var r := ResolveModel(db, auth, requested);
    if r.Some? && Resolves(m, auth, ActiveProfile(db.profiles, auth), requested) {
      var i :| 0 <= i < |db.models| && db.models[i] == m;
      var j :| 0 <= j < |db.models| && db.models[j] == r.value;
    }
  }

  /** The profile in force: the caller's own, of the caller's tenant and project, active and not deleted. */
  lemma {:induction false} ProfileInForce(ps: seq<Profile>, auth: Auth, p: Profile)
    ensures ActiveProfile(ps, auth) == Some(p) || (ActiveProfile(ps, auth).None? && p in ps) ==>
              (ActiveProfile(ps, auth) == Some(p)
               <==> && auth.profile == Some(p.id) && p.tenant == auth.tenant && p.project == auth.project
                    && p.active && !p.deleted)
    ensures ActiveProfile(ps, auth) == Some(p) ==> p in ps
  {
  }

  /** A caller whose profile is not in force sees no model, no name of one and no route. */
  lemma {:induction false} NoProfileInForce(db: Tables, auth: Auth, m: Model, requested: string, now: int,
                                            matches: (string, string) -> bool)
    requires auth.profile.Some?
    requires !exists p :: p in db.profiles && auth.profile == Some(p.id) && p.tenant == auth.tenant
                          && p.project == auth.project && p.active && !p.deleted
    ensures !Listed(db, auth, m, now, matches) && !Routable(db, auth, m, now, matches)
    ensures ResolveModel(db, auth, requested) == None
  {
  }

  /** Without a profile every name stands for itself and nothing is denied. */
  lemma {:induction false} PlainNameResolves(db: Tables, auth: Auth, m: Model)
    requires ModelsWellFormed(db.models) && m in db.models && auth.profile.None?
    ensures ResolveModel(db, auth, m.key) == Some(m) <==> m.tenant == auth.tenant && m.active && !m.deleted
  {
    OwnNameResolves(db, auth, m);
  }

  /**
   Listing agrees with routing. For an active profile, a model is listed if
   and only if it is public or internal, its name is not aliased to null, its
   own name resolves to it, and the route query returns a candidate for it.
   */
  lemma {:induction false} ListedMeansRoutable(db: Tables, auth: Auth, m: Model, now: int,
                                               matches: (string, string) -> bool)
    requires ModelsWellFormed(db.models)
    requires ActiveProfile(db.profiles, auth).Some?
    ensures Listed(db, auth, m, now, matches)
       <==> && (m.visibility == Public || m.visibility == Internal)
            && !NullAlias(ActiveProfile(db.profiles, auth).value, m.key)
            && ResolveModel(db, auth, m.key) == Some(m)
            && Routable(db, auth, m, now, matches)
  {
    if m in db.models && m.tenant == auth.tenant {
      OwnNameResolves(db, auth, m);
      if HasRoute(db, ActiveProfile(db.profiles, auth).value, m, now, matches) {
        RouteGivesCandidate(db, auth, m, now, matches);
      }
      if Routable(db, auth, m, now, matches) {
        CandidateGivesRoute(db, auth, m, now, matches);
      }
    }
  }

  /** Why null aliases are excepted: such a name is never listed, yet it resolves like a name without an alias. */
  lemma {:induction false} NullAliasHidesModel(db: Tables, auth: Auth, m: Model, now: int,
                                               matches: (string, string) -> bool)
    requires ModelsWellFormed(db.models) && m in db.models && ActiveProfile(db.profiles, auth).Some?
    requires NullAlias(ActiveProfile(db.profiles, auth).value, m.key)
    ensures !Listed(db, auth, m, now, matches)
    ensures m.tenant == auth.tenant && m.active && !m.deleted
            && Allowed(ActiveProfile(db.profiles, auth).value, m.key)
            && m.key !in ActiveProfile(db.profiles, auth).value.deniedModels
            ==> ResolveModel(db, auth, m.key) == Some(m)
  {
    OwnNameResolves(db, auth, m);
  }
}
