/**
 Which skills an agent run is given: `getAssignedSkillIdsForAgent` of
 `src/lib/agents-store.ts` with the visibility filter of
 `packages/skills/src/llm-matching/visibility.ts`.
 */
module SkillResolution {
  import opened Wrappers
  import opened JsonString
  import opened TextOrder

  datatype Level = AgentLevel | System | Personal | Team | Organization | Workspace | Project | Other(name: Text)

  /** A catalog entry; an absent owner or scope is the empty text. */
  datatype Skill = Skill(id: Text, level: Option<Level>, scope: Text, agentId: Text)

  datatype Match = Match(skillId: Text, matched: bool, ok: bool)

  datatype OwnerType = UserOwner | TeamOwner | ProjectOwner | OrganizationOwner | WorkspaceOwner | UnknownOwner

  datatype Assignment = Assignment(skillId: Text, ownerType: OwnerType, ownerId: Text)

  /** The caller; absent lists are empty and an absent organization is the empty text. */
  datatype Actor = Actor(userId: Text, teamIds: seq<Text>, projectIds: seq<Text>, orgId: Text, admin: bool)

  const NOBODY := Actor([], [], [], [], false)

  datatype Agent = Agent(id: Text, identifier: Text, packageId: Text)

  /** What the reads of one call give; None is a read that failed. */
  datatype Reads = Reads(
    custom: Option<seq<Assignment>>,
    globals: Option<seq<Text>>,
    catalog: Option<seq<Skill>>,
    agents: Option<seq<Agent>>,
    matches: Text -> Option<seq<Match>>)

  function OrEmpty<T>(list: Option<seq<T>>): seq<T> {
    if list.None? then [] else list.value
  }

  // ------------------------------------------------------------------- scoping

  predicate Owns(actor: Actor, a: Assignment) {
    match a.ownerType
    case UserOwner => a.ownerId == actor.userId
    case TeamOwner => a.ownerId in actor.teamIds
    case ProjectOwner => a.ownerId in actor.projectIds
    case OrganizationOwner => actor.orgId != [] && a.ownerId == actor.orgId
    case WorkspaceOwner => actor.orgId != []
    case UnknownOwner => false
  }

  predicate IsScoped(level: Level) {
    level.Personal? || level.Team? || level.Organization? || level.Workspace? || level.Project?
  }

  datatype Meta = Meta(level: Level, scope: Text)

  function MetaOf(s: Skill): Meta {
    Meta(if s.level.Some? then s.level.value else System, s.scope)
  }

  predicate MaySee(actor: Actor, m: Meta) {
    if !IsScoped(m.level) then true
    else if m.level.Workspace? then actor.orgId != [] && actor.userId != []
    else if m.scope == [] then false
    else match m.level
      case Personal => actor.userId != [] && m.scope == actor.userId
      case Team => m.scope in actor.teamIds
      case Organization => actor.orgId != [] && m.scope == actor.orgId
      case _ => m.scope in actor.projectIds
  }

  /** A later catalog entry with the same id replaces an earlier one. */
  function ById(catalog: seq<Skill>): map<Text, Meta> {
    if catalog == [] then map[]
    else
      var last := |catalog| - 1;
      ById(catalog[..last])[catalog[last].id := MetaOf(catalog[last])]
  }

  predicate Visible(actor: Actor, known: map<Text, Meta>, id: Text) {
    actor.admin || (id in known && MaySee(actor, known[id]))
  }

  // --------------------------------------------------------------------- tiers

  function AfterSlash(t: Text): Text {
    if exists i :: 0 <= i < |t| && t[i] == 0x2F then AfterSlash(t[1..]) else t
  }

  /** The installed agent a slug or package id names. */
  function Canonical(agents: seq<Agent>, agentId: Text): Text {
    if agents == [] then agentId
    else if agentId in [agents[0].id, agents[0].identifier, agents[0].packageId] then agents[0].packageId
    else Canonical(agents[1..], agentId)
  }

  predicate OwnedBy(s: Skill, agentId: Text, packageId: Text) {
    && s.level == Some(AgentLevel) && s.agentId != []
    && (s.agentId == agentId || s.agentId == packageId
        || AfterSlash(s.agentId) == agentId || AfterSlash(s.agentId) == AfterSlash(agentId))
  }

  /** The ids of the catalog entries that are kept, in catalog order. */
  function Ids(keep: Skill -> bool, catalog: seq<Skill>): seq<Text> {
    if catalog == [] then [] else (if keep(catalog[0]) then [catalog[0].id] else []) + Ids(keep, catalog[1..])
  }

  function Recommended(actor: Actor, known: map<Text, Meta>, rows: seq<Match>): seq<Text> {
    if rows == [] then []
    else
      (if rows[0].matched && rows[0].ok && Visible(actor, known, rows[0].skillId) then [rows[0].skillId] else [])
      + Recommended(actor, known, rows[1..])
  }

  function Assigned(actor: Actor, rows: seq<Assignment>): seq<Text> {
    if rows == [] then []
    else (if Owns(actor, rows[0]) then [rows[0].skillId] else []) + Assigned(actor, rows[1..])
  }

  function Globals(r: Reads, actor: Option<Actor>): seq<Text> {
    if actor.Some? then OrEmpty(r.globals) else []
  }

  function Customs(r: Reads, actor: Option<Actor>): seq<Text> {
    if actor.Some? then Assigned(actor.value, OrEmpty(r.custom)) else []
  }

  /** The five tiers of a call whose catalog reads succeeded. */
  function Tiers(r: Reads, catalog: seq<Skill>, agents: seq<Agent>, agentId: Text,
          actor: Option<Actor>): seq<seq<Text>> {
    var packageId := Canonical(agents, agentId);
    var viewer := if actor.Some? then actor.value else NOBODY;
    [ SortTexts(Ids((s: Skill) => OwnedBy(s, agentId, packageId), catalog)),
      Recommended(viewer, ById(catalog), OrEmpty(r.matches(packageId))),
      SortTexts(Ids((s: Skill) => s.level == Some(System), catalog)),
      SortTexts(Globals(r, actor)),
      Customs(r, actor) ]
  }

  function Flatten(tiers: seq<seq<Text>>): seq<Text> {
    if tiers == [] then [] else tiers[0] + Flatten(tiers[1..])
  }

  /** The list without what came before in it. */
  function Deduped(all: seq<Text>): seq<Text> {
    if all == [] then []
    else
      var last := all[|all| - 1];
      var before := Deduped(all[..|all| - 1]);
      if last in all[..|all| - 1] then before else before + [last]
  }

  function Resolution(r: Reads, agentId: Text, actor: Option<Actor>): seq<Text> {
    if r.catalog.None? || r.agents.None? then Deduped(Globals(r, actor) + Customs(r, actor))
    else Deduped(Flatten(Tiers(r, r.catalog.value, r.agents.value, agentId, actor)))
  }

  /** The union loop: `seen` and `result`. */
  method Union(all: seq<Text>) returns (result: seq<Text>)
    ensures result == Deduped(all)
  {
    result := [];
    var seen := {};
    for i := 0 to |all|
      invariant result == Deduped(all[..i])
      invariant seen == set x | x in all[..i]
    {
      assert all[..i + 1][..i] == all[..i];
      if all[i] !in seen {
        seen := seen + {all[i]};
        result := result + [all[i]];
      }
    }
    assert all[..|all|] == all;
  }

  method GetAssignedSkillIds(r: Reads, agentId: Text, actor: Option<Actor>) returns (result: seq<Text>)
    ensures result == Resolution(r, agentId, actor)
  {
    if r.catalog.None? || r.agents.None? {
      result := Union(Globals(r, actor) + Customs(r, actor));
    } else {
      result := Union(Flatten(Tiers(r, r.catalog.value, r.agents.value, agentId, actor)));
    }
  }

  // -------------------------------------------------------- the union in itself

  ghost predicate NoRepeats(s: seq<Text>) {
    forall i, j :: 0 <= i < j < |s| ==> s[i] != s[j]
  }

  /** Where an element first occurs. */
  function First(all: seq<Text>, x: Text): (n: nat)
    requires x in all
    ensures n < |all| && all[n] == x
  {
    if all[0] == x then 0 else 1 + First(all[1..], x)
  }

  lemma {:induction false} FirstOfPrefix(all: seq<Text>, n: nat, x: Text)
    requires n <= |all| && x in all[..n]
    ensures First(all, x) == First(all[..n], x) < n
  {
    if all[0] != x {
      assert all[..n][1..] == all[1..][..n - 1];
      FirstOfPrefix(all[1..], n - 1, x);
    }
  }

  lemma {:induction false} FirstAfterPrefix(all: seq<Text>, n: nat, x: Text)
    requires n <= |all| && x !in all[..n] && x in all
    ensures x in all[n..] && First(all, x) == n + First(all[n..], x)
  {
    if n == 0 {
      assert all[0..] == all;
    } else {
      assert all[0] == all[..n][0];
      assert all[1..][..n - 1] == all[..n][1..];
      FirstAfterPrefix(all[1..], n - 1, x);
      assert all[1..][n - 1..] == all[n..];
    }
  }

  /** No repeats, the same elements, in the order of their first occurrence. */
  ghost predicate IsUnionOf(result: seq<Text>, all: seq<Text>) {
    && NoRepeats(result)
    && (forall x :: x in result <==> x in all)
    && (forall i, j :: 0 <= i < j < |result| && result[i] in all && result[j] in all ==>
      First(all, result[i]) < First(all, result[j]))
  }

  lemma {:induction false} DedupedIsUnion(all: seq<Text>)
    ensures IsUnionOf(Deduped(all), all)
  {
    if all != [] {
      var n := |all| - 1;
      var init, last := all[..n], all[n];
      DedupedIsUnion(init);
      assert all == init + [last];
      var before := Deduped(init);
      forall i, j | 0 <= i < j < |before|
        ensures First(all, before[i]) < First(all, before[j])
      {
        FirstOfPrefix(all, n, before[i]);
        FirstOfPrefix(all, n, before[j]);
      }
      if last !in init {
        FirstAfterPrefix(all, n, last);
        forall i | 0 <= i < |before|
          ensures First(all, before[i]) < First(all, last)
        {
          FirstOfPrefix(all, n, before[i]);
        }
      }
    }
  }

  /** The first tier that lists an id. */
  function TierOf(tiers: seq<seq<Text>>, x: Text): nat {
    if tiers == [] || x in tiers[0] then 0 else 1 + TierOf(tiers[1..], x)
  }

  lemma {:induction false} InFlat(tiers: seq<seq<Text>>, x: Text)
    ensures x in Flatten(tiers) <==> exists t :: 0 <= t < |tiers| && x in tiers[t]
  {
    if tiers != [] {
      InFlat(tiers[1..], x);
      if x in Flatten(tiers[1..]) {
        var t :| 0 <= t < |tiers[1..]| && x in tiers[1..][t];
        assert x in tiers[t + 1];
      }
      if t :| 0 < t < |tiers| && x in tiers[t] {
        assert x in tiers[1..][t - 1];
      }
    }
  }

  lemma {:induction false} EarlierMeansTier(tiers: seq<seq<Text>>, x: Text, y: Text)
    requires x in Flatten(tiers) && y in Flatten(tiers) && First(Flatten(tiers), x) < First(Flatten(tiers), y)
    ensures TierOf(tiers, x) <= TierOf(tiers, y)
  {
    if tiers != [] && x !in tiers[0] {
      var all, n := Flatten(tiers), |tiers[0]|;
      assert all[..n] == tiers[0] && all[n..] == Flatten(tiers[1..]);
      FirstAfterPrefix(all, n, x);
      if y in tiers[0] {
        FirstOfPrefix(all, n, y);
      } else {
        FirstAfterPrefix(all, n, y);
        EarlierMeansTier(tiers[1..], x, y);
      }
    }
  }

  /** No duplicates, as a set the union of the tiers, and an id is listed no
      later than any id of a later tier. */
  ghost predicate IsTieredUnion(result: seq<Text>, tiers: seq<seq<Text>>) {
    && NoRepeats(result)
    && (forall x :: x in result <==> exists t :: 0 <= t < |tiers| && x in tiers[t])
    && (forall i, j :: 0 <= i < j < |result| ==> TierOf(tiers, result[i]) <= TierOf(tiers, result[j]))
  }

  lemma UnionIsTiered(tiers: seq<seq<Text>>)
    ensures IsTieredUnion(Deduped(Flatten(tiers)), tiers)
  {
    var all := Flatten(tiers);
    var result := Deduped(all);
    DedupedIsUnion(all);
    forall i, j | 0 <= i < j < |result|
      ensures TierOf(tiers, result[i]) <= TierOf(tiers, result[j])
    {
      EarlierMeansTier(tiers, result[i], result[j]);
    }
    forall x
      ensures x in result <==> exists t :: 0 <= t < |tiers| && x in tiers[t]
    {
      InFlat(tiers, x);
    }
  }

  /** What a call resolves is the ordered, duplicate-free union of its tiers. */
  lemma ResolutionIsTieredUnion(r: Reads, agentId: Text, actor: Option<Actor>)
    requires r.catalog.Some? && r.agents.Some?
    ensures IsTieredUnion(Resolution(r, agentId, actor), Tiers(r, r.catalog.value, r.agents.value, agentId, actor))
  {
    UnionIsTiered(Tiers(r, r.catalog.value, r.agents.value, agentId, actor));
  }

  // ------------------------------------------------ independence of read order

  /** No id is in the catalog twice. */
  ghost predicate UniqueIds(catalog: seq<Skill>) {
    forall i, j :: 0 <= i < j < |catalog| ==> catalog[i].id != catalog[j].id
  }

  lemma {:induction false} ByIdFinds(catalog: seq<Skill>)
    requires UniqueIds(catalog)
    ensures forall s :: s in catalog ==> s.id in ById(catalog) && ById(catalog)[s.id] == MetaOf(s)
    ensures forall id :: id in ById(catalog) ==> exists s :: s in catalog && s.id == id
  {
    if catalog != [] {
      var init := catalog[..|catalog| - 1];
      ByIdFinds(init);
      assert catalog == init + [catalog[|catalog| - 1]];
    }
  }

  lemma SameEntries<T>(a: seq<T>, b: seq<T>)
    requires multiset(a) == multiset(b)
    ensures forall x :: x in a <==> x in b
  {
    forall x
      ensures x in a <==> x in b
    {
      assert x in a <==> x in multiset(a);
      assert x in b <==> x in multiset(b);
    }
  }

  lemma ByIdForgetsOrder(a: seq<Skill>, b: seq<Skill>)
    requires UniqueIds(a) && UniqueIds(b) && multiset(a) == multiset(b)
    ensures ById(a) == ById(b)
  {
    ByIdFinds(a);
    ByIdFinds(b);
    SameEntries(a, b);
    assert forall id :: id in ById(a) <==> id in ById(b);
  }

  lemma {:induction false} IdsJoin(keep: Skill -> bool, a: seq<Skill>, b: seq<Skill>)
    ensures Ids(keep, a + b) == Ids(keep, a) + Ids(keep, b)
  {
    if a == [] {
      assert a + b == b;
    } else {
      assert (a + b)[1..] == a[1..] + b;
      IdsJoin(keep, a[1..], b);
    }
  }

  lemma TakenOut<T>(b: seq<T>, j: nat)
    requires j < |b|
    ensures b == b[..j] + ([b[j]] + b[j + 1..])
    ensures multiset(b) == multiset(b[..j] + b[j + 1..]) + multiset{b[j]}
  {
    assert b == b[..j] + ([b[j]] + b[j + 1..]);
  }

  lemma IdsWithout(keep: Skill -> bool, b: seq<Skill>, j: nat)
    requires j < |b|
    ensures multiset(Ids(keep, b)) == multiset(Ids(keep, [b[j]])) + multiset(Ids(keep, b[..j] + b[j + 1..]))
  {
    TakenOut(b, j);
    IdsJoin(keep, b[..j], [b[j]] + b[j + 1..]);
    IdsJoin(keep, [b[j]], b[j + 1..]);
    IdsJoin(keep, b[..j], b[j + 1..]);
  }

  lemma BothWithout<T>(a: seq<T>, b: seq<T>) returns (j: nat)
    requires a != [] && multiset(a) == multiset(b)
    ensures j < |b| && b[j] == a[0] && multiset(a[1..]) == multiset(b[..j] + b[j + 1..])
  {
    SameEntries(a, b);
    assert a[0] in a;
    j :| 0 <= j < |b| && b[j] == a[0];
    TakenOut(a, 0);
    TakenOut(b, j);
    assert a[..0] + a[1..] == a[1..];
    assert multiset(a[1..]) == multiset(a) - multiset{a[0]};
  }

  lemma {:induction false} IdsForgetOrder(keep: Skill -> bool, a: seq<Skill>, b: seq<Skill>)
    requires multiset(a) == multiset(b)
    ensures multiset(Ids(keep, a)) == multiset(Ids(keep, b))
  {
    if a == [] {
      assert |multiset(b)| == |b|;
    } else {
      var j := BothWithout(a, b);
      IdsForgetOrder(keep, a[1..], b[..j] + b[j + 1..]);
      IdsWithout(keep, a, 0);
      assert a[..0] + a[1..] == a[1..];
      IdsWithout(keep, b, j);
    }
  }

  lemma TierForgetsOrder(keep: Skill -> bool, a: seq<Skill>, b: seq<Skill>)
    requires multiset(a) == multiset(b)
    ensures SortTexts(Ids(keep, a)) == SortTexts(Ids(keep, b))
  {
    IdsForgetOrder(keep, a, b);
    SortForgetsOrder(Ids(keep, a), Ids(keep, b));
  }

  /** Two calls whose reads differ only in the order of the catalog and of the
      system-global list. */
  ghost predicate SameDatabase(r: Reads, q: Reads) {
    && r.custom == q.custom && r.agents == q.agents && r.matches == q.matches
    && multiset(OrEmpty(r.globals)) == multiset(OrEmpty(q.globals))
    && r.catalog.Some? && q.catalog.Some? && r.agents.Some?
    && multiset(r.catalog.value) == multiset(q.catalog.value)
    && UniqueIds(r.catalog.value) && UniqueIds(q.catalog.value)
  }

  /** Resolution is a function of what the database holds: neither the order of
      the skill catalog nor that of the system-global list shows in the result. */
  lemma ResolutionForgetsReadOrder(r: Reads, q: Reads, agentId: Text, actor: Option<Actor>)
    requires SameDatabase(r, q)
    ensures Resolution(r, agentId, actor) == Resolution(q, agentId, actor)
  {
    var a, b := r.catalog.value, q.catalog.value;
    var packageId := Canonical(r.agents.value, agentId);
    TierForgetsOrder((s: Skill) => OwnedBy(s, agentId, packageId), a, b);
    ByIdForgetsOrder(a, b);
    TierForgetsOrder((s: Skill) => s.level == Some(System), a, b);
    SortForgetsOrder(Globals(r, actor), Globals(q, actor));
    assert Tiers(r, a, r.agents.value, agentId, actor) == Tiers(q, b, q.agents.value, agentId, actor);
  }

  // ------------------------------------------------------------------ visibility

  lemma {:induction false} IdsAreKept(keep: Skill -> bool, catalog: seq<Skill>, x: Text)
    requires x in Ids(keep, catalog)
    ensures exists s :: s in catalog && s.id == x && keep(s)
  {
    if !(keep(catalog[0]) && catalog[0].id == x) {
      IdsAreKept(keep, catalog[1..], x);
    } else {
      assert catalog[0] in catalog;
    }
  }

  lemma {:induction false} RecommendedAreVisible(actor: Actor, known: map<Text, Meta>, rows: seq<Match>, x: Text)
    requires x in Recommended(actor, known, rows)
    ensures Visible(actor, known, x)
    ensures exists m :: m in rows && m.skillId == x && m.matched && m.ok
  {
    var m := rows[0];
    if !(m.matched && m.ok && Visible(actor, known, m.skillId) && m.skillId == x) {
      RecommendedAreVisible(actor, known, rows[1..], x);
    } else {
      assert m in rows;
    }
  }

  /** A call without an actor never resolves a personal, team, organization,
      workspace or project skill, whatever the match table says. */
  lemma NobodySeesNoScopedSkill(r: Reads, agentId: Text, s: Skill)
    requires r.catalog.Some? && r.agents.Some? && UniqueIds(r.catalog.value)
    requires s in r.catalog.value && IsScoped(MetaOf(s).level)
    ensures s.id !in Resolution(r, agentId, None)
  {
    var catalog := r.catalog.value;
    var tiers := Tiers(r, catalog, r.agents.value, agentId, None);
    if s.id in Resolution(r, agentId, None) {
      ResolutionIsTieredUnion(r, agentId, None);
      var t :| 0 <= t < |tiers| && s.id in tiers[t];
      ScopedInNoTier(r, catalog, agentId, s, t);
    }
  }

  lemma SortKeepsIds(texts: seq<Text>, x: Text)
    ensures x in SortTexts(texts) <==> x in texts
  {
    SortIsSorted(texts);
    SameEntries(SortTexts(texts), texts);
  }

  lemma OnlyEntry(catalog: seq<Skill>, s: Skill, q: Skill)
    requires UniqueIds(catalog) && s in catalog && q in catalog && s.id == q.id
    ensures s == q
  {
  }

  lemma CatalogTiersAreUnscoped(catalog: seq<Skill>, keep: Skill -> bool, s: Skill)
    requires UniqueIds(catalog) && s in catalog && !keep(s)
    ensures s.id !in SortTexts(Ids(keep, catalog))
  {
    SortKeepsIds(Ids(keep, catalog), s.id);
    forall q | q in catalog && q.id == s.id
      ensures !keep(q)
    {
      OnlyEntry(catalog, s, q);
    }
    if s.id in Ids(keep, catalog) {
      IdsAreKept(keep, catalog, s.id);
    }
  }

  lemma ScopedInNoTier(r: Reads, catalog: seq<Skill>, agentId: Text, s: Skill, t: nat)
    requires r.agents.Some? && UniqueIds(catalog) && s in catalog && IsScoped(MetaOf(s).level) && t < 5
    ensures s.id !in Tiers(r, catalog, r.agents.value, agentId, None)[t]
  {
    var packageId := Canonical(r.agents.value, agentId);
    if t == 0 {
      CatalogTiersAreUnscoped(catalog, (s: Skill) => OwnedBy(s, agentId, packageId), s);
    } else if t == 2 {
      CatalogTiersAreUnscoped(catalog, (s: Skill) => s.level == Some(System), s);
    } else if t == 1 {
      ByIdFinds(catalog);
      if s.id in Recommended(NOBODY, ById(catalog), OrEmpty(r.matches(packageId))) {
        RecommendedAreVisible(NOBODY, ById(catalog), OrEmpty(r.matches(packageId)), s.id);
      }
    } else {
      SortKeepsIds([], s.id);
    }
  }

  /** The actor is a member of the scope the skill belongs to; a skill of another
      level, or of none, has no scope. */
  predicate Holds(actor: Actor, s: Skill) {
    match s.level
    case Some(Personal) => s.scope != [] && s.scope == actor.userId
    case Some(Team) => s.scope != [] && s.scope in actor.teamIds
    case Some(Project) => s.scope != [] && s.scope in actor.projectIds
    case Some(Organization) => s.scope != [] && s.scope == actor.orgId
    case Some(Workspace) => actor.userId != [] && actor.orgId != []
    case _ => true
  }

  lemma MatchedToHolders(actor: Actor, catalog: seq<Skill>, rows: seq<Match>, s: Skill)
    requires UniqueIds(catalog) && !actor.admin && s in catalog && s.id in Recommended(actor, ById(catalog), rows)
    ensures Holds(actor, s)
  {
    ByIdFinds(catalog);
    RecommendedAreVisible(actor, ById(catalog), rows, s.id);
  }

  /** An actor who is no platform admin is resolved a scoped skill only as a holder
      of its scope, unless the skill is system-global or assigned by hand. */
  lemma ScopedOnlyToHolders(r: Reads, agentId: Text, actor: Actor, s: Skill)
    requires r.catalog.Some? && r.agents.Some? && UniqueIds(r.catalog.value) && !actor.admin
    requires s in r.catalog.value && IsScoped(MetaOf(s).level) && s.id in Resolution(r, agentId, Some(actor))
    ensures Holds(actor, s) || s.id in Globals(r, Some(actor)) || s.id in Customs(r, Some(actor))
  {
    var catalog := r.catalog.value;
    var tiers := Tiers(r, catalog, r.agents.value, agentId, Some(actor));
    var packageId := Canonical(r.agents.value, agentId);
    ResolutionIsTieredUnion(r, agentId, Some(actor));
    var t :| 0 <= t < |tiers| && s.id in tiers[t];
    if t == 0 {
      CatalogTiersAreUnscoped(catalog, (s: Skill) => OwnedBy(s, agentId, packageId), s);
    } else if t == 1 {
      MatchedToHolders(actor, catalog, OrEmpty(r.matches(packageId)), s);
    } else if t == 2 {
      CatalogTiersAreUnscoped(catalog, (s: Skill) => s.level == Some(System), s);
    } else if t == 3 {
      SortKeepsIds(Globals(r, Some(actor)), s.id);
    }
  }

  /** A hand-made assignment to the actor, or to something the actor belongs to. */
  predicate AssignsTo(actor: Actor, a: Assignment, x: Text) {
    a.skillId == x &&
    match a.ownerType
    case UserOwner => a.ownerId == actor.userId
    case TeamOwner => a.ownerId in actor.teamIds
    case ProjectOwner => a.ownerId in actor.projectIds
    case OrganizationOwner => actor.orgId != [] && a.ownerId == actor.orgId
    case WorkspaceOwner => actor.orgId != []
    case UnknownOwner => false
  }

  /** A skill is assigned by hand to an actor exactly when some row assigns it to
      the actor, to a team, project or organization of the actor's, or, for an
      actor with an organization, to the workspace. */
  lemma {:induction false} AssignedToOwners(actor: Actor, rows: seq<Assignment>, x: Text)
    ensures x in Assigned(actor, rows) <==> exists a :: a in rows && AssignsTo(actor, a, x)
  {
    if rows != [] {
      AssignedToOwners(actor, rows[1..], x);
      assert rows == [rows[0]] + rows[1..];
      assert x in Assigned(actor, rows) <==> AssignsTo(actor, rows[0], x) || x in Assigned(actor, rows[1..]);
    }
  }
}
