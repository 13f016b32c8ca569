/**
 What `getAssignedSkillIdsForAgent` of `src/lib/agents-store.ts` resolves, rule by
 rule: which ids are in the result and in which order they stand.
 */
module ResolutionRules {
  import opened Wrappers
  import opened JsonString
  import opened TextOrder
  import opened SkillResolution

  // ------------------------------------------------------------- names of agents

  predicate Names(a: Agent, agentId: Text) {
    a.id == agentId || a.identifier == agentId || a.packageId == agentId
  }

  /** A slug or package id stands for the package of the first agent it names, and
      for itself if it names none. */
  lemma {:induction false} CanonicalIsFirstNamed(agents: seq<Agent>, agentId: Text, i: nat)
    requires i <= |agents| && (i < |agents| ==> Names(agents[i], agentId))
    requires forall j :: 0 <= j < i ==> !Names(agents[j], agentId)
    ensures Canonical(agents, agentId) == if i < |agents| then agents[i].packageId else agentId
  {
    if i > 0 {
      assert forall j :: 0 <= j < i - 1 ==> agents[1..][j] == agents[j + 1];
      assert i < |agents| ==> agents[1..][i - 1] == agents[i];
      CanonicalIsFirstNamed(agents[1..], agentId, i - 1);
    }
  }

  /** What stands behind the last slash. */
  lemma {:induction false} AfterSlashIsLastPart(t: Text)
    ensures 0x2F !in AfterSlash(t)
    ensures 0x2F !in t ==> AfterSlash(t) == t
    ensures forall before, name: Text :: t == before + [0x2F] + name && 0x2F !in name ==> AfterSlash(t) == name
  {
    if exists i :: 0 <= i < |t| && t[i] == 0x2F {
      AfterSlashIsLastPart(t[1..]);
      forall before, name: Text | t == before + [0x2F] + name && 0x2F !in name
        ensures AfterSlash(t) == name
      {
        if before == [] {
          assert t[1..] == name;
        } else {
          assert t[1..] == before[1..] + [0x2F] + name;
        }
      }
    } else {
      forall before, name: Text
        ensures t != before + [0x2F] + name
      {
        HasSlash(before, name);
      }
    }
  }

  lemma HasSlash(before: Text, name: Text)
    ensures exists i :: 0 <= i < |before + [0x2F] + name| && (before + [0x2F] + name)[i] == 0x2F
  {
    assert (before + [0x2F] + name)[|before|] == 0x2F;
  }

  // ---------------------------------------------------------------- visibility

  /** A catalog entry may be seen by whoever holds its scope. */
  lemma MaySeeExactly(actor: Actor, s: Skill)
    ensures MaySee(actor, MetaOf(s)) <==> Holds(actor, s)
  {
  }

  /** The last entry of an id, the one the map of the catalog keeps. */
  predicate IsLastEntry(catalog: seq<Skill>, id: Text, i: nat) {
    i < |catalog| && catalog[i].id == id && forall j :: i < j < |catalog| ==> catalog[j].id != id
  }

  lemma {:induction false} ByIdIsLast(catalog: seq<Skill>, id: Text)
    ensures id in ById(catalog) <==> exists i: nat :: IsLastEntry(catalog, id, i)
    ensures forall i: nat :: IsLastEntry(catalog, id, i) ==> ById(catalog)[id] == MetaOf(catalog[i])
  {
    if catalog != [] {
      var n: nat := |catalog| - 1;
      ByIdIsLast(catalog[..n], id);
      if catalog[n].id == id {
        assert IsLastEntry(catalog, id, n);
      } else {
        forall i: nat
          ensures IsLastEntry(catalog, id, i) <==> IsLastEntry(catalog[..n], id, i)
        {
          assert i < n ==> catalog[..n][i] == catalog[i];
        }
      }
    }
  }

  /** An administrator sees every id, known or not; others see an id by its entry. */
  lemma VisibleExactly(actor: Actor, catalog: seq<Skill>, id: Text)
    ensures Visible(actor, ById(catalog), id)
       <==> actor.admin || exists i: nat :: IsLastEntry(catalog, id, i) && Holds(actor, catalog[i])
  {
    ByIdIsLast(catalog, id);
    forall i: nat | IsLastEntry(catalog, id, i)
      ensures MaySee(actor, ById(catalog)[id]) <==> Holds(actor, catalog[i])
    {
      MaySeeExactly(actor, catalog[i]);
    }
  }

  // --------------------------------------------------------------- the five rules

  /** A skill bundled with the agent, by its id, its package or its short name. */
  predicate Bundled(s: Skill, agentId: Text, packageId: Text) {
    && s.level == Some(AgentLevel) && s.agentId != []
    && (s.agentId == agentId || s.agentId == packageId
        || AfterSlash(s.agentId) == agentId || AfterSlash(s.agentId) == AfterSlash(agentId))
  }

  ghost predicate Matches(viewer: Actor, catalog: seq<Skill>, m: Match, x: Text) {
    && m.skillId == x && m.matched && m.ok
    && (viewer.admin || exists i: nat :: IsLastEntry(catalog, x, i) && Holds(viewer, catalog[i]))
  }

  function Viewer(actor: Option<Actor>): Actor {
    if actor.Some? then actor.value else Actor([], [], [], [], false)
  }

  /** Why an id is resolved; the first rule is the strongest. */
  ghost predicate Rule(r: Reads, agentId: Text, actor: Option<Actor>, x: Text, t: nat)
    requires r.catalog.Some? && r.agents.Some?
  {
    var catalog, packageId := r.catalog.value, Canonical(r.agents.value, agentId);
    match t
    case 0 => exists s :: s in catalog && s.id == x && Bundled(s, agentId, packageId)
    case 1 => exists m :: m in OrEmpty(r.matches(packageId)) && Matches(Viewer(actor), catalog, m, x)
    case 2 => exists s :: s in catalog && s.id == x && s.level == Some(System)
    case 3 => actor.Some? && x in OrEmpty(r.globals)
    case 4 => actor.Some? && exists a :: a in OrEmpty(r.custom) && AssignsTo(actor.value, a, x)
    case _ => false
  }

  lemma {:induction false} IdsExactly(keep: Skill -> bool, catalog: seq<Skill>, x: Text)
    ensures x in SortTexts(Ids(keep, catalog)) <==> exists s :: s in catalog && s.id == x && keep(s)
  {
    SortKeepsIds(Ids(keep, catalog), x);
    InIds(keep, catalog, x);
  }

  lemma {:induction false} InIds(keep: Skill -> bool, catalog: seq<Skill>, x: Text)
    ensures x in Ids(keep, catalog) <==> exists s :: s in catalog && s.id == x && keep(s)
  {
    if catalog != [] {
      InIds(keep, catalog[1..], x);
      assert catalog == [catalog[0]] + catalog[1..];
    }
  }

  lemma FirstOrLater<T>(rows: seq<T>)
    requires rows != []
    ensures forall x :: x in rows <==> x == rows[0] || x in rows[1..]
  {
    assert rows == [rows[0]] + rows[1..];
  }

  lemma {:induction false} RecommendedExactly(viewer: Actor, catalog: seq<Skill>, rows: seq<Match>, x: Text)
    ensures x in Recommended(viewer, ById(catalog), rows) <==> exists m :: m in rows && Matches(viewer, catalog, m, x)
  {
    if rows != [] {
      RecommendedExactly(viewer, catalog, rows[1..], x);
      VisibleExactly(viewer, catalog, x);
      FirstOrLater(rows);
      assert x in Recommended(viewer, ById(catalog), rows)
        <==> Matches(viewer, catalog, rows[0], x) || x in Recommended(viewer, ById(catalog), rows[1..]);
    }
  }

  /** Each tier lists what its rule says. */
  lemma TierIsRule(r: Reads, agentId: Text, actor: Option<Actor>, x: Text, t: nat)
    requires r.catalog.Some? && r.agents.Some? && t < 5
    ensures x in Tiers(r, r.catalog.value, r.agents.value, agentId, actor)[t] <==> Rule(r, agentId, actor, x, t)
  {
    var catalog, packageId := r.catalog.value, Canonical(r.agents.value, agentId);
    match t
    case 0 => IdsExactly((s: Skill) => OwnedBy(s, agentId, packageId), catalog, x);
    case 1 => RecommendedExactly(Viewer(actor), catalog, OrEmpty(r.matches(packageId)), x);
    case 2 => IdsExactly((s: Skill) => s.level == Some(System), catalog, x);
    case 3 => SortKeepsIds(Globals(r, actor), x);
    case 4 =>
      if actor.Some? {
        AssignedToOwners(actor.value, OrEmpty(r.custom), x);
      }
  }

  lemma RulesAreTiers(r: Reads, agentId: Text, actor: Option<Actor>)
    requires r.catalog.Some? && r.agents.Some?
    ensures var tiers := Tiers(r, r.catalog.value, r.agents.value, agentId, actor);
            forall x, t: nat :: Rule(r, agentId, actor, x, t) <==> t < |tiers| && x in tiers[t]
  {
    forall x, t: nat | t < 5
      ensures x in Tiers(r, r.catalog.value, r.agents.value, agentId, actor)[t] <==> Rule(r, agentId, actor, x, t)
    {
      TierIsRule(r, agentId, actor, x, t);
    }
  }

  /** Some rule as strong as this gives the id. */
  ghost predicate RuledBy(r: Reads, agentId: Text, actor: Option<Actor>, x: Text, t: nat)
    requires r.catalog.Some? && r.agents.Some?
  {
    exists u: nat :: u <= t && Rule(r, agentId, actor, x, u)
  }

  /** An id is resolved if and only if some rule gives it, and once only. */
  lemma ResolvedExactly(r: Reads, agentId: Text, actor: Option<Actor>, x: Text)
    requires r.catalog.Some? && r.agents.Some?
    ensures NoRepeats(Resolution(r, agentId, actor))
    ensures x in Resolution(r, agentId, actor) <==> exists t: nat :: Rule(r, agentId, actor, x, t)
  {
    ResolutionIsTieredUnion(r, agentId, actor);
    RulesAreTiers(r, agentId, actor);
  }

  /** The rules give the order: what a rule gives stands behind nothing that only a
      weaker rule gives. */
  lemma ResolvedInOrder(r: Reads, agentId: Text, actor: Option<Actor>, i: nat, j: nat, t: nat)
    requires r.catalog.Some? && r.agents.Some?
    requires i < j < |Resolution(r, agentId, actor)| && Rule(r, agentId, actor, Resolution(r, agentId, actor)[j], t)
    ensures RuledBy(r, agentId, actor, Resolution(r, agentId, actor)[i], t)
  {
    var result := Resolution(r, agentId, actor);
    var tiers := Tiers(r, r.catalog.value, r.agents.value, agentId, actor);
    ResolutionIsTieredUnion(r, agentId, actor);
    RulesAreTiers(r, agentId, actor);
    TierOfIsFirst(tiers, result[j], t);
    assert result[i] in result;
    var u :| 0 <= u < |tiers| && result[i] in tiers[u];
    TierOfIsFirst(tiers, result[i], u);
    assert Rule(r, agentId, actor, result[i], TierOf(tiers, result[i]));
  }

  lemma {:induction false} TierOfIsFirst(tiers: seq<seq<Text>>, x: Text, t: nat)
    requires t < |tiers| && x in tiers[t]
    ensures TierOf(tiers, x) <= t && x in tiers[TierOf(tiers, x)]
  {
    if x !in tiers[0] {
      assert tiers[1..][t - 1] == tiers[t];
      TierOfIsFirst(tiers[1..], x, t - 1);
    }
  }

  // ------------------------------------------------------ order within one rule

  lemma {:induction false} EarlierInTier(tiers: seq<seq<Text>>, x: Text, y: Text)
    requires x in Flatten(tiers) && y in Flatten(tiers) && First(Flatten(tiers), x) < First(Flatten(tiers), y)
    requires TierOf(tiers, x) == TierOf(tiers, y) < |tiers|
    requires x in tiers[TierOf(tiers, x)] && y in tiers[TierOf(tiers, y)]
    ensures First(tiers[TierOf(tiers, x)], x) < First(tiers[TierOf(tiers, y)], y)
  {
    var all, n := Flatten(tiers), |tiers[0]|;
    assert all[..n] == tiers[0] && all[n..] == Flatten(tiers[1..]);
    if x in tiers[0] {
      FirstOfPrefix(all, n, x);
      FirstOfPrefix(all, n, y);
    } else {
      FirstAfterPrefix(all, n, x);
      FirstAfterPrefix(all, n, y);
      EarlierInTier(tiers[1..], x, y);
    }
  }

  /** This rule gives the id, and no stronger one does. */
  ghost predicate FirstRule(r: Reads, agentId: Text, actor: Option<Actor>, x: Text, t: nat)
    requires r.catalog.Some? && r.agents.Some?
  {
    Rule(r, agentId, actor, x, t) && forall u: nat :: u < t ==> !Rule(r, agentId, actor, x, u)
  }

  lemma FirstRuleIsTier(r: Reads, agentId: Text, actor: Option<Actor>, x: Text, t: nat)
    requires r.catalog.Some? && r.agents.Some? && FirstRule(r, agentId, actor, x, t)
    ensures var tiers := Tiers(r, r.catalog.value, r.agents.value, agentId, actor);
            t < |tiers| && TierOf(tiers, x) == t && x in tiers[t]
  {
    var tiers := Tiers(r, r.catalog.value, r.agents.value, agentId, actor);
    RulesAreTiers(r, agentId, actor);
    TierOfIsFirst(tiers, x, t);
  }

  lemma UnionOrder(all: seq<Text>, i: nat, j: nat)
    requires i < j < |Deduped(all)|
    ensures Deduped(all)[i] in all && Deduped(all)[j] in all
    ensures First(all, Deduped(all)[i]) < First(all, Deduped(all)[j])
  {
    DedupedIsUnion(all);
    assert Deduped(all)[i] in Deduped(all) && Deduped(all)[j] in Deduped(all);
  }

  /** Two ids of one first rule stand in the order of its tier. */
  lemma InTierOrder(r: Reads, agentId: Text, actor: Option<Actor>, i: nat, j: nat, t: nat)
    requires r.catalog.Some? && r.agents.Some? && i < j < |Resolution(r, agentId, actor)|
    requires FirstRule(r, agentId, actor, Resolution(r, agentId, actor)[i], t)
    requires FirstRule(r, agentId, actor, Resolution(r, agentId, actor)[j], t)
    ensures var result := Resolution(r, agentId, actor);
            var tiers := Tiers(r, r.catalog.value, r.agents.value, agentId, actor);
            && t < |tiers| && result[i] in tiers[t] && result[j] in tiers[t]
            && First(tiers[t], result[i]) < First(tiers[t], result[j])
  {
    var result := Resolution(r, agentId, actor);
    var tiers := Tiers(r, r.catalog.value, r.agents.value, agentId, actor);
    UnionOrder(Flatten(tiers), i, j);
    FirstRuleIsTier(r, agentId, actor, result[i], t);
    FirstRuleIsTier(r, agentId, actor, result[j], t);
    EarlierInTier(tiers, result[i], result[j]);
  }

  lemma {:induction false} OrderedFirst(texts: seq<Text>, x: Text, y: Text)
    requires Ordered(texts) && x in texts && y in texts && First(texts, x) < First(texts, y)
    ensures Less(x, y)
  {
    FirstOrLater(texts);
    if texts[0] == x {
      LessIsTotal(x, y);
    } else {
      OrderedFirst(texts[1..], x, y);
    }
  }

  /** Bundled, system and system-global ids are in the order of their text. */
  lemma SortedWithinRule(r: Reads, agentId: Text, actor: Option<Actor>, i: nat, j: nat, t: nat)
    requires r.catalog.Some? && r.agents.Some? && i < j < |Resolution(r, agentId, actor)|
    requires t == 0 || t == 2 || t == 3
    requires FirstRule(r, agentId, actor, Resolution(r, agentId, actor)[i], t)
    requires FirstRule(r, agentId, actor, Resolution(r, agentId, actor)[j], t)
    ensures Less(Resolution(r, agentId, actor)[i], Resolution(r, agentId, actor)[j])
  {
    var catalog, packageId := r.catalog.value, Canonical(r.agents.value, agentId);
    var result, tiers := Resolution(r, agentId, actor), Tiers(r, catalog, r.agents.value, agentId, actor);
    InTierOrder(r, agentId, actor, i, j, t);
    SortIsSorted(Ids((s: Skill) => OwnedBy(s, agentId, packageId), catalog));
    SortIsSorted(Ids((s: Skill) => s.level == Some(System), catalog));
    SortIsSorted(Globals(r, actor));
    assert Ordered(tiers[t]);
    OrderedFirst(tiers[t], result[i], result[j]);
  }

  lemma FirstBehind(z: Text, rest: seq<Text>, x: Text)
    requires x in [z] + rest
    ensures z != x ==> x in rest
    ensures First([z] + rest, x) == if z == x then 0 else 1 + First(rest, x)
  {
    assert ([z] + rest)[1..] == rest;
  }

  lemma {:induction false} EarlierMatch(viewer: Actor, catalog: seq<Skill>, rows: seq<Match>, x: Text, y: Text, b: nat)
    requires var ids := Recommended(viewer, ById(catalog), rows); x in ids && y in ids && First(ids, x) < First(ids, y)
    requires b < |rows| && Matches(viewer, catalog, rows[b], y)
    ensures exists a :: 0 <= a < b && Matches(viewer, catalog, rows[a], x)
  {
    var id, rest := rows[0].skillId, Recommended(viewer, ById(catalog), rows[1..]);
    VisibleExactly(viewer, catalog, id);
    if Matches(viewer, catalog, rows[0], id) {
      assert Recommended(viewer, ById(catalog), rows) == [id] + rest;
      FirstBehind(id, rest, x);
      FirstBehind(id, rest, y);
    } else {
      assert Recommended(viewer, ById(catalog), rows) == rest;
    }
    if !Matches(viewer, catalog, rows[0], x) {
      EarlierMatch(viewer, catalog, rows[1..], x, y, b - 1);
      var a :| 0 <= a < b - 1 && Matches(viewer, catalog, rows[1..][a], x);
      assert rows[a + 1] == rows[1..][a];
    }
  }

  /** Recommended ids are in the order in which the match table lists them. */
  lemma MatchedInOrder(r: Reads, agentId: Text, actor: Option<Actor>, i: nat, j: nat, b: nat)
    requires r.catalog.Some? && r.agents.Some? && i < j < |Resolution(r, agentId, actor)|
    requires FirstRule(r, agentId, actor, Resolution(r, agentId, actor)[i], 1)
    requires FirstRule(r, agentId, actor, Resolution(r, agentId, actor)[j], 1)
    requires var rows := OrEmpty(r.matches(Canonical(r.agents.value, agentId)));
             b < |rows| && Matches(Viewer(actor), r.catalog.value, rows[b], Resolution(r, agentId, actor)[j])
    ensures var rows := OrEmpty(r.matches(Canonical(r.agents.value, agentId)));
            exists a :: 0 <= a < b && Matches(Viewer(actor), r.catalog.value, rows[a], Resolution(r, agentId, actor)[i])
  {
    InTierOrder(r, agentId, actor, i, j, 1);
    var result := Resolution(r, agentId, actor);
    EarlierMatch(Viewer(actor), r.catalog.value, OrEmpty(r.matches(Canonical(r.agents.value, agentId))),
                 result[i], result[j], b);
  }

  lemma {:induction false} EarlierAssignment(actor: Actor, rows: seq<Assignment>, x: Text, y: Text, b: nat)
    requires var ids := Assigned(actor, rows); x in ids && y in ids && First(ids, x) < First(ids, y)
    requires b < |rows| && AssignsTo(actor, rows[b], y)
    ensures exists a :: 0 <= a < b && AssignsTo(actor, rows[a], x)
  {
    var id, rest := rows[0].skillId, Assigned(actor, rows[1..]);
    if AssignsTo(actor, rows[0], id) {
      assert Assigned(actor, rows) == [id] + rest;
      FirstBehind(id, rest, x);
      FirstBehind(id, rest, y);
    } else {
      assert Assigned(actor, rows) == rest;
    }
    if !AssignsTo(actor, rows[0], x) {
      EarlierAssignment(actor, rows[1..], x, y, b - 1);
      var a :| 0 <= a < b - 1 && AssignsTo(actor, rows[1..][a], x);
      assert rows[a + 1] == rows[1..][a];
    }
  }

  /** Assigned ids are in the order in which the assignments are read. */
  lemma AssignedInOrder(r: Reads, agentId: Text, actor: Actor, i: nat, j: nat, b: nat)
    requires r.catalog.Some? && r.agents.Some? && i < j < |Resolution(r, agentId, Some(actor))|
    requires FirstRule(r, agentId, Some(actor), Resolution(r, agentId, Some(actor))[i], 4)
    requires FirstRule(r, agentId, Some(actor), Resolution(r, agentId, Some(actor))[j], 4)
    requires var rows := OrEmpty(r.custom);
             b < |rows| && AssignsTo(actor, rows[b], Resolution(r, agentId, Some(actor))[j])
    ensures var rows := OrEmpty(r.custom);
            exists a :: 0 <= a < b && AssignsTo(actor, rows[a], Resolution(r, agentId, Some(actor))[i])
  {
    InTierOrder(r, agentId, Some(actor), i, j, 4);
    var result := Resolution(r, agentId, Some(actor));
    EarlierAssignment(actor, OrEmpty(r.custom), result[i], result[j], b);
  }

  // ---------------------------------------------------------------- the fallback

  /** When the catalog or the agents cannot be read, only the system-global and the
      assigned ids are resolved, those first. */
  lemma FallbackExactly(r: Reads, agentId: Text, actor: Option<Actor>)
    requires r.catalog.None? || r.agents.None?
    ensures var result := Resolution(r, agentId, actor);
            && NoRepeats(result)
            && (actor.None? ==> result == [])
            && (actor.Some? ==>
                  forall x :: x in result <==>
                    x in OrEmpty(r.globals) || exists a :: a in OrEmpty(r.custom) && AssignsTo(actor.value, a, x))
            && (actor.Some? ==>
                  forall i, j :: 0 <= i < j < |result| && result[j] in OrEmpty(r.globals) ==>
                    result[i] in OrEmpty(r.globals))
  {
    var globals, customs := Globals(r, actor), Customs(r, actor);
    var result := Resolution(r, agentId, actor);
    DedupedIsUnion(globals + customs);
    if actor.Some? {
      forall x
        ensures x in customs <==> exists a :: a in OrEmpty(r.custom) && AssignsTo(actor.value, a, x)
      {
        AssignedToOwners(actor.value, OrEmpty(r.custom), x);
      }
      forall i, j | 0 <= i < j < |result| && result[j] in globals
        ensures result[i] in globals
      {
        var all := globals + customs;
        assert all[..|globals|] == globals;
        assert result[i] in all && result[j] in all;
        FirstOfPrefix(all, |globals|, result[j]);
        assert all[First(all, result[i])] == result[i];
        assert all[First(all, result[i])] == globals[First(all, result[i])];
      }
    }
  }
}
