/**
 When the order in which the database was read shows in the skills of an agent:
 exactly when, on both paths of `getAssignedSkillIdsForAgent` of
 `src/lib/agents-store.ts`.
 */
module ReadOrder {
  import opened Wrappers
  import opened JsonString
  import opened TextOrder
  import opened SkillResolution

  // ------------------------------------------------------------- who sees what

  /** Who may see a catalog entry. */
  datatype Sight = Everyone | NoOne | Members | Holders(level: Level, scope: Text)

  function SightOf(m: Meta): Sight {
    if !IsScoped(m.level) then Everyone
    else if m.level.Workspace? then Members
    else if m.scope == [] then NoOne
    else Holders(m.level, m.scope)
  }

  /** Some actor sees the first and not the second. */
  predicate Exceeds(y: Sight, t: Sight) {
    t != Everyone && y != NoOne && y != t
  }

  /** An actor who does, and is no platform admin. */
  function Witness(y: Sight, t: Sight): Actor {
    match y
    case Everyone => NOBODY
    case NoOne => NOBODY
    case Members =>
      var other := if t.Holders? then t.scope + [0x61] else [0x61];
      Actor(other, [], [], other, false)
    case Holders(level, scope) =>
      match level
      case Personal => Actor(scope, [], [], [], false)
      case Team => Actor([], [scope], [], [], false)
      case Organization => Actor([], [], [], scope, false)
      case _ => Actor([], [], [scope], [], false)
  }

  lemma WitnessSees(m: Meta, n: Meta)
    requires Exceeds(SightOf(m), SightOf(n))
    ensures var a := Witness(SightOf(m), SightOf(n)); !a.admin && MaySee(a, m) && !MaySee(a, n)
  {
  }

  lemma SeenMeansExceeds(a: Actor, m: Meta, n: Meta)
    requires MaySee(a, m) && !MaySee(a, n)
    ensures Exceeds(SightOf(m), SightOf(n))
  {
  }

  // --------------------------------------------------- catalogs whose order shows

  predicate IsSystem(catalog: seq<Skill>, id: Text) {
    exists p :: p in catalog && p.id == id && p.level == Some(System)
  }

  /** Two entries of one id that not the same actors may see; and if the id is
      always listed as a system skill, another id that may be listed before it to an
      actor who does not see one of its entries. */
  predicate OrderMatters(catalog: seq<Skill>) {
    exists s, t :: s in catalog && t in catalog && Conflict(catalog, s, t)
  }

  predicate Conflict(catalog: seq<Skill>, s: Skill, t: Skill) {
    && s.id == t.id && Exceeds(SightOf(MetaOf(s)), SightOf(MetaOf(t)))
    && (IsSystem(catalog, s.id) ==> exists y :: y in catalog && Overtakes(y, t))
  }

  predicate Overtakes(y: Skill, t: Skill) {
    y.id != t.id && Exceeds(SightOf(MetaOf(y)), SightOf(MetaOf(t)))
  }

  /** Reads of one database: only the order of the catalog and of the system-global
      list may differ. */
  ghost predicate Rearranged(r: Reads, q: Reads) {
    && q.custom == r.custom && q.agents == r.agents && q.matches == r.matches
    && multiset(OrEmpty(r.globals)) == multiset(OrEmpty(q.globals))
    && r.catalog.Some? && q.catalog.Some? && r.agents.Some?
    && multiset(r.catalog.value) == multiset(q.catalog.value)
  }

  // -------------------------------------------------- otherwise it does not show

  lemma {:induction false} SameMatches(viewer: Actor, k1: map<Text, Meta>, k2: map<Text, Meta>, rows: seq<Match>)
    requires forall m :: m in rows ==> Visible(viewer, k1, m.skillId) == Visible(viewer, k2, m.skillId)
    ensures Recommended(viewer, k1, rows) == Recommended(viewer, k2, rows)
  {
    if rows != [] {
      SameMatches(viewer, k1, k2, rows[1..]);
      assert rows[0] in rows;
    }
  }

  lemma {:induction false} KnownIsAnEntry(catalog: seq<Skill>, id: Text)
    ensures id in ById(catalog) <==> exists s :: s in catalog && s.id == id
    ensures id in ById(catalog) ==> exists s :: s in catalog && s.id == id && ById(catalog)[id] == MetaOf(s)
  {
    if catalog != [] {
      var n := |catalog| - 1;
      KnownIsAnEntry(catalog[..n], id);
      assert catalog == catalog[..n] + [catalog[n]];
    }
  }

  /** Whatever is in the first three tiers, somebody who sees nothing but `x` there
      gets only `x` from them. */
  lemma OnlyOneId(r: Reads, catalog: seq<Skill>, agentId: Text, actor: Option<Actor>, x: Text, t: nat)
    requires r.agents.Some? && t < 3
    requires var viewer := if actor.Some? then actor.value else NOBODY;
             !viewer.admin && forall y :: y in catalog && y.id != x ==> !MaySee(viewer, MetaOf(y))
    ensures forall z :: z in Tiers(r, catalog, r.agents.value, agentId, actor)[t] ==> z == x
  {
    var viewer := if actor.Some? then actor.value else NOBODY;
    var packageId := Canonical(r.agents.value, agentId);
    forall z | z in Tiers(r, catalog, r.agents.value, agentId, actor)[t]
      ensures z == x
    {
      if t == 1 {
        RecommendedAreVisible(viewer, ById(catalog), OrEmpty(r.matches(packageId)), z);
        KnownIsAnEntry(catalog, z);
      } else {
        var keep := if t == 0 then (s: Skill) => OwnedBy(s, agentId, packageId)
            else (s: Skill) => s.level == Some(System);
        SortKeepsIds(Ids(keep, catalog), z);
        IdsAreKept(keep, catalog, z);
      }
    }
  }

  lemma {:induction false} AllOneId(a: seq<Text>, x: Text, rest: seq<Text>)
    requires a != [] && forall z :: z in a ==> z == x
    ensures Deduped(a + rest) == Deduped([x] + rest)
    decreases |rest|, |a|
  {
    if rest == [] {
      assert a + rest == a && [x] + rest == [x];
      OneIdOnce(a, x);
      OneIdOnce([x], x);
    } else {
      var n := |rest| - 1;
      AllOneId(a, x, rest[..n]);
      assert (a + rest)[..|a + rest| - 1] == a + rest[..n];
      assert ([x] + rest)[..|[x] + rest| - 1] == [x] + rest[..n];
      assert x in a by { assert a[0] in a; }
      assert rest[n] in a + rest[..n] <==> rest[n] in [x] + rest[..n];
    }
  }

  lemma {:induction false} OneIdOnce(a: seq<Text>, x: Text)
    requires a != [] && forall z :: z in a ==> z == x
    ensures Deduped(a) == [x]
  {
    var n := |a| - 1;
    assert a[n] in a;
    if n > 0 {
      forall z | z in a[..n]
        ensures z == x
      {
        assert z in a;
      }
      OneIdOnce(a[..n], x);
      assert a[..n][0] in a[..n];
    } else {
      assert Deduped(a[..0]) == [];
    }
  }

  lemma SystemIsListed(r: Reads, catalog: seq<Skill>, agentId: Text, actor: Option<Actor>, x: Text)
    requires r.agents.Some? && IsSystem(catalog, x)
    ensures x in Tiers(r, catalog, r.agents.value, agentId, actor)[2]
  {
    var keep := (s: Skill) => s.level == Some(System);
    var p :| p in catalog && p.id == x && p.level == Some(System);
    KeptAreListed(keep, catalog, p);
    SortKeepsIds(Ids(keep, catalog), x);
  }

  lemma {:induction false} KeptAreListed(keep: Skill -> bool, catalog: seq<Skill>, p: Skill)
    requires p in catalog && keep(p)
    ensures p.id in Ids(keep, catalog)
  {
    if catalog[0] != p {
      KeptAreListed(keep, catalog[1..], p);
    }
  }

  /** The tiers as the first three and the last two. */
  lemma FlattenFive(tiers: seq<seq<Text>>)
    requires |tiers| == 5
    ensures Flatten(tiers) == (tiers[0] + tiers[1] + tiers[2]) + (tiers[3] + tiers[4])
  {
    assert tiers[1..][1..] == tiers[2..] && tiers[2..][1..] == tiers[3..] && tiers[3..][1..] == tiers[4..]
        && tiers[4..][1..] == [];
    assert Flatten(tiers[4..]) == tiers[4];
    assert Flatten(tiers[3..]) == tiers[3] + tiers[4];
    assert Flatten(tiers[2..]) == tiers[2] + (tiers[3] + tiers[4]);
    assert Flatten(tiers[1..]) == tiers[1] + (tiers[2] + (tiers[3] + tiers[4]));
  }

  lemma OneIdResolves(r: Reads, catalog: seq<Skill>, agentId: Text, actor: Option<Actor>, x: Text)
    requires r.catalog == Some(catalog) && r.agents.Some? && IsSystem(catalog, x)
    requires var viewer := if actor.Some? then actor.value else NOBODY;
             !viewer.admin && forall y :: y in catalog && y.id != x ==> !MaySee(viewer, MetaOf(y))
    ensures Resolution(r, agentId, actor) == Deduped([x] + (SortTexts(Globals(r, actor)) + Customs(r, actor)))
  {
    var tiers := Tiers(r, catalog, r.agents.value, agentId, actor);
    OnlyOneId(r, catalog, agentId, actor, x, 0);
    OnlyOneId(r, catalog, agentId, actor, x, 1);
    OnlyOneId(r, catalog, agentId, actor, x, 2);
    SystemIsListed(r, catalog, agentId, actor, x);
    FlattenFive(tiers);
    AllOneId(tiers[0] + tiers[1] + tiers[2], x, tiers[3] + tiers[4]);
  }

  lemma IdsOfRearranged(a: seq<Skill>, b: seq<Skill>, x: Text)
    requires multiset(a) == multiset(b)
    ensures forall s :: s in a <==> s in b
    ensures IsSystem(a, x) <==> IsSystem(b, x)
  {
    SameEntries(a, b);
  }

  /** One order hides an id that the other shows: only a system skill may do so. */
  lemma HiddenOnce(r: Reads, q: Reads, agentId: Text, actor: Option<Actor>, x: Text)
    requires Rearranged(r, q) && !OrderMatters(r.catalog.value)
    requires var viewer := if actor.Some? then actor.value else NOBODY;
             !viewer.admin && Visible(viewer, ById(r.catalog.value), x) && !Visible(viewer, ById(q.catalog.value), x)
    ensures Resolution(r, agentId, actor) == Resolution(q, agentId, actor)
  {
    var a, b := r.catalog.value, q.catalog.value;
    var viewer := if actor.Some? then actor.value else NOBODY;
    IdsOfRearranged(a, b, x);
    KnownIsAnEntry(a, x);
    KnownIsAnEntry(b, x);
    var s :| s in a && s.id == x && ById(a)[x] == MetaOf(s);
    var t :| t in b && t.id == x && ById(b)[x] == MetaOf(t);
    SeenMeansExceeds(viewer, MetaOf(s), MetaOf(t));
    assert !Conflict(a, s, t);
    forall y | y in a && y.id != x
      ensures !MaySee(viewer, MetaOf(y))
    {
      if MaySee(viewer, MetaOf(y)) {
        SeenMeansExceeds(viewer, MetaOf(y), MetaOf(t));
        assert Overtakes(y, t);
      }
    }
    OneIdResolves(r, a, agentId, actor, x);
    OneIdResolves(q, b, agentId, actor, x);
    SameTail(r, q, actor);
  }

  lemma SameTail(r: Reads, q: Reads, actor: Option<Actor>)
    requires Rearranged(r, q)
    ensures SortTexts(Globals(r, actor)) == SortTexts(Globals(q, actor)) && Customs(r, actor) == Customs(q, actor)
  {
    SortForgetsOrder(Globals(r, actor), Globals(q, actor));
  }

  lemma SameSightSameResolution(r: Reads, q: Reads, agentId: Text, actor: Option<Actor>)
    requires Rearranged(r, q)
    requires var viewer := if actor.Some? then actor.value else NOBODY;
             forall x :: Visible(viewer, ById(r.catalog.value), x) == Visible(viewer, ById(q.catalog.value), x)
    ensures Resolution(r, agentId, actor) == Resolution(q, agentId, actor)
  {
    var a, b := r.catalog.value, q.catalog.value;
    var packageId := Canonical(r.agents.value, agentId);
    var viewer := if actor.Some? then actor.value else NOBODY;
    TierForgetsOrder((s: Skill) => OwnedBy(s, agentId, packageId), a, b);
    SameMatches(viewer, ById(a), ById(b), OrEmpty(r.matches(packageId)));
    TierForgetsOrder((s: Skill) => s.level == Some(System), a, b);
    SameTail(r, q, actor);
    assert Tiers(r, a, r.agents.value, agentId, actor) == Tiers(q, b, q.agents.value, agentId, actor);
  }

  /** Unless the catalog conflicts, no actor, agent, match table, system-global list
      or assignment makes the order of the reads show. */
  lemma OrderDoesNotShow(r: Reads, q: Reads, agentId: Text, actor: Option<Actor>)
    requires Rearranged(r, q) && !OrderMatters(r.catalog.value)
    ensures Resolution(r, agentId, actor) == Resolution(q, agentId, actor)
  {
    var a, b := r.catalog.value, q.catalog.value;
    var viewer := if actor.Some? then actor.value else NOBODY;
    if x :| Visible(viewer, ById(a), x) && !Visible(viewer, ById(b), x) {
      HiddenOnce(r, q, agentId, actor, x);
    } else if x :| !Visible(viewer, ById(a), x) && Visible(viewer, ById(b), x) {
      if OrderMatters(b) {
        ConflictForgetsOrder(a, b);
      }
      HiddenOnce(q, r, agentId, actor, x);
    } else {
      SameSightSameResolution(r, q, agentId, actor);
    }
  }

  lemma ConflictForgetsOrder(a: seq<Skill>, b: seq<Skill>)
    requires multiset(a) == multiset(b) && OrderMatters(b)
    ensures OrderMatters(a)
  {
    SameEntries(a, b);
    var s, t :| s in b && t in b && Conflict(b, s, t);
    IdsOfRearranged(a, b, s.id);
    assert Conflict(a, s, t);
  }

  // ------------------------------------------------------- and here it does show

  /** A catalog of the same entries with this one last. */
  function Last(catalog: seq<Skill>, p: Skill): (d: seq<Skill>)
    requires p in catalog
    ensures multiset(d) == multiset(catalog) && d != [] && d[|d| - 1] == p
  {
    var n := |catalog| - 1;
    assert catalog == catalog[..n] + [catalog[n]];
    if catalog[n] == p then catalog
    else
      var d := Last(catalog[..n], p);
      assert d == d[..|d| - 1] + [p];
      d[..|d| - 1] + [catalog[n], p]
  }

  lemma LastIsIn(catalog: seq<Skill>, y: Skill, p: Skill)
    requires y in catalog && p in catalog
    ensures y in Last(catalog, p)
  {
    SameEntries(catalog, Last(catalog, p));
  }

  lemma LastIsKnown(catalog: seq<Skill>, p: Skill)
    requires p in catalog
    ensures p.id in ById(Last(catalog, p)) && ById(Last(catalog, p))[p.id] == MetaOf(p)
  {
  }

  /** The same entries with `y` last of its id and `p` last of all. */
  function LastTwo(catalog: seq<Skill>, y: Skill, p: Skill): (d: seq<Skill>)
    requires y in catalog && p in catalog
    ensures multiset(d) == multiset(catalog)
  {
    LastIsIn(catalog, p, y);
    Last(Last(catalog, y), p)
  }

  lemma LastKeepsNeighbour(e: seq<Skill>, y: Skill, p: Skill)
    requires e != [] && e[|e| - 1] == y && y != p && p in e
    ensures var d := Last(e, p); |d| >= 2 && d[|d| - 2] == y && d[|d| - 1] == p
  {
  }

  lemma KnownFromEnd(d: seq<Skill>, y: Skill, p: Skill)
    requires |d| >= 2 && d[|d| - 2] == y && d[|d| - 1] == p && y.id != p.id
    ensures p.id in ById(d) && ById(d)[p.id] == MetaOf(p) && y.id in ById(d) && ById(d)[y.id] == MetaOf(y)
  {
    var init := d[..|d| - 1];
    assert init[|init| - 1] == y;
    assert ById(init) == ById(init[..|init| - 1])[y.id := MetaOf(y)];
    assert ById(d) == ById(init)[p.id := MetaOf(p)];
  }

  lemma LastTwoAreKnown(catalog: seq<Skill>, y: Skill, p: Skill)
    requires y in catalog && p in catalog && y.id != p.id
    ensures var known := ById(LastTwo(catalog, y, p));
            p.id in known && known[p.id] == MetaOf(p) && y.id in known && known[y.id] == MetaOf(y)
  {
    LastIsIn(catalog, p, y);
    LastKeepsNeighbour(Last(catalog, y), y, p);
    KnownFromEnd(LastTwo(catalog, y, p), y, p);
  }

  function Longest(catalog: seq<Skill>): nat {
    if catalog == [] then 0
    else
      var rest := Longest(catalog[1..]);
      if |catalog[0].agentId| > rest then |catalog[0].agentId| else rest
  }

  /** An agent nobody in the catalog belongs to. */
  function FreshAgent(catalog: seq<Skill>): Text {
    seq<Unit>(Longest(catalog) + 1, i => 0x61)
  }

  lemma {:induction false} LongestIsLongest(catalog: seq<Skill>, s: Skill)
    requires s in catalog
    ensures |s.agentId| <= Longest(catalog)
  {
    if catalog[0] != s {
      LongestIsLongest(catalog[1..], s);
    }
  }

  lemma {:induction false} SuffixIsShorter(t: Text)
    ensures |AfterSlash(t)| <= |t|
  {
    if exists i :: 0 <= i < |t| && t[i] == 0x2F {
      SuffixIsShorter(t[1..]);
    }
  }

  lemma FreshOwnsNothing(catalog: seq<Skill>, s: Skill)
    requires s in catalog
    ensures !OwnedBy(s, FreshAgent(catalog), FreshAgent(catalog))
  {
    LongestIsLongest(catalog, s);
    SuffixIsShorter(s.agentId);
  }

  lemma {:induction false} NoneKept(keep: Skill -> bool, catalog: seq<Skill>)
    requires forall s :: s in catalog ==> !keep(s)
    ensures Ids(keep, catalog) == []
  {
    if catalog != [] {
      assert catalog[0] in catalog;
      NoneKept(keep, catalog[1..]);
    }
  }

  /** A read of nothing but this catalog and these matches. */
  function OnlyMatches(catalog: seq<Skill>, rows: seq<Match>): Reads {
    Reads(None, None, Some(catalog), Some([]), (k: Text) => Some(rows))
  }

  lemma NothingOwned(catalog: seq<Skill>, d: seq<Skill>)
    requires multiset(d) == multiset(catalog)
    ensures Ids((s: Skill) => OwnedBy(s, FreshAgent(catalog), FreshAgent(catalog)), d) == []
  {
    var agentId := FreshAgent(catalog);
    SameEntries(d, catalog);
    forall s | s in d
      ensures !OwnedBy(s, agentId, agentId)
    {
      FreshOwnsNothing(catalog, s);
    }
    NoneKept((s: Skill) => OwnedBy(s, agentId, agentId), d);
  }

  lemma TwoTiers(matched: seq<Text>, system: seq<Text>)
    ensures Flatten([[], matched, system, [], []]) == matched + system
  {
    FlattenFive([[], matched, system, [], []]);
  }

  /** What a fresh agent is given: the matches an actor sees, then the system skills. */
  lemma FreshTiers(catalog: seq<Skill>, d: seq<Skill>, rows: seq<Match>, actor: Actor)
    requires multiset(d) == multiset(catalog)
    ensures Resolution(OnlyMatches(d, rows), FreshAgent(catalog), Some(actor))
         == Deduped(Recommended(actor, ById(d), rows) + SortTexts(Ids((s: Skill) => s.level == Some(System), d)))
  {
    NothingOwned(catalog, d);
    var tiers := Tiers(OnlyMatches(d, rows), d, [], FreshAgent(catalog), Some(actor));
    TwoTiers(tiers[1], tiers[2]);
    assert tiers == [[], tiers[1], tiers[2], [], []];
  }

  /** An id that is no system skill is given or not, by the order. */
  lemma ShowsMissing(catalog: seq<Skill>, s: Skill, t: Skill)
    requires s in catalog && t in catalog && s.id == t.id && Exceeds(SightOf(MetaOf(s)), SightOf(MetaOf(t)))
    requires !IsSystem(catalog, s.id)
    ensures var rows, f := [Match(s.id, true, true)], FreshAgent(catalog);
            var a := Witness(SightOf(MetaOf(s)), SightOf(MetaOf(t)));
            Resolution(OnlyMatches(Last(catalog, s), rows), f, Some(a))
              != Resolution(OnlyMatches(Last(catalog, t), rows), f, Some(a))
  {
    var rows, a, x := [Match(s.id, true, true)], Witness(SightOf(MetaOf(s)), SightOf(MetaOf(t))), s.id;
    WitnessSees(MetaOf(s), MetaOf(t));
    OneRow(a, Last(catalog, s), x);
    OneRow(a, Last(catalog, t), x);
    LastIsKnown(catalog, s);
    LastIsKnown(catalog, t);
    FreshTiers(catalog, Last(catalog, s), rows, a);
    FreshTiers(catalog, Last(catalog, t), rows, a);
    var sys := (q: Skill) => q.level == Some(System);
    var listed, hidden := SortTexts(Ids(sys, Last(catalog, s))), SortTexts(Ids(sys, Last(catalog, t)));
    IdsOfRearranged(catalog, Last(catalog, t), x);
    SystemOnly(Last(catalog, t), x);
    DedupedIsUnion([x] + listed);
    DedupedIsUnion([] + hidden);
    assert x in [x] + listed && x !in [] + hidden;
  }

  lemma SystemOnly(catalog: seq<Skill>, x: Text)
    requires !IsSystem(catalog, x)
    ensures x !in SortTexts(Ids((q: Skill) => q.level == Some(System), catalog))
  {
    var sys := (q: Skill) => q.level == Some(System);
    SortKeepsIds(Ids(sys, catalog), x);
    if x in Ids(sys, catalog) {
      IdsAreKept(sys, catalog, x);
    }
  }

  lemma OneRow(a: Actor, d: seq<Skill>, x: Text)
    ensures Recommended(a, ById(d), [Match(x, true, true)]) == if Visible(a, ById(d), x) then [x] else []
  {
    assert [Match(x, true, true)][1..] == [];
    assert Recommended(a, ById(d), []) == [];
    assert [x] + [] == [x];
  }

  lemma TwoRows(a: Actor, d: seq<Skill>, x: Text, y: Text)
    requires Visible(a, ById(d), y)
    ensures Recommended(a, ById(d), [Match(x, true, true), Match(y, true, true)])
         == (if Visible(a, ById(d), x) then [x] else []) + [y]
  {
    assert [Match(x, true, true), Match(y, true, true)][1..] == [Match(y, true, true)];
    OneRow(a, d, y);
  }

  lemma {:induction false} FirstStays(all: seq<Text>)
    requires all != []
    ensures Deduped(all) != [] && Deduped(all)[0] == all[0]
  {
    var n := |all| - 1;
    if n > 0 {
      FirstStays(all[..n]);
    } else {
      assert Deduped(all[..0]) == [];
    }
  }

  /** A system skill is given before or after another one, by the order. */
  lemma ShowsSwapped(catalog: seq<Skill>, p: Skill, t: Skill, y: Skill)
    requires p in catalog && t in catalog && y in catalog && p.id == t.id && p.level == Some(System) && Overtakes(y, t)
    ensures var rows, f := [Match(t.id, true, true), Match(y.id, true, true)], FreshAgent(catalog);
            var a := Witness(SightOf(MetaOf(y)), SightOf(MetaOf(t)));
            Resolution(OnlyMatches(LastTwo(catalog, y, p), rows), f, Some(a))
              != Resolution(OnlyMatches(LastTwo(catalog, y, t), rows), f, Some(a))
  {
    var a := Witness(SightOf(MetaOf(y)), SightOf(MetaOf(t)));
    var rows := [Match(t.id, true, true), Match(y.id, true, true)];
    var shown, hidden := LastTwo(catalog, y, p), LastTwo(catalog, y, t);
    WitnessSees(MetaOf(y), MetaOf(t));
    LastTwoAreKnown(catalog, y, p);
    LastTwoAreKnown(catalog, y, t);
    TwoRows(a, shown, t.id, y.id);
    TwoRows(a, hidden, t.id, y.id);
    FreshTiers(catalog, shown, rows, a);
    FreshTiers(catalog, hidden, rows, a);
    var sys := (q: Skill) => q.level == Some(System);
    FirstStays([t.id] + [y.id] + SortTexts(Ids(sys, shown)));
    FirstStays([] + [y.id] + SortTexts(Ids(sys, hidden)));
  }

  lemma FromOther(catalog: seq<Skill>, d: seq<Skill>, e: seq<Skill>, rows: seq<Match>, agentId: Text,
          actor: Option<Actor>)
    requires multiset(d) == multiset(catalog) && multiset(e) == multiset(catalog)
    requires Resolution(OnlyMatches(d, rows), agentId, actor) != Resolution(OnlyMatches(e, rows), agentId, actor)
    ensures exists r: Reads, q: Reads ::
              Rearranged(r, q) && r.catalog == Some(catalog)
                && Resolution(r, agentId, actor) != Resolution(q, agentId, actor)
  {
    var r := OnlyMatches(catalog, rows);
    var q, o := OnlyMatches(d, rows), OnlyMatches(e, rows);
    assert Rearranged(r, q) && Rearranged(r, o);
  }

  lemma ConflictShows(catalog: seq<Skill>, s: Skill, t: Skill)
    requires s in catalog && t in catalog && Conflict(catalog, s, t)
    ensures exists r: Reads, q: Reads, agentId: Text, actor: Option<Actor> ::
              Rearranged(r, q) && r.catalog == Some(catalog)
                && Resolution(r, agentId, actor) != Resolution(q, agentId, actor)
  {
    var f := FreshAgent(catalog);
    if IsSystem(catalog, s.id) {
      var p :| p in catalog && p.id == s.id && p.level == Some(System);
      var y :| y in catalog && Overtakes(y, t);
      ShowsSwapped(catalog, p, t, y);
      FromOther(catalog, LastTwo(catalog, y, p), LastTwo(catalog, y, t),
        [Match(t.id, true, true), Match(y.id, true, true)],
                f, Some(Witness(SightOf(MetaOf(y)), SightOf(MetaOf(t)))));
    } else {
      ShowsMissing(catalog, s, t);
      FromOther(catalog, Last(catalog, s), Last(catalog, t), [Match(s.id, true, true)],
                f, Some(Witness(SightOf(MetaOf(s)), SightOf(MetaOf(t)))));
    }
  }

  /** The order in which a catalog is read can show in some call if and only if the
      catalog conflicts. */
  lemma OrderShowsExactly(catalog: seq<Skill>)
    ensures (exists r: Reads, q: Reads, agentId: Text, actor: Option<Actor> ::
               Rearranged(r, q) && r.catalog == Some(catalog)
                 && Resolution(r, agentId, actor) != Resolution(q, agentId, actor))
       <==> OrderMatters(catalog)
  {
    if OrderMatters(catalog) {
      var s, t :| s in catalog && t in catalog && Conflict(catalog, s, t);
      ConflictShows(catalog, s, t);
    } else {
      forall r: Reads, q: Reads, agentId: Text, actor: Option<Actor> | Rearranged(r, q) && r.catalog == Some(catalog)
        ensures Resolution(r, agentId, actor) == Resolution(q, agentId, actor)
      {
        OrderDoesNotShow(r, q, agentId, actor);
      }
    }
  }

  /** Unique ids never conflict, nor do repeated ones whose entries agree. */
  lemma AgreeingEntriesDoNotConflict(catalog: seq<Skill>)
    requires forall s, t :: s in catalog && t in catalog && s.id == t.id ==> SightOf(MetaOf(s)) == SightOf(MetaOf(t))
    ensures !OrderMatters(catalog)
  {
  }

  // ------------------------------------------------------------ the fallback path

  /** Reads of one database on the fallback path: only the order of the
      system-global list may differ. */
  ghost predicate FallbackRearranged(r: Reads, q: Reads) {
    && (r.catalog.None? || r.agents.None?)
    && q == r.(globals := q.globals) && r.globals.Some? && q.globals.Some?
    && multiset(r.globals.value) == multiset(q.globals.value)
  }

  lemma {:induction false} AllAlike(a: seq<Text>, b: seq<Text>)
    requires multiset(a) == multiset(b) && forall x, y :: x in a && y in a ==> x == y
    ensures a == b
  {
    SameEntries(a, b);
    assert |a| == |multiset(a)| == |b|;
    forall i | 0 <= i < |a|
      ensures a[i] == b[i]
    {
      assert a[i] in a && b[i] in b;
    }
  }

  lemma FirstInList(list: seq<Text>, x: Text) returns (d: seq<Text>)
    requires x in list
    ensures multiset(d) == multiset(list) && d != [] && d[0] == x
  {
    var j :| 0 <= j < |list| && list[j] == x;
    TakenOut(list, j);
    d := [x] + (list[..j] + list[j + 1..]);
  }

  /** When the catalog or the agents cannot be read, the order of the system-global
      list shows if and only if there is an actor and the list has two different ids. */
  lemma FallbackShowsOrder(r: Reads, agentId: Text, actor: Option<Actor>)
    requires r.catalog.None? || r.agents.None?
    requires r.globals.Some?
    ensures (exists q: Reads ::
        FallbackRearranged(r, q) && Resolution(r, agentId, actor) != Resolution(q, agentId, actor))
       <==> actor.Some? && exists x, y :: x in r.globals.value && y in r.globals.value && x != y
  {
    var g := r.globals.value;
    if actor.Some? && exists x, y :: x in g && y in g && x != y {
      var z :| z in g && z != g[0];
      var d := FirstInList(g, z);
      var q := r.(globals := Some(d));
      FirstStays(g + Customs(r, actor));
      FirstStays(d + Customs(q, actor));
      assert FallbackRearranged(r, q);
    } else {
      forall q | FallbackRearranged(r, q)
        ensures Resolution(r, agentId, actor) == Resolution(q, agentId, actor)
      {
        if actor.Some? {
          AllAlike(g, q.globals.value);
        }
      }
    }
  }
}
