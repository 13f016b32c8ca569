/**
 The agents a skill can be matched to and the projection of the match table:
 `readAgentsForSkillMatching` and `matchAgentsToSkills` of
 `src/lib/agents-store.ts`.
 */
module SkillProjection {
  import opened Wrappers
  import opened JsonString

  datatype Agent = Agent(packageId: Text, slug: Text, fromDatabase: bool)

  // ------------------------------------------------ agents, keyed by package id

  /** Where the package stands in an insertion-ordered map, or its length. */
  function IndexOf(agents: seq<Agent>, packageId: Text): (i: nat)
    ensures i <= |agents|
    ensures i < |agents| ==> agents[i].packageId == packageId
    ensures forall j :: 0 <= j < i ==> agents[j].packageId != packageId
  {
    if agents == [] || agents[0].packageId == packageId then 0 else 1 + IndexOf(agents[1..], packageId)
  }

  function Find(agents: seq<Agent>, packageId: Text): Option<Agent> {
    var i := IndexOf(agents, packageId);
    if i < |agents| then Some(agents[i]) else None
  }

  /** `Map.set`: a new value keeps the key's place. */
  function Put(agents: seq<Agent>, a: Agent): seq<Agent> {
    var i := IndexOf(agents, a.packageId);
    if i < |agents| then agents[i := a] else agents + [a]
  }

  function PutAll(agents: seq<Agent>, more: seq<Agent>): seq<Agent>
    decreases more
  {
    if more == [] then agents else PutAll(Put(agents, more[0]), more[1..])
  }

  function AddMissing(agents: seq<Agent>, more: seq<Agent>): seq<Agent>
    decreases more
  {
    if more == [] then agents
    else AddMissing(if Find(agents, more[0].packageId).Some? then agents else agents + [more[0]], more[1..])
  }

  method ReadAgents(fromDatabase: seq<Agent>, fromDisk: seq<Agent>) returns (agents: seq<Agent>)
    ensures agents == AddMissing(PutAll([], fromDatabase), fromDisk)
  {
    agents := [];
    for i := 0 to |fromDatabase|
      invariant PutAll(agents, fromDatabase[i..]) == PutAll([], fromDatabase)
    {
      assert fromDatabase[i..][1..] == fromDatabase[i + 1..];
      agents := Put(agents, fromDatabase[i]);
    }
    for i := 0 to |fromDisk|
      invariant AddMissing(agents, fromDisk[i..]) == AddMissing(PutAll([], fromDatabase), fromDisk)
    {
      assert fromDisk[i..][1..] == fromDisk[i + 1..];
      if Find(agents, fromDisk[i].packageId).None? {
        agents := agents + [fromDisk[i]];
      }
    }
  }

  ghost predicate UniquePackages(agents: seq<Agent>) {
    forall i, j :: 0 <= i < j < |agents| ==> agents[i].packageId != agents[j].packageId
  }

  function LastOf(agents: seq<Agent>, packageId: Text): Option<Agent> {
    if agents == [] then None
    else
      var later := LastOf(agents[1..], packageId);
      if later.Some? then later else if agents[0].packageId == packageId then Some(agents[0]) else None
  }

  lemma FoundAt(agents: seq<Agent>, i: nat)
    requires UniquePackages(agents) && i < |agents|
    ensures Find(agents, agents[i].packageId) == Some(agents[i])
  {
    assert IndexOf(agents, agents[i].packageId) == i;
  }

  lemma PutFinds(agents: seq<Agent>, a: Agent, packageId: Text)
    requires UniquePackages(agents)
    ensures UniquePackages(Put(agents, a))
    ensures Find(Put(agents, a), packageId) == if packageId == a.packageId then Some(a) else Find(agents, packageId)
  {
    var k := IndexOf(agents, a.packageId);
    var after := Put(agents, a);
    assert after[k] == a && forall j :: 0 <= j < |agents| && j != k ==> after[j] == agents[j];
    FoundAt(after, k);
    if packageId != a.packageId {
      StaysFound(agents, after, k, packageId);
    }
  }

  lemma StaysFound(agents: seq<Agent>, after: seq<Agent>, k: nat, packageId: Text)
    requires UniquePackages(agents) && UniquePackages(after) && k < |after| && |agents| <= |after| <= |agents| + 1
    requires after[k].packageId != packageId && (k < |agents| ==> agents[k].packageId == after[k].packageId)
    requires |after| > |agents| ==> k == |agents|
    requires forall j :: 0 <= j < |agents| && j != k ==> after[j] == agents[j]
    ensures Find(after, packageId) == Find(agents, packageId)
  {
    var i := IndexOf(agents, packageId);
    if i < |agents| {
      FoundAt(after, i);
    } else {
      assert forall j :: 0 <= j < |after| ==> after[j].packageId != packageId;
    }
  }

  lemma AppendFinds(agents: seq<Agent>, a: Agent, packageId: Text)
    requires UniquePackages(agents) && Find(agents, a.packageId).None?
    ensures UniquePackages(agents + [a])
    ensures Find(agents + [a], packageId) == if packageId == a.packageId then Some(a) else Find(agents, packageId)
  {
    assert Put(agents, a) == agents + [a];
    PutFinds(agents, a, packageId);
  }

  lemma {:induction false} PutAllFinds(agents: seq<Agent>, more: seq<Agent>, packageId: Text)
    requires UniquePackages(agents)
    ensures UniquePackages(PutAll(agents, more))
    ensures Find(PutAll(agents, more), packageId)
         == if LastOf(more, packageId).Some? then LastOf(more, packageId) else Find(agents, packageId)
    decreases more
  {
    if more != [] {
      PutFinds(agents, more[0], packageId);
      PutAllFinds(Put(agents, more[0]), more[1..], packageId);
    }
  }

  lemma {:induction false} AddMissingFinds(agents: seq<Agent>, more: seq<Agent>, packageId: Text)
    requires UniquePackages(agents)
    ensures UniquePackages(AddMissing(agents, more))
    ensures Find(AddMissing(agents, more), packageId)
         == if Find(agents, packageId).Some? then Find(agents, packageId) else Find(more, packageId)
    decreases more
  {
    if more != [] {
      if Find(agents, more[0].packageId).Some? {
        AddMissingFinds(agents, more[1..], packageId);
      } else {
        AppendFinds(agents, more[0], packageId);
        AddMissingFinds(agents + [more[0]], more[1..], packageId);
      }
    }
  }

  /** Every package of either source is listed once. The database row wins over
      the disk, the last one if there are several; on disk the first one counts. */
  lemma DatabaseWins(fromDatabase: seq<Agent>, fromDisk: seq<Agent>, packageId: Text)
    ensures var agents := AddMissing(PutAll([], fromDatabase), fromDisk);
            && UniquePackages(agents)
            && Find(agents, packageId)
               == if LastOf(fromDatabase, packageId).Some? then LastOf(fromDatabase, packageId)
                 else Find(fromDisk, packageId)
  {
    PutAllFinds([], fromDatabase, packageId);
    AddMissingFinds(PutAll([], fromDatabase), fromDisk, packageId);
  }

  // ----------------------------------------------------------------- projection

  /** A row of the match table; the score is absent for manual rows. */
  datatype MatchRow = MatchRow(agentId: Text, skillId: Text, score: Option<real>, evaluatedAt: int)

  datatype Projected = Projected(agent: Text, skillId: Text, score: int)

  /** A row is shown if its agent is installed (under a name) and its skill is live. */
  predicate Shown(agents: seq<Agent>, live: set<Text>, row: MatchRow) {
    && LastOf(agents, row.agentId).Some? && LastOf(agents, row.agentId).value.slug != []
    && row.skillId in live
  }

  /** Scores are scaled to 0-100 and rounded half up. */
  function Scaled(score: Option<real>): int {
    ((if score.Some? then score.value else 0.0) * 100.0 + 0.5).Floor
  }

  function Project(agents: seq<Agent>, live: set<Text>, rows: seq<MatchRow>): seq<Projected> {
    if rows == [] then []
    else
      var n := |rows| - 1;
      Project(agents, live, rows[..n]) +
      (if Shown(agents, live, rows[n])
       then [Projected(LastOf(agents, rows[n].agentId).value.slug, rows[n].skillId, Scaled(rows[n].score))]
       else [])
  }

  /** The last agent of a package, the one its key maps to. */
  lemma {:induction false} LastOfIsLast(agents: seq<Agent>, packageId: Text, i: nat)
    requires i < |agents| && agents[i].packageId == packageId
    requires forall j :: i < j < |agents| ==> agents[j].packageId != packageId
    ensures LastOf(agents, packageId) == Some(agents[i])
  {
    if i > 0 {
      assert agents[1..][i - 1] == agents[i];
      LastOfIsLast(agents[1..], packageId, i - 1);
    } else {
      NoneIsLast(agents[1..], packageId);
    }
  }

  lemma {:induction false} NoneIsLast(agents: seq<Agent>, packageId: Text)
    requires forall j :: 0 <= j < |agents| ==> agents[j].packageId != packageId
    ensures LastOf(agents, packageId) == None
  {
    if agents != [] {
      NoneIsLast(agents[1..], packageId);
    }
  }

  /** The nearest whole number of a hundred times the score, halves upwards. */
  lemma ScaledIsNearest(score: Option<real>)
    ensures var percent := if score.Some? then score.value * 100.0 else 0.0;
            Scaled(score) as real - 0.5 <= percent < Scaled(score) as real + 0.5
  {
  }

  lemma {:induction false} ProjectGrows(agents: seq<Agent>, live: set<Text>, rows: seq<MatchRow>, n: nat)
    requires n <= |rows|
    ensures Project(agents, live, rows[..n]) <= Project(agents, live, rows)
  {
    if n == |rows| {
      assert rows[..n] == rows;
    } else {
      var init := rows[..|rows| - 1];
      assert init[..n] == rows[..n];
      ProjectGrows(agents, live, init, n);
    }
  }

  /** Every row of an installed agent and a live skill is listed, under the name of
      the last agent of its package, in its place among such rows; no other is. */
  lemma RowIsProjected(agents: seq<Agent>, live: set<Text>, rows: seq<MatchRow>, i: nat)
    requires i < |rows|
    ensures var agent, row := LastOf(agents, rows[i].agentId), rows[i];
            var place, matches := |Project(agents, live, rows[..i])|, Project(agents, live, rows);
            if agent.Some? && agent.value.slug != [] && row.skillId in live then
              && |Project(agents, live, rows[..i + 1])| == place + 1 <= |matches|
              && matches[place] == Projected(agent.value.slug, row.skillId, Scaled(row.score))
            else
              |Project(agents, live, rows[..i + 1])| == place
  {
    assert rows[..i + 1][..i] == rows[..i];
    ProjectGrows(agents, live, rows, i + 1);
  }

  /** The latest evaluation among the rows shown. */
  ghost predicate IsNewest(agents: seq<Agent>, live: set<Text>, rows: seq<MatchRow>, newest: Option<int>) {
    && (newest.None? <==> forall i :: 0 <= i < |rows| ==> !Shown(agents, live, rows[i]))
    && (newest.Some? ==>
          && (exists i :: 0 <= i < |rows| && Shown(agents, live, rows[i]) && rows[i].evaluatedAt == newest.value)
          && (forall i :: 0 <= i < |rows| && Shown(agents, live, rows[i]) ==> rows[i].evaluatedAt <= newest.value))
  }

  method MatchAgentsToSkills(agents: seq<Agent>, live: set<Text>, rows: seq<MatchRow>, now: int)
    returns (matches: seq<Projected>, matchedAt: int)
    ensures matches == Project(agents, live, rows)
    ensures exists newest ::
        IsNewest(agents, live, rows, newest) && matchedAt == (if newest.Some? then newest.value else now)
  {
    matches := [];
    var newest: Option<int> := None;
    for i := 0 to |rows|
      invariant matches == Project(agents, live, rows[..i])
      invariant IsNewest(agents, live, rows[..i], newest)
    {
      assert rows[..i + 1][..i] == rows[..i];
      var row := rows[i];
      if Shown(agents, live, row) {
        matches := matches + [Projected(LastOf(agents, row.agentId).value.slug, row.skillId, Scaled(row.score))];
        if newest.None? || row.evaluatedAt > newest.value {
          newest := Some(row.evaluatedAt);
        }
      }
      StillNewest(agents, live, rows, i, newest);
    }
    assert rows[..|rows|] == rows;
    matchedAt := if newest.Some? then newest.value else now;
  }

  lemma StillNewest(agents: seq<Agent>, live: set<Text>, rows: seq<MatchRow>, i: nat, newest: Option<int>)
    requires i < |rows|
    requires exists before: Option<int> ::
               && IsNewest(agents, live, rows[..i], before)
               && newest == (if Shown(agents, live, rows[i]) && (before.None? || rows[i].evaluatedAt > before.value)
                             then Some(rows[i].evaluatedAt) else before)
    ensures IsNewest(agents, live, rows[..i + 1], newest)
  {
    var before: Option<int> :|
      && IsNewest(agents, live, rows[..i], before)
      && newest == (if Shown(agents, live, rows[i]) && (before.None? || rows[i].evaluatedAt > before.value)
                    then Some(rows[i].evaluatedAt) else before);
    var upto := rows[..i + 1];
    assert upto[..i] == rows[..i] && upto[i] == rows[i];
    forall j | 0 <= j < i
      ensures upto[j] == rows[..i][j]
    {
    }
    if newest.Some? && newest == before {
      var j :| 0 <= j < i && Shown(agents, live, rows[..i][j]) && rows[..i][j].evaluatedAt == newest.value;
      assert Shown(agents, live, upto[j]) && upto[j].evaluatedAt == newest.value;
    } else if newest.Some? {
      assert Shown(agents, live, upto[i]) && upto[i].evaluatedAt == newest.value;
    }
  }
}
