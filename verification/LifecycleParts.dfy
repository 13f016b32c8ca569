/** Small facts about the parts of the hot-reload state, one move at a time. */
module LifecycleParts {
  import opened Wrappers
  import opened ReloadSpec
  import opened Lane
  import opened Lifecycle
  import opened LifecycleInvariant

  // ------------------------------------------------------- moves of an agent

  /** A new agent, or one nothing refers to, is built or given up. */
  lemma Unlisted(active: Table, retired: seq<Agent>, closers: seq<Closer>, life: Lives, x: nat, l: Life)
    requires Lists(active, retired, closers, life)
    requires x in life ==> life[x].Built?
    requires l.Built? || l.Gone?
    ensures Lists(active, retired, closers, life[x := l])
  {
  }

  /** An entered agent starts serving a label nobody serves. */
  lemma Promoted(active: Table, retired: seq<Agent>, closers: seq<Closer>, life: Lives, agent: Agent)
    requires Lists(active, retired, closers, life)
    requires agent.id in life && life[agent.id].Built? && agent.name !in active
    ensures Lists(active[agent.name := agent], retired, closers, life[agent.id := Serving(agent.name)])
  {
  }

  /** Startup is done with the first pending agent. */
  lemma PendingAdvances(pending: seq<Agent>, active: Table, life: Lives, l: Life)
    requires PendingBuilt(pending, active, life) && pending != []
    ensures PendingBuilt(pending[1..], active, life[pending[0].id := l])
    ensures PendingBuilt(pending[1..], active[pending[0].name := pending[0]], life[pending[0].id := l])
  {
  }

  /** A serving agent is taken out of the table and set aside for closing. */
  lemma SetAside(active: Table, retired: seq<Agent>, closers: seq<Closer>, life: Lives, name: Name)
    requires Lists(active, retired, closers, life) && name in active
    ensures Lists(active - {name}, retired + [active[name]], closers, life[active[name].id := Retiring(|retired|)])
  {
  }

  /** A changed label: the previous agent is set aside, the new one takes over. */
  lemma Replaced(active: Table, retired: seq<Agent>, closers: seq<Closer>, life: Lives, agent: Agent)
    requires Lists(active, retired, closers, life) && agent.name in active
    requires agent.id in life && life[agent.id].Built?
    ensures var prior := active[agent.name];
            Lists(active[agent.name := agent], retired + [prior], closers,
                  life[prior.id := Retiring(|retired|)][agent.id := Serving(agent.name)])
  {
    var prior := active[agent.name];
    SetAside(active, retired, closers, life, agent.name);
    Promoted(active - {agent.name}, retired + [prior], closers, life[prior.id := Retiring(|retired|)], agent);
    assert (active - {agent.name})[agent.name := agent] == active[agent.name := agent];
  }

  function Scheduled(life: Lives, closer: nat): Lives {
    map x | x in life :: if life[x].Retiring? then Closing(closer, life[x].index) else life[x]
  }

  lemma HandedOver(active: Table, retired: seq<Agent>, closers: seq<Closer>, life: Lives)
    requires Lists(active, retired, closers, life)
    ensures var more := if retired == [] then closers else closers + [Closer(retired, 0, Idle)];
            Lists(active, [], more, Scheduled(life, |closers|))
  {
    var after := Scheduled(life, |closers|);
    assert ActiveServes(active, after);
    assert RetiredRetires([], after);
    assert forall i: nat :: i < |closers| ==> CloserCloses(closers[i].agents, i, after);
    if retired != [] {
      assert CloserCloses(retired, |closers|, after);
    }
  }

  /** A closer asks, is answered or moves on; its agents stay where they are. */
  lemma CloserMoves(active: Table, retired: seq<Agent>, closers: seq<Closer>, life: Lives, i: nat, pos: nat, ask: Ask)
    requires Lists(active, retired, closers, life) && ClosersInRange(closers)
    requires i < |closers| && pos <= |closers[i].agents| && (!ask.Idle? ==> pos < |closers[i].agents|)
    ensures var after := closers[i := Closer(closers[i].agents, pos, ask)];
            Lists(active, retired, after, life) && ClosersInRange(after)
  {
    var after := closers[i := Closer(closers[i].agents, pos, ask)];
    assert forall j: nat :: j < |closers| ==> after[j].agents == closers[j].agents;
  }

  // ------------------------------------------------------------ open stacks

  /** Whether an agent is open depends only on its own life, on the answer the
      holder has, and on its own closer. */
  lemma TracksNewBuild(stacks: seq<nat>, life: Lives, closers: seq<Closer>, stopped: bool, x: nat, l: Life, wait: Wait)
    requires Tracks(stacks, life, Running, closers, stopped)
    requires x !in life && (l.Built? || l.Gone?) && !wait.Answered?
    ensures Tracks(stacks, life[x := l], wait, closers, stopped)
  {
  }

  lemma TracksEnter(stacks: seq<nat>, life: Lives, closers: seq<Closer>, stopped: bool, agent: Agent, ok: bool)
    requires Tracks(stacks, life, Queued(agent), closers, stopped)
    requires agent.id in life && life[agent.id].Built?
    ensures agent.id !in stacks
    ensures Tracks(if ok then stacks + [agent.id] else stacks, life, Answered(agent, ok), closers, stopped)
  {
  }

  lemma TracksExit(stacks: seq<nat>, life: Lives, wait: Wait, closers: seq<Closer>, stopped: bool, i: nat)
    requires Tracks(stacks, life, wait, closers, stopped) && ClosersClose(closers, life)
    requires i < |closers| && closers[i].ask.Waiting? && closers[i].pos < |closers[i].agents|
    ensures Tracks(Without(stacks, closers[i].agents[closers[i].pos].id), life, wait,
        closers[i := closers[i].(ask := Told)], stopped)
  {
    assert CloserCloses(closers[i].agents, i, life);
    var gone := closers[i].agents[closers[i].pos].id;
    var after := closers[i := closers[i].(ask := Told)];
    forall x | x in life
      ensures Open(life, wait, after, x) <==> Open(life, wait, closers, x) && x != gone
    {
      if life[x].Closing? {
        assert closers[life[x].closer].agents[life[x].index].id == x;
      }
    }
  }

  lemma TracksSettled(stacks: seq<nat>, life: Lives, wait: Wait, closers: seq<Closer>, stopped: bool)
    requires Tracks(stacks, life, wait, closers, stopped) && wait.Answered?
    requires wait.agent.id in life && life[wait.agent.id].Built?
    ensures Tracks(stacks, life[wait.agent.id := if wait.ok then Serving(wait.agent.name) else Gone],
                   Running, closers, stopped)
  {
  }

  lemma TracksRetired(stacks: seq<nat>, life: Lives, wait: Wait, closers: seq<Closer>, stopped: bool, x: nat, k: nat)
    requires Tracks(stacks, life, wait, closers, stopped)
    requires x in life && life[x].Serving?
    ensures Tracks(stacks, life[x := Retiring(k)], wait, closers, stopped)
  {
  }

  lemma TracksHandedOver(stacks: seq<nat>, life: Lives, wait: Wait, retired: seq<Agent>, closers: seq<Closer>,
          stopped: bool)
    requires Tracks(stacks, life, wait, closers, stopped)
    requires RetiredRetires(retired, life) && ClosersClose(closers, life)
    ensures var more := if retired == [] then closers else closers + [Closer(retired, 0, Idle)];
            Tracks(stacks, Scheduled(life, |closers|), wait, more, stopped)
  {
    var more := if retired == [] then closers else closers + [Closer(retired, 0, Idle)];
    var after := Scheduled(life, |closers|);
    forall x | x in life
      ensures Open(after, wait, more, x) == Open(life, wait, closers, x)
    {
    }
  }

  /** Moving a closer without changing how far the lane got changes nothing. */
  lemma TracksCloser(stacks: seq<nat>, life: Lives, wait: Wait, closers: seq<Closer>, stopped: bool, i: nat, c: Closer)
    requires Tracks(stacks, life, wait, closers, stopped)
    requires i < |closers| && (Threshold(c) == Threshold(closers[i]) || (stopped && stacks == []))
    ensures Tracks(stacks, life, wait, closers[i := c], stopped)
  {
    var after := closers[i := c];
    if Threshold(c) == Threshold(closers[i]) {
      assert forall x :: x in life ==> Open(life, wait, after, x) == Open(life, wait, closers, x);
    }
  }

  // ----------------------------------------------------------------- queues

  lemma QueueEnter(queue: seq<Op>, closers: seq<Closer>, agent: Agent)
    requires Matched(queue, Running, closers)
    ensures Matched(queue + [Enter(agent)], Queued(agent), closers)
  {
  }

  lemma QueueExit(queue: seq<Op>, wait: Wait, closers: seq<Closer>, i: nat)
    requires Matched(queue, wait, closers)
    requires i < |closers| && closers[i].ask.Idle? && closers[i].pos < |closers[i].agents|
    ensures Matched(queue + [Exit(closers[i].agents[closers[i].pos], i)], wait,
        closers[i := closers[i].(ask := Waiting)])
  {
    var more := queue + [Exit(closers[i].agents[closers[i].pos], i)];
    assert forall k :: 0 <= k < |queue| && queue[k].Exit? ==> queue[k].closer != i;
    assert EnterMatches(more, wait);
    assert QueueDistinct(more);
  }

  /** A closer that is not waiting has no op in the queue. */
  lemma QueueIgnores(queue: seq<Op>, wait: Wait, closers: seq<Closer>, i: nat, c: Closer)
    requires Matched(queue, wait, closers)
    requires i < |closers| && !closers[i].ask.Waiting?
    ensures Matched(queue, wait, closers[i := c])
  {
  }

  lemma ServedEnter(queue: seq<Op>, wait: Wait, closers: seq<Closer>, answer: Wait)
    requires Matched(queue, wait, closers) && queue != [] && queue[0].Enter?
    ensures Matched(queue[1..], answer, closers)
  {
    var rest := queue[1..];
    assert forall k :: 0 <= k < |rest| ==> !SameSender(queue[0], rest[k]);
  }

  lemma ServedExit(queue: seq<Op>, wait: Wait, closers: seq<Closer>)
    requires Matched(queue, wait, closers) && queue != [] && queue[0].Exit?
    ensures var i := queue[0].closer;
            Matched(queue[1..], wait, closers[i := closers[i].(ask := Told)])
  {
    var i := queue[0].closer;
    var told := closers[i := closers[i].(ask := Told)];
    var rest := queue[1..];
    assert forall k :: 0 <= k < |rest| ==> !SameSender(queue[0], rest[k]);
    assert ExitMatches(rest, told);
  }

  lemma BarredAfterExit(queue: seq<Op>)
    requires EntersBehind(queue) && queue != [] && queue[0].Exit?
    ensures EntersBehind(queue[1..])
  {
    var rest := queue[1..];
    forall k | 0 <= k < |rest| && rest[k].Enter?
      ensures Shutdown in rest[..k]
    {
      assert queue[k + 1].Enter? && Shutdown in queue[..k + 1];
      assert queue[..k + 1] == [queue[0]] + rest[..k];
    }
  }

  lemma BarredAfterPut(queue: seq<Op>, op: Op)
    requires EntersBehind(queue) && (op.Enter? ==> Shutdown in queue)
    ensures EntersBehind(queue + [op])
  {
    var more := queue + [op];
    forall k | 0 <= k < |more| && more[k].Enter?
      ensures Shutdown in more[..k]
    {
      assert more[..k] == queue[..k];
      assert queue[..|queue|] == queue;
    }
  }

  // ---------------------------------------------------- progress of a reload

  lemma FreshPass(scan: Scan, order: seq<Name>, active: Table)
    requires forall n :: n in order <==> n in scan.valid
    ensures Underway(Pass(scan, order, active, Adding, 0, map[]), active)
  {
  }

  predicate Turn(p: Pass) {
    !p.loop.Removing? && p.next < |p.order| && p.order[p.next] in p.scan.valid
  }

  lemma SkipTurn(p: Pass, active: Table)
    requires Underway(p, active) && Turn(p) && !MustMount(active, p, p.order[p.next])
    ensures Underway(p.(next := p.next + 1), active)
  {
    assert Lookup(active, p.order[p.next]) == Midway(p, p.order[p.next]);
  }

  lemma FailTurn(p: Pass, active: Table)
    requires Underway(p, active) && Turn(p) && MustMount(active, p, p.order[p.next])
    ensures Underway(p.(attempts := p.attempts[p.order[p.next] := None], next := p.next + 1), active)
  {
    assert Lookup(active, p.order[p.next]) == Midway(p, p.order[p.next]);
  }

  lemma MountTurn(p: Pass, active: Table, agent: Agent)
    requires Underway(p, active) && Turn(p) && MustMount(active, p, p.order[p.next])
    requires agent.name == p.order[p.next] && agent.fingerprint == p.scan.valid[agent.name]
    ensures Underway(p.(attempts := p.attempts[agent.name := Some(agent)], next := p.next + 1),
        active[agent.name := agent])
  {
    assert Lookup(active, agent.name) == Midway(p, agent.name);
    var done := p.(attempts := p.attempts[agent.name := Some(agent)], next := p.next + 1);
    assert Attempted(done);
    forall n | Present(p.scan, n)
      ensures Lookup(active[agent.name := agent], n) == Midway(done, n)
    {
      assert Lookup(active, n) == Midway(p, n);
    }
  }

  // ------------------------------------------------------------------ routes

  /** A life the route table does not depend on may change. */
  lemma RoutesIgnore(routes: set<Agent>, life: Lives, beforeReload: bool, failed: set<nat>, x: nat, l: Life)
    requires AllRouted(routes, life, [], beforeReload, failed)
    requires x in life ==> life[x].Built?
    ensures AllRouted(routes, life[x := l], [], beforeReload, failed)
  {
  }

  lemma RoutesKeep(routes: set<Agent>, life: Lives, pending: seq<Agent>, beforeReload: bool, failed: set<nat>, x: nat,
          l: Life)
    requires AllRouted(routes, life, pending, beforeReload, failed)
    requires l.Serving? || l.Retiring?
    ensures AllRouted(routes, life[x := l], pending, beforeReload, failed)
  {
  }

  /** Startup has dealt with the first pending agent, one way or the other. */
  lemma RoutesStartup(routes: set<Agent>, life: Lives, pending: seq<Agent>, failed: set<nat>, l: Life)
    requires AllRouted(routes, life, pending, true, failed) && pending != []
    requires l.Serving? || l.Gone?
    ensures AllRouted(routes, life[pending[0].id := l], pending[1..], true,
                      if l.Gone? then failed + {pending[0].id} else failed)
  {
    forall r | r in routes && r in pending && r.id != pending[0].id
      ensures r in pending[1..]
    {
    }
  }
}
