/**
 What can always still be done: before `stop` a startup, a reload and a deferred
 close can be brought to their end from every state that is ever reached, and a
 shutdown that was asked for can be completed.
 */
module LifecycleProgress {
  import opened Wrappers
  import opened ReloadSpec
  import opened Lane
  import opened Lifecycle
  import opened LifecycleInvariant
  import opened LifecycleAnswers

  lemma LeadsThrough(s: State, t: State, u: State)
    requires Leads(s, t) && Leads(t, u)
    ensures Leads(s, u)
  {
    var left, before :| Path(left, before) && left[0] == s && left[|before|] == t;
    var right, after :| Path(right, after) && right[0] == t && right[|after|] == u;
    var states, actions := left + right[1..], before + after;
    forall k | 0 <= k < |actions|
      ensures Enabled(states[k], actions[k]) && states[k + 1] == Apply(states[k], actions[k])
    {
      if k < |before| {
        assert actions[k] == before[k];
      } else {
        var j := k - |before|;
        assert actions[k] == after[j] && states[k] == right[j] && states[k + 1] == right[j + 1];
      }
    }
    assert Path(states, actions);
  }

  lemma OneAction(s: State, a: Action)
    requires Settled(s) && Enabled(s, a)
    ensures Leads(s, Apply(s, a)) && Settled(Apply(s, a))
  {
    LeadsNowhere(s);
    LeadsOn(s, s, a);
    StepKeepsSettled(s, a);
  }

  // ------------------------------------------------------------ the lane's turns

  /** Nothing but the lane and the closers differs. */
  predicate OnlyServed(s: State, t: State) {
    t == s.(lane := t.lane, closers := t.closers, wait := t.wait)
  }

  lemma WorkerIsUp(s: State)
    requires Stages(s) && !s.stopped && !s.holder.Free?
    ensures s.lane.phase.Up? && Shutdown !in s.lane.queue
  {
  }

  /** At the head of the queue is the enter waited for, or an exit. */
  lemma HeadOfQueue(s: State)
    requires Settled(s) && !s.stopped && s.wait.Queued?
    ensures s.lane.phase.Up? && s.lane.queue != []
    ensures s.lane.queue[0].Exit? || s.lane.queue[0] == Enter(s.wait.agent)
  {
    WorkerIsUp(s);
    assert Enter(s.wait.agent) in s.lane.queue;
    assert s.lane.queue[0] in s.lane.queue;
  }

  lemma HeadIsServed(s: State)
    requires s.lane.phase.Up? && s.lane.queue != [] && s.wait.Queued?
    requires s.lane.queue[0].Exit? || s.lane.queue[0] == Enter(s.wait.agent)
    ensures var t := LaneTurn(s, true);
            && OnlyServed(s, t) && t.lane.queue == s.lane.queue[1..]
            && t.wait == if s.lane.queue[0].Exit? then s.wait else Answered(s.wait.agent, true)
  {
  }

  /** The worker can answer the enter the lock holder waits for with a success. */
  lemma {:induction false} ServesWaiting(s: State) returns (t: State)
    requires Settled(s) && !s.stopped && s.wait.Queued?
    ensures Leads(s, t) && Settled(t) && OnlyServed(s, t) && t.wait == Answered(s.wait.agent, true)
    decreases |s.lane.queue|
  {
    HeadOfQueue(s);
    HeadIsServed(s);
    OneAction(s, ServeLane(true));
    var u := LaneTurn(s, true);
    if s.lane.queue[0].Exit? {
      t := ServesWaiting(u);
      LeadsThrough(s, u, t);
    } else {
      t := u;
    }
  }

  // ------------------------------------------------------------------- a reload

  /** This reload is under way and waits for nobody. */
  ghost predicate Busy(s: State, p: Pass) {
    Settled(s) && !s.stopped && s.holder == Reloading(p) && s.wait.Running?
  }

  predicate SameReload(p: Pass, q: Pass) {
    q.scan == p.scan && q.order == p.order && q.base == p.base
  }

  predicate AllMounted(attempts: Attempts) {
    forall name :: name in attempts ==> attempts[name].Some?
  }

  /** A turn of the loop either is over at once or waits for its enter. */
  lemma MountTries(s: State, p: Pass)
    requires Enabled(s, MountNext(true)) && s.holder == Reloading(p) && CanDispatch(s.lane)
    ensures var t := Mount(s, true);
            && t.stopped == s.stopped && t.reloads == s.reloads
            && (t.wait.Running? ==> t.holder == Reloading(p.(next := p.next + 1)))
            && (!t.wait.Running? ==> t.wait.Queued? && t.holder == s.holder)
  {
  }

  function Entered(p: Pass, agent: Agent): Pass {
    p.(attempts := p.attempts[agent.name := Some(agent)], next := p.next + 1)
  }

  lemma EnterEnds(s: State, p: Pass)
    requires s.wait.Answered? && s.holder == Reloading(p)
    ensures var t := AfterEnter(s);
            && t.stopped == s.stopped && t.reloads == s.reloads && t.wait.Running? && t.holder.Reloading?
            && (s.wait.ok ==> t.holder.pass == Entered(p, s.wait.agent))
  {
  }

  lemma ResumesReload(s: State, p: Pass) returns (t: State)
    requires Settled(s) && !s.stopped && s.wait.Answered? && s.holder == Reloading(p)
    ensures Leads(s, t) && t.holder.Reloading? && Busy(t, t.holder.pass) && t.reloads == s.reloads
    ensures s.wait.ok ==> t.holder.pass == Entered(p, s.wait.agent)
  {
    EnterEnds(s, p);
    OneAction(s, Resume);
    t := AfterEnter(s);
  }

  lemma WaitEnds(s: State, p: Pass) returns (t: State)
    requires Settled(s) && !s.stopped && s.wait.Queued? && s.holder == Reloading(p)
    ensures Leads(s, t) && t.holder.Reloading? && Busy(t, t.holder.pass) && t.reloads == s.reloads
    ensures t.holder.pass == Entered(p, s.wait.agent)
    ensures AllMounted(p.attempts) ==> AllMounted(t.holder.pass.attempts)
  {
    var u := ServesWaiting(s);
    t := ResumesReload(u, p);
    LeadsThrough(s, u, t);
  }

  lemma TriesOne(s: State, p: Pass) returns (t: State)
    requires Busy(s, p) && !p.loop.Removing? && p.next < |p.order|
    ensures Leads(s, t) && Settled(t) && !t.stopped && t.reloads == s.reloads
    ensures t.wait.Running? ==> t.holder == Reloading(p.(next := p.next + 1))
    ensures !t.wait.Running? ==> t.wait.Queued? && t.holder == Reloading(p)
  {
    WorkerIsUp(s);
    NextIsValid(s, p);
    MountTries(s, p);
    OneAction(s, MountNext(true));
    t := Mount(s, true);
  }

  lemma MountsOne(s: State, p: Pass) returns (t: State, q: Pass)
    requires Busy(s, p) && !p.loop.Removing? && p.next < |p.order|
    ensures Leads(s, t) && Busy(t, q) && t.reloads == s.reloads
    ensures SameReload(p, q) && q.loop == p.loop && q.next == p.next + 1
    ensures AllMounted(p.attempts) ==> AllMounted(q.attempts)
  {
    var u := TriesOne(s, p);
    if u.wait.Queued? {
      t := WaitEnds(u, p);
      LeadsThrough(s, u, t);
    } else {
      t := u;
    }
    q := t.holder.pass;
  }

  lemma NextIsValid(s: State, p: Pass)
    requires Busy(s, p) && p.next < |p.order|
    ensures p.order[p.next] in p.scan.valid
  {
    assert Underway(p, s.active);
  }

  /** The added and the changed loop can be run to their ends. */
  lemma {:induction false} MountsAll(s: State, p: Pass) returns (t: State, q: Pass)
    requires Busy(s, p)
    ensures Leads(s, t) && Busy(t, q) && t.reloads == s.reloads
    ensures SameReload(p, q) && q.loop.Removing?
    ensures AllMounted(p.attempts) ==> AllMounted(q.attempts)
    decreases if p.loop.Adding? then 2 else if p.loop.Changing? then 1 else 0, |p.order| - p.next
  {
    if p.loop.Removing? {
      LeadsNowhere(s);
      t, q := s, p;
    } else if p.next < |p.order| {
      var u, r := MountsOne(s, p);
      t, q := MountsAll(u, r);
      LeadsThrough(s, u, t);
    } else {
      OneAction(s, NextLoop);
      var u := Apply(s, NextLoop);
      t, q := MountsAll(u, u.holder.pass);
      LeadsThrough(s, u, t);
    }
  }

  /** And the removed loop. */
  lemma {:induction false} RemovesAll(s: State, p: Pass) returns (t: State)
    requires Busy(s, p) && p.loop.Removing?
    ensures Leads(s, t) && Busy(t, p) && t.reloads == s.reloads
    ensures forall name :: name in t.active ==> Present(p.scan, name)
    decreases |s.active|
  {
    if name :| name in s.active && !Present(p.scan, name) {
      OneAction(s, RemoveNext(name));
      var u := Remove(s, name);
      t := RemovesAll(u, p);
      LeadsThrough(s, u, t);
    } else {
      LeadsNowhere(s);
      t := s;
    }
  }

  /** What a reload without failures leaves of the table it found: every label that may be
      mounted serves the bytes on disk, by the same agent if they are the same; a
      label whose files are unusable keeps its agent; and no other label is left. */
  ghost predicate Converged(before: Table, scan: Scan, after: Table) {
    forall name :: ConvergedAt(before, scan, after, name)
  }

  predicate ConvergedAt(before: Table, scan: Scan, after: Table, name: Name) {
    && (name in scan.valid ==> name in after && after[name].fingerprint == scan.valid[name])
    && (name in scan.valid && name in before && before[name].fingerprint == scan.valid[name] ==>
          name in after && after[name] == before[name])
    && (name !in scan.valid && name in scan.parseFailed ==> Lookup(after, name) == Lookup(before, name))
    && (!Present(scan, name) ==> name !in after)
  }

  lemma LabelConverges(p: Pass, active: Table, name: Name)
    requires Underway(p, active) && p.loop.Removing? && AllMounted(p.attempts) && Present(p.scan, name)
    ensures ConvergedAt(p.base, p.scan, active, name)
  {
    assert Lookup(active, name) == Midway(p, name);
    if name in p.scan.valid {
      assert name in p.order;
    }
  }

  lemma FinishesConverged(p: Pass, active: Table)
    requires Underway(p, active) && p.loop.Removing? && AllMounted(p.attempts)
    requires forall name :: name in active ==> Present(p.scan, name)
    ensures Converged(p.base, p.scan, active)
  {
    forall name
      ensures ConvergedAt(p.base, p.scan, active, name)
    {
      if Present(p.scan, name) {
        LabelConverges(p, active, name);
      }
    }
  }

  lemma FinishesReload(s: State, p: Pass) returns (t: State)
    requires Busy(s, p)
    ensures Leads(s, t) && Settled(t) && t.holder.Free? && t.reloads == s.reloads + 1
    ensures AllMounted(p.attempts) ==> Converged(p.base, p.scan, t.active)
  {
    var u, q := MountsAll(s, p);
    var v := RemovesAll(u, q);
    LeadsThrough(s, u, v);
    if AllMounted(p.attempts) {
      FinishesConverged(q, v.active);
    }
    OneAction(v, FinishReload);
    t := Swap(v);
    LeadsThrough(s, v, t);
  }

  /** In every state before `stop` that is ever reached, a running reload can
      still finish. */
  lemma ReloadCanFinish(s: State)
    requires Reachable(s) && !s.stopped && s.holder.Reloading?
    ensures exists t :: Leads(s, t) && t.holder.Free? && t.reloads == s.reloads + 1
  {
    ReachableSettled(s);
    var u := GoesOn(s);
    var t := FinishesReload(u, u.holder.pass);
    LeadsThrough(s, u, t);
  }

  lemma GoesOn(s: State) returns (t: State)
    requires Settled(s) && !s.stopped && s.holder.Reloading?
    ensures Leads(s, t) && t.holder.Reloading? && Busy(t, t.holder.pass) && t.reloads == s.reloads
  {
    match s.wait
    case Running =>
      LeadsNowhere(s);
      t := s;
    case Queued(_) => t := WaitEnds(s, s.holder.pass);
    case Answered(_, _) => t := ResumesReload(s, s.holder.pass);
  }

  /** The labels in the order in which the reload tries them. */
  ghost predicate Enumerates(order: seq<Name>, scan: Scan) {
    && (forall j, k :: 0 <= j < k < |order| ==> order[j] != order[k])
    && (forall name :: name in order <==> name in scan.valid)
  }

  /** Whenever the registry is free before `stop`, a reload of whatever is found on
      disk can begin, and can leave exactly what is there. */
  lemma ReloadCanConverge(s: State, scan: Scan, order: seq<Name>)
    requires Reachable(s) && s.started && !s.stopped && s.holder.Free? && Enumerates(order, scan)
    ensures exists t :: Leads(s, t) && t.holder.Free? && t.reloads == s.reloads + 1
                        && Converged(s.active, scan, t.active)
  {
    var u := Begins(s, scan, order);
    var t := FinishesReload(u, u.holder.pass);
    LeadsThrough(s, u, t);
  }

  lemma Begins(s: State, scan: Scan, order: seq<Name>) returns (t: State)
    requires Reachable(s) && s.started && !s.stopped && s.holder.Free? && Enumerates(order, scan)
    ensures Leads(s, t) && t.reloads == s.reloads
    ensures t.holder == Reloading(Pass(scan, order, s.active, Adding, 0, map[])) && Busy(t, t.holder.pass)
  {
    ReachableSettled(s);
    OneAction(s, BeginReload(scan, order));
    t := Apply(s, BeginReload(scan, order));
  }

  // ------------------------------------------------------------------- startup

  ghost predicate StartingUp(s: State) {
    Settled(s) && s.holder.Starting? && !s.stopped
  }

  lemma EntersOne(s: State) returns (t: State)
    requires StartingUp(s) && s.wait.Running? && s.pending != []
    ensures Leads(s, t) && StartingUp(t) && t.wait.Running?
    ensures t.pending == s.pending[1..] && t.active == s.active[s.pending[0].name := s.pending[0]]
  {
    WorkerIsUp(s);
    OneAction(s, AskStartup);
    var u := Apply(s, AskStartup);
    t := EntersAsked(u);
    LeadsThrough(s, u, t);
  }

  lemma EntersAsked(s: State) returns (t: State)
    requires StartingUp(s) && s.wait.Queued?
    ensures Leads(s, t) && StartingUp(t) && t.wait.Running? && s.pending != []
    ensures t.pending == s.pending[1..] && t.active == s.active[s.pending[0].name := s.pending[0]]
  {
    var u := ServesWaiting(s);
    OneAction(u, Resume);
    t := AfterEnter(u);
    LeadsThrough(s, u, t);
  }

  ghost predicate Unlike(pending: seq<Agent>) {
    forall j, k :: 0 <= j < k < |pending| ==> pending[j].name != pending[k].name
  }

  lemma {:induction false} EntersAll(s: State) returns (t: State)
    requires StartingUp(s) && s.wait.Running? && Unlike(s.pending)
    ensures Leads(s, t) && StartingUp(t) && t.wait.Running? && t.pending == []
    ensures forall k :: 0 <= k < |s.pending| ==> Lookup(t.active, s.pending[k].name) == Some(s.pending[k])
    ensures forall name :: (forall k :: 0 <= k < |s.pending| ==> s.pending[k].name != name) ==>
              Lookup(t.active, name) == Lookup(s.active, name)
    decreases |s.pending|
  {
    if s.pending == [] {
      LeadsNowhere(s);
      t := s;
    } else {
      var u := EntersOne(s);
      t := EntersAll(u);
      LeadsThrough(s, u, t);
      FirstIsKept(s.pending, s.active, t.active);
    }
  }

  lemma FirstIsKept(pending: seq<Agent>, before: Table, after: Table)
    requires pending != [] && Unlike(pending)
    requires forall k :: 0 <= k < |pending[1..]| ==> Lookup(after, pending[1..][k].name) == Some(pending[1..][k])
    requires forall name :: (forall k :: 0 <= k < |pending[1..]| ==> pending[1..][k].name != name) ==>
               Lookup(after, name) == Lookup(before[pending[0].name := pending[0]], name)
    ensures forall k :: 0 <= k < |pending| ==> Lookup(after, pending[k].name) == Some(pending[k])
    ensures forall name :: (forall k :: 0 <= k < |pending| ==> pending[k].name != name) ==>
              Lookup(after, name) == Lookup(before, name)
  {
    forall k | 0 <= k < |pending|
      ensures Lookup(after, pending[k].name) == Some(pending[k])
    {
      if k > 0 {
        assert pending[1..][k - 1] == pending[k];
      }
    }
    forall name | forall k :: 0 <= k < |pending| ==> pending[k].name != name
      ensures Lookup(after, name) == Lookup(before, name)
    {
      assert forall k :: 0 <= k < |pending[1..]| ==> pending[1..][k] == pending[k + 1];
    }
  }

  ghost predicate Serves(active: Table, agents: seq<Agent>) {
    forall k :: 0 <= k < |agents| ==> Lookup(active, agents[k].name) == Some(agents[k])
  }

  /** A startup can end with every agent entered and serving under its label. */
  lemma StartupCanServeAll(s: State)
    requires Init(s)
    ensures exists t :: Leads(s, t) && t.started && t.holder.Free? && t.lane.phase.Up? && Serves(t.active, s.pending)
  {
    InitSettled(s);
    OneAction(s, StartLane);
    var u := Apply(s, StartLane);
    var v := EntersAll(u);
    LeadsThrough(s, u, v);
    WorkerIsUp(v);
    OneAction(v, FinishStart);
    LeadsThrough(s, v, Apply(v, FinishStart));
  }

  // ---------------------------------------------------------- closers and shutdown

  /** Before `stop`, with this much left to close. */
  ghost predicate ClosesFrom(s: State, i: nat, agents: seq<Agent>, pos: nat) {
    && Settled(s) && !s.stopped && s.lane.phase.Up?
    && i < |s.closers| && s.closers[i].agents == agents && s.closers[i].pos == pos
  }

  lemma ExitWaits(s: State, i: nat)
    requires Settled(s) && !s.stopped && s.lane.phase.Up? && i < |s.closers| && s.closers[i].ask.Waiting?
    ensures s.lane.queue != [] && (s.lane.queue[0].Enter? || s.lane.queue[0].Exit?)
    ensures s.lane.queue[0].Exit? ==> s.lane.queue[0].closer < |s.closers|
  {
    assert Exit(s.closers[i].agents[s.closers[i].pos], i) in s.lane.queue;
    assert s.lane.queue[0] in s.lane.queue;
  }

  lemma TurnTells(s: State, i: nat)
    requires s.lane.phase.Up? && s.lane.queue != [] && !s.lane.queue[0].Shutdown? && i < |s.closers|
    ensures var t := LaneTurn(s, true);
            && t.stopped == s.stopped && t.lane.phase.Up? && t.lane.queue == s.lane.queue[1..]
            && |t.closers| == |s.closers| && t.closers[i].agents == s.closers[i].agents
            && t.closers[i].pos == s.closers[i].pos && (t.closers[i].ask == s.closers[i].ask || t.closers[i].ask.Told?)
  {
  }

  lemma {:induction false} TellsCloser(s: State, i: nat, agents: seq<Agent>, pos: nat) returns (t: State)
    requires ClosesFrom(s, i, agents, pos) && s.closers[i].ask.Waiting?
    ensures Leads(s, t) && ClosesFrom(t, i, agents, pos) && t.closers[i].ask.Told?
    decreases |s.lane.queue|
  {
    ExitWaits(s, i);
    TurnTells(s, i);
    OneAction(s, ServeLane(true));
    t := LaneTurn(s, true);
    if !t.closers[i].ask.Told? {
      var u := t;
      t := TellsCloser(u, i, agents, pos);
      LeadsThrough(s, u, t);
    }
  }

  lemma CloserAsked(s: State, i: nat, agents: seq<Agent>, pos: nat) returns (t: State)
    requires ClosesFrom(s, i, agents, pos) && s.closers[i].ask.Idle? && pos < |agents|
    ensures Leads(s, t) && ClosesFrom(t, i, agents, pos) && t.closers[i].ask.Waiting?
  {
    OneAction(s, CloserAsks(i));
    t := CloserTurn(s, i);
  }

  lemma CloserTold(s: State, i: nat, agents: seq<Agent>, pos: nat) returns (t: State)
    requires ClosesFrom(s, i, agents, pos) && s.closers[i].ask.Told?
    ensures Leads(s, t) && ClosesFrom(t, i, agents, pos + 1)
  {
    OneAction(s, CloserResumes(i));
    t := Apply(s, CloserResumes(i));
  }

  lemma CloserWaits(s: State, i: nat, agents: seq<Agent>, pos: nat) returns (t: State)
    requires ClosesFrom(s, i, agents, pos) && s.closers[i].ask.Waiting?
    ensures Leads(s, t) && ClosesFrom(t, i, agents, pos + 1)
  {
    var u := TellsCloser(s, i, agents, pos);
    t := CloserTold(u, i, agents, pos);
    LeadsThrough(s, u, t);
  }

  lemma ClosesOne(s: State, i: nat, agents: seq<Agent>, pos: nat) returns (t: State)
    requires ClosesFrom(s, i, agents, pos) && pos < |agents|
    ensures Leads(s, t) && ClosesFrom(t, i, agents, pos + 1)
  {
    match s.closers[i].ask
    case Idle =>
      var u := CloserAsked(s, i, agents, pos);
      t := CloserWaits(u, i, agents, pos);
      LeadsThrough(s, u, t);
    case Waiting => t := CloserWaits(s, i, agents, pos);
    case Told => t := CloserTold(s, i, agents, pos);
  }

  lemma {:induction false} ClosesAll(s: State, i: nat, agents: seq<Agent>, pos: nat) returns (t: State)
    requires ClosesFrom(s, i, agents, pos) && pos <= |agents|
    ensures Leads(s, t) && ClosesFrom(t, i, agents, |agents|)
    decreases |agents| - pos
  {
    if pos == |agents| {
      LeadsNowhere(s);
      t := s;
    } else {
      var u := ClosesOne(s, i, agents, pos);
      t := ClosesAll(u, i, agents, pos + 1);
      LeadsThrough(s, u, t);
    }
  }

  /** Before `stop` every deferred closer can come to the end of its list. */
  lemma CloserCanFinish(s: State, i: nat)
    requires Reachable(s) && !s.stopped && i < |s.closers|
    ensures exists t :: Leads(s, t) && i < |t.closers| && t.closers[i].agents == s.closers[i].agents
                        && t.closers[i].pos == |s.closers[i].agents|
  {
    ReachableSettled(s);
    assert s.lane.phase.Up?;
    var t := ClosesAll(s, i, s.closers[i].agents, s.closers[i].pos);
  }

  lemma ShutdownWaits(s: State)
    requires Settled(s) && s.stopped && s.lane.phase.Up?
    ensures s.lane.queue != []
  {
  }

  lemma TurnShrinks(s: State)
    requires s.lane.phase.Up? && s.lane.queue != []
    ensures var t := LaneTurn(s, false);
            && t.stopped == s.stopped && (t.lane.phase.Up? || t.lane.phase.Halted?)
            && (|t.lane.queue| < |s.lane.queue|
                || (|t.lane.queue| == |s.lane.queue| && |t.lane.stacks| < |s.lane.stacks|))
  {
  }

  lemma {:induction false} DrainsLane(s: State) returns (t: State)
    requires Settled(s) && s.stopped && (s.lane.phase.Up? || s.lane.phase.Halted?)
    ensures Leads(s, t) && Settled(t) && t.lane.phase.Halted?
    decreases |s.lane.queue|, |s.lane.stacks|
  {
    if s.lane.phase.Halted? {
      LeadsNowhere(s);
      t := s;
    } else {
      ShutdownWaits(s);
      TurnShrinks(s);
      OneAction(s, ServeLane(false));
      var u := LaneTurn(s, false);
      t := DrainsLane(u);
      LeadsThrough(s, u, t);
    }
  }

  /** A shutdown that was asked for can be completed: the queue is gone, and every
      lifespan that was entered is closed. */
  lemma ShutdownCanFinish(s: State)
    requires Reachable(s) && s.stopped && !s.lane.phase.Down?
    ensures exists t :: Leads(s, t) && t.lane.phase.Down? && t.lane.closed == t.lane.entered
  {
    ReachableSettled(s);
    var u := DrainsLane(s);
    OneAction(u, StopReturns);
    var t := Apply(u, StopReturns);
    LeadsThrough(s, u, t);
    assert t.lane.stacks == [] && multiset(t.lane.stacks) == multiset{};
  }
}
