/** Every step of the hot-reload system keeps the invariant. */
module LifecycleSteps {
  import opened Wrappers
  import opened ReloadSpec
  import opened Lane
  import opened Lifecycle
  import opened LifecycleInvariant
  import opened LifecycleParts

  lemma InitPlaces(s: State)
    requires Init(s)
    ensures Places(s) && Queues(s)
  {
  }

  lemma InitRest(s: State)
    requires Init(s)
    ensures Stacks(s) && RoutesLive(s) && Progress(s)
  {
  }

  lemma StartKeeps(s: State, a: Action)
    requires Inv(s) && Enabled(s, a) && (a.StartLane? || a.AskStartup?)
    ensures Inv(Apply(s, a))
  {
    if a.AskStartup? {
      QueueEnter(s.lane.queue, s.closers, s.pending[0]);
    }
  }

  lemma FinishStartKeeps(s: State)
    requires Inv(s) && Enabled(s, FinishStart)
    ensures Inv(Apply(s, FinishStart))
  {
  }

  lemma BeginReloadKeeps(s: State, scan: Scan, order: seq<Name>)
    requires Inv(s) && Enabled(s, BeginReload(scan, order))
    ensures Inv(Apply(s, BeginReload(scan, order)))
  {
    FreshPass(scan, order, s.active);
  }

  lemma NextLoopKeeps(s: State)
    requires Inv(s) && Enabled(s, NextLoop)
    ensures Inv(Apply(s, NextLoop))
  {
  }

  lemma RemoveNextPlaces(s: State, name: Name)
    requires Inv(s) && Enabled(s, RemoveNext(name))
    ensures Places(Remove(s, name)) && Stacks(Remove(s, name))
  {
    SetAside(s.active, s.retired, s.closers, s.life, name);
    TracksRetired(s.lane.stacks, s.life, s.wait, s.closers, s.stopped, s.active[name].id, |s.retired|);
  }

  lemma RemoveNextRest(s: State, name: Name)
    requires Inv(s) && Enabled(s, RemoveNext(name))
    ensures Queues(Remove(s, name)) && RoutesLive(Remove(s, name)) && Progress(Remove(s, name))
  {
    if !s.stopped {
      RoutesKeep(s.routes, s.life, s.pending, s.reloads == 0, s.startupFailed,
                 s.active[name].id, Retiring(|s.retired|));
    }
  }

  lemma SwapPlaces(s: State)
    requires Inv(s) && Enabled(s, FinishReload)
    ensures Places(Swap(s))
  {
    HandedOver(s.active, s.retired, s.closers, s.life);
  }

  lemma SwapStacks(s: State)
    requires Inv(s) && Enabled(s, FinishReload)
    ensures Stacks(Swap(s))
  {
    TracksHandedOver(s.lane.stacks, s.life, s.wait, s.retired, s.closers, s.stopped);
  }

  lemma SwapRest(s: State)
    requires Inv(s) && Enabled(s, FinishReload)
    ensures Queues(Swap(s)) && RoutesLive(Swap(s)) && Progress(Swap(s))
  {
  }

  lemma StopPlaces(s: State)
    requires Inv(s) && Enabled(s, Stop)
    ensures Places(Apply(s, Stop))
  {
  }

  lemma StopStacks(s: State)
    requires Inv(s) && Enabled(s, Stop)
    ensures Stacks(Apply(s, Stop))
  {
  }

  lemma StopRest(s: State)
    requires Inv(s) && Enabled(s, Stop)
    ensures Queues(Apply(s, Stop)) && RoutesLive(Apply(s, Stop)) && Progress(Apply(s, Stop))
  {
  }

  lemma StopReturnsKeeps(s: State)
    requires Inv(s) && Enabled(s, StopReturns)
    ensures Inv(Apply(s, StopReturns))
  {
  }

  lemma CloserAsksKeeps(s: State, i: nat)
    requires Inv(s) && Enabled(s, CloserAsks(i)) && CanDispatch(s.lane)
    ensures Inv(CloserTurn(s, i))
  {
    var c := s.closers[i];
    QueueExit(s.lane.queue, s.wait, s.closers, i);
    if s.stopped && s.lane.phase.Up? {
      BarredAfterPut(s.lane.queue, Exit(c.agents[c.pos], i));
    }
    CloserMoves(s.active, s.retired, s.closers, s.life, i, c.pos, Waiting);
    TracksCloser(s.lane.stacks, s.life, s.wait, s.closers, s.stopped, i, c.(ask := Waiting));
  }

  /** The queue is gone: the error is logged and the closer moves on. */
  lemma CloserRefusedKeeps(s: State, i: nat)
    requires Inv(s) && Enabled(s, CloserAsks(i)) && !CanDispatch(s.lane)
    ensures Inv(CloserTurn(s, i))
  {
    var c := s.closers[i];
    QueueIgnores(s.lane.queue, s.wait, s.closers, i, c.(pos := c.pos + 1));
    CloserMoves(s.active, s.retired, s.closers, s.life, i, c.pos + 1, Idle);
    TracksCloser(s.lane.stacks, s.life, s.wait, s.closers, s.stopped, i, c.(pos := c.pos + 1));
  }

  lemma CloserResumesPlaces(s: State, i: nat)
    requires Inv(s) && Enabled(s, CloserResumes(i))
    ensures Places(Apply(s, CloserResumes(i)))
  {
    CloserMoves(s.active, s.retired, s.closers, s.life, i, s.closers[i].pos + 1, Idle);
  }

  lemma CloserResumesStacks(s: State, i: nat)
    requires Inv(s) && Enabled(s, CloserResumes(i))
    ensures Stacks(Apply(s, CloserResumes(i)))
  {
    var c := s.closers[i];
    TracksCloser(s.lane.stacks, s.life, s.wait, s.closers, s.stopped, i, c.(pos := c.pos + 1, ask := Idle));
  }

  lemma CloserResumesQueues(s: State, i: nat)
    requires Inv(s) && Enabled(s, CloserResumes(i))
    ensures Queues(Apply(s, CloserResumes(i)))
  {
    var c := s.closers[i];
    QueueIgnores(s.lane.queue, s.wait, s.closers, i, c.(pos := c.pos + 1, ask := Idle));
  }

  lemma CloserResumesKeeps(s: State, i: nat)
    requires Inv(s) && Enabled(s, CloserResumes(i))
    ensures Inv(Apply(s, CloserResumes(i)))
  {
    CloserResumesPlaces(s, i);
    CloserResumesStacks(s, i);
    CloserResumesQueues(s, i);
  }

  /** A turn of the added or changed loop that does not reach an await. */
  lemma MountSkippedKeeps(s: State, mounts: bool)
    requires Inv(s) && Enabled(s, MountNext(mounts))
    requires var p := s.holder.pass; !MustMount(s.active, p, p.order[p.next]) || !mounts
    ensures Inv(Mount(s, mounts))
  {
    var p := s.holder.pass;
    if MustMount(s.active, p, p.order[p.next]) {
      FailTurn(p, s.active);
    } else {
      SkipTurn(p, s.active);
    }
  }

  lemma MountRefusedPlaces(s: State)
    requires Inv(s) && Enabled(s, MountNext(true)) && !CanDispatch(s.lane)
    requires var p := s.holder.pass; MustMount(s.active, p, p.order[p.next])
    ensures Places(Mount(s, true)) && Queues(Mount(s, true)) && Stacks(Mount(s, true))
  {
    Unlisted(s.active, s.retired, s.closers, s.life, s.nextId, Gone);
    TracksNewBuild(s.lane.stacks, s.life, s.closers, s.stopped, s.nextId, Gone, Running);
  }

  lemma MountRefusedKeeps(s: State)
    requires Inv(s) && Enabled(s, MountNext(true)) && !CanDispatch(s.lane)
    requires var p := s.holder.pass; MustMount(s.active, p, p.order[p.next])
    ensures Inv(Mount(s, true))
  {
    MountRefusedPlaces(s);
    FailTurn(s.holder.pass, s.active);
    if !s.stopped {
      RoutesIgnore(s.routes, s.life, s.reloads == 0, s.startupFailed, s.nextId, Gone);
    }
  }

  lemma MountQueuedPlaces(s: State)
    requires Inv(s) && Enabled(s, MountNext(true)) && CanDispatch(s.lane)
    requires var p := s.holder.pass; MustMount(s.active, p, p.order[p.next])
    ensures Places(Mount(s, true)) && Stacks(Mount(s, true))
  {
    var p := s.holder.pass;
    var agent := Agent(s.nextId, p.order[p.next], p.scan.valid[p.order[p.next]]);
    Unlisted(s.active, s.retired, s.closers, s.life, s.nextId, Built);
    TracksNewBuild(s.lane.stacks, s.life, s.closers, s.stopped, s.nextId, Built, Queued(agent));
  }

  lemma MountQueuedKeeps(s: State)
    requires Inv(s) && Enabled(s, MountNext(true)) && CanDispatch(s.lane)
    requires var p := s.holder.pass; MustMount(s.active, p, p.order[p.next])
    ensures Inv(Mount(s, true))
  {
    var p := s.holder.pass;
    var agent := Agent(s.nextId, p.order[p.next], p.scan.valid[p.order[p.next]]);
    MountQueuedPlaces(s);
    QueueEnter(s.lane.queue, s.closers, agent);
    if s.stopped && s.lane.phase.Up? {
      BarredAfterPut(s.lane.queue, Enter(agent));
    }
    if !s.stopped {
      RoutesIgnore(s.routes, s.life, s.reloads == 0, s.startupFailed, s.nextId, Built);
    }
  }

  lemma ServeEnterKeeps(s: State, ok: bool)
    requires Inv(s) && Enabled(s, ServeLane(ok)) && s.lane.queue[0].Enter?
    ensures Inv(LaneTurn(s, ok))
  {
    var agent := s.lane.queue[0].agent;
    TracksEnter(s.lane.stacks, s.life, s.closers, s.stopped, agent, ok);
    ServeKeepsBalance(s.lane, ok);
    ServedEnter(s.lane.queue, s.wait, s.closers, Answered(agent, ok));
  }

  lemma ServeExitKeeps(s: State, ok: bool)
    requires Inv(s) && Enabled(s, ServeLane(ok)) && s.lane.queue[0].Exit?
    ensures Inv(LaneTurn(s, ok))
  {
    var i := s.lane.queue[0].closer;
    TracksExit(s.lane.stacks, s.life, s.wait, s.closers, s.stopped, i);
    CloserMoves(s.active, s.retired, s.closers, s.life, i, s.closers[i].pos, Told);
    ServeKeepsBalance(s.lane, ok);
    ServedExit(s.lane.queue, s.wait, s.closers);
    if s.stopped {
      BarredAfterExit(s.lane.queue);
    }
  }

  lemma ServeShutdownKeeps(s: State, ok: bool)
    requires Inv(s) && Enabled(s, ServeLane(ok)) && s.lane.queue[0].Shutdown?
    ensures Inv(LaneTurn(s, ok))
  {
    ServeKeepsBalance(s.lane, ok);
  }

  // ------------------------------------------------ the holder is answered

  lemma ResumeStartupPlaces(s: State)
    requires Inv(s) && Enabled(s, Resume) && s.holder.Starting?
    ensures Places(AfterEnter(s))
  {
    if s.wait.ok {
      PendingAdvances(s.pending, s.active, s.life, Serving(s.wait.agent.name));
      Promoted(s.active, s.retired, s.closers, s.life, s.wait.agent);
    } else {
      PendingAdvances(s.pending, s.active, s.life, Gone);
      Unlisted(s.active, s.retired, s.closers, s.life, s.wait.agent.id, Gone);
    }
  }

  lemma ResumeStartupStacks(s: State)
    requires Inv(s) && Enabled(s, Resume) && s.holder.Starting?
    ensures Stacks(AfterEnter(s))
  {
    TracksSettled(s.lane.stacks, s.life, s.wait, s.closers, s.stopped);
  }

  lemma ResumeStartupRest(s: State)
    requires Inv(s) && Enabled(s, Resume) && s.holder.Starting?
    ensures Queues(AfterEnter(s)) && RoutesLive(AfterEnter(s)) && Progress(AfterEnter(s))
  {
    var agent := s.wait.agent;
    RoutesStartup(s.routes, s.life, s.pending, s.startupFailed, if s.wait.ok then Serving(agent.name) else Gone);
  }

  lemma ResumeFailedPlaces(s: State)
    requires Inv(s) && Enabled(s, Resume) && s.holder.Reloading? && !s.wait.ok
    ensures Places(AfterEnter(s)) && Stacks(AfterEnter(s))
  {
    TracksSettled(s.lane.stacks, s.life, s.wait, s.closers, s.stopped);
    Unlisted(s.active, s.retired, s.closers, s.life, s.wait.agent.id, Gone);
  }

  lemma ResumeFailedRoutes(s: State)
    requires Inv(s) && Enabled(s, Resume) && s.holder.Reloading? && !s.wait.ok
    ensures Queues(AfterEnter(s)) && RoutesLive(AfterEnter(s))
  {
    if !s.stopped {
      RoutesIgnore(s.routes, s.life, s.reloads == 0, s.startupFailed, s.wait.agent.id, Gone);
    }
  }

  lemma ResumeFailedProgress(s: State)
    requires Progress(s) && Enabled(s, Resume) && s.holder.Reloading? && !s.wait.ok
    ensures Progress(AfterEnter(s))
  {
    FailTurn(s.holder.pass, s.active);
  }

  // A new label: the entered agent simply joins the table.

  lemma ResumeAddedPlaces(s: State)
    requires Inv(s) && Enabled(s, Resume) && s.holder.Reloading? && s.wait.ok && s.wait.agent.name !in s.active
    ensures Places(AfterEnter(s))
  {
    Promoted(s.active, s.retired, s.closers, s.life, s.wait.agent);
  }

  lemma ResumeAddedStacks(s: State)
    requires Inv(s) && Enabled(s, Resume) && s.holder.Reloading? && s.wait.ok && s.wait.agent.name !in s.active
    ensures Stacks(AfterEnter(s))
  {
    TracksSettled(s.lane.stacks, s.life, s.wait, s.closers, s.stopped);
  }

  /** Entered, whether the label is new or changed: the queue and the progress. */
  lemma ResumeEnteredQueues(s: State)
    requires Queues(s) && Enabled(s, Resume) && s.holder.Reloading? && s.wait.ok
    ensures Queues(AfterEnter(s))
  {
  }

  lemma ResumeEnteredProgress(s: State)
    requires Progress(s) && Enabled(s, Resume) && s.holder.Reloading? && s.wait.ok
    ensures Progress(AfterEnter(s))
  {
    var p, agent, t := s.holder.pass, s.wait.agent, AfterEnter(s);
    MountTurn(p, s.active, agent);
    assert t.wait.Running? && t.active == s.active[agent.name := agent];
    assert t.holder.pass == p.(attempts := p.attempts[agent.name := Some(agent)], next := p.next + 1);
  }

  lemma ResumeAddedRoutes(s: State)
    requires Inv(s) && Enabled(s, Resume) && s.holder.Reloading? && s.wait.ok && s.wait.agent.name !in s.active
    ensures RoutesLive(AfterEnter(s))
  {
    var agent := s.wait.agent;
    if !s.stopped {
      RoutesKeep(s.routes, s.life, s.pending, s.reloads == 0, s.startupFailed, agent.id, Serving(agent.name));
    }
  }

  // A changed label: first the previous agent is set aside, then the new one
  // takes its place.

  lemma ResumeChangedPlaces(s: State)
    requires Inv(s) && Enabled(s, Resume) && s.holder.Reloading? && s.wait.ok && s.wait.agent.name in s.active
    ensures Places(AfterEnter(s))
  {
    Replaced(s.active, s.retired, s.closers, s.life, s.wait.agent);
  }

  lemma ResumeChangedStacks(s: State)
    requires Inv(s) && Enabled(s, Resume) && s.holder.Reloading? && s.wait.ok && s.wait.agent.name in s.active
    ensures Stacks(AfterEnter(s))
  {
    var prior := s.active[s.wait.agent.name];
    TracksRetired(s.lane.stacks, s.life, s.wait, s.closers, s.stopped, prior.id, |s.retired|);
    TracksSettled(s.lane.stacks, s.life[prior.id := Retiring(|s.retired|)], s.wait, s.closers, s.stopped);
  }

  lemma ResumeChangedRoutes(s: State)
    requires Inv(s) && Enabled(s, Resume) && s.holder.Reloading? && s.wait.ok && s.wait.agent.name in s.active
    ensures RoutesLive(AfterEnter(s))
  {
    var agent, prior := s.wait.agent, s.active[s.wait.agent.name];
    var aside := s.life[prior.id := Retiring(|s.retired|)];
    if !s.stopped {
      RoutesKeep(s.routes, s.life, s.pending, s.reloads == 0, s.startupFailed, prior.id, Retiring(|s.retired|));
      RoutesKeep(s.routes, aside, s.pending, s.reloads == 0, s.startupFailed, agent.id, Serving(agent.name));
    }
  }

  // ------------------------------------------------------------- all of them

  lemma ResumeKeeps(s: State)
    requires Inv(s) && Enabled(s, Resume)
    ensures Inv(AfterEnter(s))
  {
    if s.holder.Starting? {
      ResumeStartupPlaces(s);
      ResumeStartupStacks(s);
      ResumeStartupRest(s);
    } else if !s.wait.ok {
      ResumeFailedPlaces(s);
      ResumeFailedRoutes(s);
      ResumeFailedProgress(s);
    } else if s.wait.agent.name !in s.active {
      ResumeAddedPlaces(s);
      ResumeAddedStacks(s);
      ResumeAddedRoutes(s);
      ResumeEnteredQueues(s);
      ResumeEnteredProgress(s);
    } else {
      ResumeChangedPlaces(s);
      ResumeChangedStacks(s);
      ResumeChangedRoutes(s);
      ResumeEnteredQueues(s);
      ResumeEnteredProgress(s);
    }
  }

  lemma MountNextKeeps(s: State, mounts: bool)
    requires Inv(s) && Enabled(s, MountNext(mounts))
    ensures Inv(Mount(s, mounts))
  {
    var p := s.holder.pass;
    if !MustMount(s.active, p, p.order[p.next]) || !mounts {
      MountSkippedKeeps(s, mounts);
    } else if CanDispatch(s.lane) {
      MountQueuedKeeps(s);
    } else {
      MountRefusedKeeps(s);
    }
  }

  lemma LaneKeeps(s: State, ok: bool)
    requires Inv(s) && Enabled(s, ServeLane(ok))
    ensures Inv(LaneTurn(s, ok))
  {
    match s.lane.queue[0]
    case Enter(_) => ServeEnterKeeps(s, ok);
    case Exit(_, _) => ServeExitKeeps(s, ok);
    case Shutdown => ServeShutdownKeeps(s, ok);
  }

  lemma CloserKeeps(s: State, i: nat)
    requires Inv(s) && Enabled(s, CloserAsks(i))
    ensures Inv(CloserTurn(s, i))
  {
    if CanDispatch(s.lane) {
      CloserAsksKeeps(s, i);
    } else {
      CloserRefusedKeeps(s, i);
    }
  }

  lemma RemoveNextKeeps(s: State, name: Name)
    requires Inv(s) && Enabled(s, RemoveNext(name))
    ensures Inv(Remove(s, name))
  {
    RemoveNextPlaces(s, name);
    RemoveNextRest(s, name);
  }

  lemma FinishReloadKeeps(s: State)
    requires Inv(s) && Enabled(s, FinishReload)
    ensures Inv(Swap(s))
  {
    SwapPlaces(s);
    SwapStacks(s);
    SwapRest(s);
  }

  lemma StopKeeps(s: State)
    requires Inv(s) && Enabled(s, Stop)
    ensures Inv(Apply(s, Stop))
  {
    StopPlaces(s);
    StopStacks(s);
    StopRest(s);
  }

  lemma ReloadStepKeeps(s: State, a: Action)
    requires Inv(s) && Enabled(s, a)
    requires a.BeginReload? || a.MountNext? || a.NextLoop? || a.RemoveNext? || a.FinishReload?
    ensures Inv(Apply(s, a))
  {
    match a
    case BeginReload(scan, order) => BeginReloadKeeps(s, scan, order);
    case MountNext(mounts) => MountNextKeeps(s, mounts);
    case NextLoop => NextLoopKeeps(s);
    case RemoveNext(name) => RemoveNextKeeps(s, name);
    case FinishReload => FinishReloadKeeps(s);
  }

  lemma StepKeeps(s: State, a: Action)
    requires Inv(s) && Enabled(s, a)
    ensures Inv(Apply(s, a))
  {
    match a
    case StartLane => StartKeeps(s, a);
    case AskStartup => StartKeeps(s, a);
    case Resume => ResumeKeeps(s);
    case FinishStart => FinishStartKeeps(s);
    case ServeLane(ok) => LaneKeeps(s, ok);
    case CloserAsks(i) => CloserKeeps(s, i);
    case CloserResumes(i) => CloserResumesKeeps(s, i);
    case Stop => StopKeeps(s);
    case StopReturns => StopReturnsKeeps(s);
    case _ => ReloadStepKeeps(s, a);
  }

  lemma {:induction false} RunInv(states: seq<State>, actions: seq<Action>, n: nat)
    requires Run(states, actions) && n < |states|
    ensures Inv(states[n])
  {
    if n == 0 {
      InitPlaces(states[0]);
      InitRest(states[0]);
    } else {
      RunInv(states, actions, n - 1);
      StepKeeps(states[n - 1], actions[n - 1]);
    }
  }
}
