/**
 Which of the ops that callers wait for the lane still answers, and which it
 never will.
 */
module LifecycleAnswers {
  import opened Wrappers
  import opened ReloadSpec
  import opened Lane
  import opened Lifecycle
  import opened LifecycleInvariant
  import opened LifecycleSteps
  import opened LifecycleTheorems

  // ---------------------------------------------------- no op is lost on the way

  ghost predicate EnterAwaited(queue: seq<Op>, wait: Wait) {
    wait.Queued? ==> Enter(wait.agent) in queue
  }

  ghost predicate ExitAwaited(queue: seq<Op>, closers: seq<Closer>) {
    forall i: nat :: i < |closers| && closers[i].ask.Waiting? ==>
      closers[i].pos < |closers[i].agents| && Exit(closers[i].agents[closers[i].pos], i) in queue
  }

  /** While there is a queue, whoever waits has an op in it. */
  ghost predicate Awaited(s: State) {
    s.lane.phase.Up? || s.lane.phase.Halted? ==>
      EnterAwaited(s.lane.queue, s.wait) && ExitAwaited(s.lane.queue, s.closers)
  }

  lemma PutAwaited(queue: seq<Op>, op: Op, closers: seq<Closer>)
    requires ExitAwaited(queue, closers)
    ensures ExitAwaited(queue + [op], closers)
  {
  }

  lemma HeadStays(queue: seq<Op>, op: Op)
    requires queue != [] && op in queue && op != queue[0]
    ensures op in queue[1..]
  {
  }

  lemma StartAwaited(s: State)
    requires Enabled(s, StartLane) && Stages(s) && WaitBuilt(s.wait, s.holder, s.pending, s.life)
    ensures Awaited(Apply(s, StartLane))
  {
    assert s.closers == [] && s.wait.Running?;
  }

  lemma AskAwaited(s: State)
    requires Enabled(s, AskStartup) && Awaited(s)
    ensures Awaited(Apply(s, AskStartup))
  {
    PutAwaited(s.lane.queue, Enter(s.pending[0]), s.closers);
  }

  lemma ResumeAwaited(s: State)
    requires Inv(s) && Enabled(s, Resume) && Awaited(s)
    ensures Awaited(Apply(s, Resume))
  {
    var t := AfterEnter(s);
    assert t.lane == s.lane && t.closers == s.closers && (t.wait == s.wait || t.wait.Running?);
  }

  lemma MountAwaited(s: State, mounts: bool)
    requires Inv(s) && Enabled(s, MountNext(mounts)) && Awaited(s)
    ensures Awaited(Apply(s, MountNext(mounts)))
  {
    var t := Mount(s, mounts);
    assert t.closers == s.closers;
    if t.wait.Queued? {
      PutAwaited(s.lane.queue, Enter(t.wait.agent), s.closers);
    }
  }

  lemma ServeEnterAwaited(s: State, ok: bool)
    requires Inv(s) && Enabled(s, ServeLane(ok)) && Awaited(s) && s.lane.queue[0].Enter?
    ensures Awaited(LaneTurn(s, ok))
  {
    forall i: nat | i < |s.closers| && s.closers[i].ask.Waiting?
      ensures Exit(s.closers[i].agents[s.closers[i].pos], i) in s.lane.queue[1..]
    {
      HeadStays(s.lane.queue, Exit(s.closers[i].agents[s.closers[i].pos], i));
    }
  }

  /** The closer whose exit is served waits no more; the others still do. */
  lemma ToldAwaited(queue: seq<Op>, closers: seq<Closer>, i: nat)
    requires ExitAwaited(queue, closers) && queue != [] && queue[0].Exit? && queue[0].closer == i && i < |closers|
    ensures ExitAwaited(queue[1..], closers[i := closers[i].(ask := Told)])
  {
    forall j: nat | j < |closers| && j != i && closers[j].ask.Waiting?
      ensures closers[j].pos < |closers[j].agents| && Exit(closers[j].agents[closers[j].pos], j) in queue[1..]
    {
      HeadStays(queue, Exit(closers[j].agents[closers[j].pos], j));
    }
  }

  lemma ServeExitAwaited(s: State, ok: bool)
    requires ExitMatches(s.lane.queue, s.closers) && Enabled(s, ServeLane(ok)) && Awaited(s) && s.lane.queue[0].Exit?
    ensures Awaited(LaneTurn(s, ok))
  {
    ToldAwaited(s.lane.queue, s.closers, s.lane.queue[0].closer);
    if s.wait.Queued? {
      HeadStays(s.lane.queue, Enter(s.wait.agent));
    }
  }

  lemma ServeShutdownAwaited(s: State, ok: bool)
    requires Inv(s) && Enabled(s, ServeLane(ok)) && Awaited(s) && s.lane.queue[0].Shutdown?
    ensures Awaited(LaneTurn(s, ok))
  {
    if s.lane.stacks == [] {
      if s.wait.Queued? {
        HeadStays(s.lane.queue, Enter(s.wait.agent));
      }
      forall i: nat | i < |s.closers| && s.closers[i].ask.Waiting?
        ensures Exit(s.closers[i].agents[s.closers[i].pos], i) in s.lane.queue[1..]
      {
        HeadStays(s.lane.queue, Exit(s.closers[i].agents[s.closers[i].pos], i));
      }
    }
  }

  lemma CloserAwaited(s: State, i: nat)
    requires Inv(s) && Enabled(s, CloserAsks(i)) && Awaited(s)
    ensures Awaited(CloserTurn(s, i))
  {
    var t := CloserTurn(s, i);
    if CanDispatch(s.lane) {
      var op := Exit(s.closers[i].agents[s.closers[i].pos], i);
      assert op in s.lane.queue + [op];
    }
  }

  lemma LaneUntouchedAwaited(s: State, a: Action)
    requires Enabled(s, a) && Awaited(s) && (a.FinishStart? || a.BeginReload? || a.NextLoop? || a.StopReturns?)
    ensures Awaited(Apply(s, a))
  {
  }

  lemma RemoveAwaited(s: State, name: Name)
    requires Enabled(s, RemoveNext(name)) && Awaited(s)
    ensures Awaited(Remove(s, name))
  {
  }

  lemma SwapAwaited(s: State)
    requires Awaited(s)
    ensures Awaited(Swap(s))
  {
    var t := Swap(s);
    assert forall i: nat :: i < |t.closers| && t.closers[i].ask.Waiting? ==>
        i < |s.closers| && t.closers[i] == s.closers[i];
  }

  lemma CloserResumesAwaited(s: State, i: nat)
    requires Enabled(s, CloserResumes(i)) && Awaited(s)
    ensures Awaited(Apply(s, CloserResumes(i)))
  {
    var t := Apply(s, CloserResumes(i));
    assert t.lane == s.lane && t.wait == s.wait;
    assert forall j: nat :: j < |t.closers| && t.closers[j].ask.Waiting? ==> t.closers[j] == s.closers[j];
  }

  lemma ServeAwaited(s: State, ok: bool)
    requires Inv(s) && Enabled(s, ServeLane(ok)) && Awaited(s)
    ensures Awaited(LaneTurn(s, ok))
  {
    match s.lane.queue[0]
    case Enter(_) => ServeEnterAwaited(s, ok);
    case Exit(_, _) => ServeExitAwaited(s, ok);
    case Shutdown => ServeShutdownAwaited(s, ok);
  }

  /** Every step keeps: a reload or startup that waits for an enter, and a closer
      that waits for an exit, has that op in the queue as long as there is one. */
  lemma StepKeepsAwaited(s: State, a: Action)
    requires Inv(s) && Enabled(s, a) && Awaited(s)
    ensures Awaited(Apply(s, a))
  {
    match a
    case Resume => ResumeAwaited(s);
    case MountNext(mounts) => MountAwaited(s, mounts);
    case RemoveNext(name) => RemoveAwaited(s, name);
    case FinishReload => SwapAwaited(s);
    case ServeLane(ok) => ServeAwaited(s, ok);
    case CloserAsks(i) => CloserAwaited(s, i);
    case CloserResumes(i) => CloserResumesAwaited(s, i);
    case Stop => PutAwaited(s.lane.queue, Shutdown, s.closers);
    case BeginReload(_, _) => LaneUntouchedAwaited(s, a);
    case NextLoop => LaneUntouchedAwaited(s, a);
    case StopReturns => LaneUntouchedAwaited(s, a);
    case AskStartup => AskAwaited(s);
    case StartLane => StartAwaited(s);
    case FinishStart => LaneUntouchedAwaited(s, a);
  }

  lemma InitAwaited(s: State)
    requires Init(s)
    ensures Awaited(s)
  {
  }

  ghost predicate Settled(s: State) {
    Inv(s) && Awaited(s)
  }

  lemma StepKeepsSettled(s: State, a: Action)
    requires Settled(s) && Enabled(s, a)
    ensures Settled(Apply(s, a))
  {
    StepKeeps(s, a);
    StepKeepsAwaited(s, a);
  }

  lemma InitSettled(s: State)
    requires Init(s)
    ensures Settled(s)
  {
    InitPlaces(s);
    InitRest(s);
    InitAwaited(s);
  }

  /** No op is lost. In every state of every run, whoever waits for the lane has
      an op in its queue, until the shutdown has taken the queue away. */
  lemma RunAwaited(states: seq<State>, actions: seq<Action>, n: nat)
    requires Run(states, actions) && n < |states|
    ensures Awaited(states[n])
  {
    InitSettled(states[0]);
    forall s, a | Enabled(s, a) && Settled(s)
      ensures Settled(Apply(s, a))
    {
      StepKeepsSettled(s, a);
    }
    PathInduction(Settled, states, actions, n);
  }

  // ------------------------------------------------------- what may follow

  /** Some interleaving leads from `s` to `t`. */
  ghost predicate Leads(s: State, t: State) {
    exists states, actions :: Path(states, actions) && states[0] == s && states[|actions|] == t
  }

  ghost predicate Reachable(s: State) {
    exists first :: Init(first) && Leads(first, s)
  }

  lemma LeadsNowhere(s: State)
    ensures Leads(s, s)
  {
    assert Path([s], []);
  }

  lemma LeadsOn(s: State, t: State, a: Action)
    requires Leads(s, t) && Enabled(t, a)
    ensures Leads(s, Apply(t, a))
  {
    var states, actions :| Path(states, actions) && states[0] == s && states[|actions|] == t;
    assert Path(states + [Apply(t, a)], actions + [a]);
  }

  lemma ReachesOn(s: State, a: Action)
    requires Reachable(s) && Enabled(s, a)
    ensures Reachable(Apply(s, a))
  {
    var first :| Init(first) && Leads(first, s);
    LeadsOn(first, s, a);
  }

  /** What every step keeps holds of everything that may follow. */
  lemma LeadsKeeps(good: State -> bool, s: State, t: State)
    requires Leads(s, t) && good(s)
    requires forall s, a :: Enabled(s, a) && good(s) ==> good(Apply(s, a))
    ensures good(t)
  {
    var states, actions :| Path(states, actions) && states[0] == s && states[|actions|] == t;
    PathInduction(good, states, actions, |actions|);
  }

  lemma ReachableSettled(s: State)
    requires Reachable(s)
    ensures Settled(s)
  {
    var first :| Init(first) && Leads(first, s);
    InitSettled(first);
    forall s, a | Enabled(s, a) && Settled(s)
      ensures Settled(Apply(s, a))
    {
      StepKeepsSettled(s, a);
    }
    LeadsKeeps(Settled, first, s);
  }

  /** Some place of the op in the queue has no shutdown before it. */
  ghost predicate BeforeShutdown(queue: seq<Op>, op: Op) {
    exists k :: 0 <= k < |queue| && queue[k] == op && Shutdown !in queue[..k]
  }

  /** Some interleaving answers the enter the lock holder waits for. */
  ghost predicate CanBeAnswered(s: State, agent: Agent) {
    exists t :: Leads(s, t) && t.wait.Answered? && t.wait.agent == agent
  }

  /** Some interleaving answers the exit closer `i` waits for. */
  ghost predicate CanBeTold(s: State, i: nat) {
    exists t :: Leads(s, t) && i < |t.closers| && t.closers[i].ask.Told?
  }

  /** The worker can serve everything before the shutdown, one op after another. */
  lemma {:induction false} ServeUpTo(s: State, k: nat) returns (t: State)
    requires s.lane.phase.Up? && k < |s.lane.queue| && Shutdown !in s.lane.queue[..k]
    ensures Leads(s, t) && t.lane.phase.Up? && t.lane.queue == s.lane.queue[k..] && |t.closers| == |s.closers|
  {
    if k == 0 {
      LeadsNowhere(s);
      t := s;
    } else {
      assert Shutdown !in s.lane.queue[..k - 1];
      assert s.lane.queue[..k][k - 1] == s.lane.queue[k - 1];
      var before := ServeUpTo(s, k - 1);
      LeadsOn(s, before, ServeLane(true));
      t := LaneTurn(before, true);
    }
  }

  lemma ServesEnter(s: State, agent: Agent)
    requires s.lane.phase.Up? && BeforeShutdown(s.lane.queue, Enter(agent))
    ensures CanBeAnswered(s, agent)
  {
    var k: nat :| k < |s.lane.queue| && s.lane.queue[k] == Enter(agent) && Shutdown !in s.lane.queue[..k];
    var t := ServeUpTo(s, k);
    LeadsOn(s, t, ServeLane(true));
    assert LaneTurn(t, true).wait == Answered(agent, true);
  }

  lemma ServesExit(s: State, agent: Agent, i: nat)
    requires s.lane.phase.Up? && BeforeShutdown(s.lane.queue, Exit(agent, i)) && i < |s.closers|
    ensures CanBeTold(s, i)
  {
    var k: nat :| k < |s.lane.queue| && s.lane.queue[k] == Exit(agent, i) && Shutdown !in s.lane.queue[..k];
    var t := ServeUpTo(s, k);
    LeadsOn(s, t, ServeLane(true));
    assert LaneTurn(t, true).closers[i].ask.Told?;
  }

  // ------------------------------------------------- the lock holder's enter

  ghost predicate StuckEnter(s: State, agent: Agent) {
    Inv(s) && s.stopped && s.wait == Queued(agent)
  }

  lemma StaysStuck(s: State, a: Action, agent: Agent)
    requires Enabled(s, a) && StuckEnter(s, agent)
    ensures StuckEnter(Apply(s, a), agent)
  {
    StepKeeps(s, a);
    LateEnterStays(s, a);
  }

  lemma StuckForGood(s: State, t: State, agent: Agent)
    requires StuckEnter(s, agent) && Leads(s, t)
    ensures t.wait == Queued(agent)
  {
    forall s, a | Enabled(s, a) && StuckEnter(s, agent)
      ensures StuckEnter(Apply(s, a), agent)
    {
      StaysStuck(s, a, agent);
    }
    LeadsKeeps(s => StuckEnter(s, agent), s, t);
  }

  lemma EnterIsBeforeShutdown(s: State)
    requires Settled(s) && s.wait.Queued?
    ensures s.stopped || (s.lane.phase.Up? && BeforeShutdown(s.lane.queue, Enter(s.wait.agent)))
  {
    if !s.stopped {
      assert Enter(s.wait.agent) in s.lane.queue;
      var k :| 0 <= k < |s.lane.queue| && s.lane.queue[k] == Enter(s.wait.agent);
      assert Shutdown !in s.lane.queue[..k];
    }
  }

  /** In every reachable state, the enter a startup or reload waits for can still
      be answered if and only if the worker runs and no shutdown stands before it. */
  lemma ReloadAnsweredExactly(s: State)
    requires Reachable(s) && s.wait.Queued?
    ensures CanBeAnswered(s, s.wait.agent) <==> s.lane.phase.Up? && BeforeShutdown(s.lane.queue, Enter(s.wait.agent))
  {
    ReachableSettled(s);
    var agent := s.wait.agent;
    if s.lane.phase.Up? && BeforeShutdown(s.lane.queue, Enter(agent)) {
      ServesEnter(s, agent);
    } else {
      EnterIsBeforeShutdown(s);
      forall t | Leads(s, t)
        ensures t.wait == Queued(agent)
      {
        StuckForGood(s, t, agent);
      }
    }
  }

  // ---------------------------------------------------- a closer's exit

  /** Every exit of closer `i` in the queue is behind a shutdown. */
  ghost predicate ExitsBehind(queue: seq<Op>, i: nat) {
    forall k :: 0 <= k < |queue| && queue[k].Exit? && queue[k].closer == i ==> Shutdown in queue[..k]
  }

  lemma BehindAfterPut(queue: seq<Op>, op: Op, i: nat)
    requires ExitsBehind(queue, i) && !(op.Exit? && op.closer == i)
    ensures ExitsBehind(queue + [op], i)
  {
    var more := queue + [op];
    forall k | 0 <= k < |more| && more[k].Exit? && more[k].closer == i
      ensures Shutdown in more[..k]
    {
      assert more[..k] == queue[..k];
    }
  }

  lemma BehindAfterServe(queue: seq<Op>, i: nat)
    requires ExitsBehind(queue, i) && queue != [] && !queue[0].Shutdown?
    ensures ExitsBehind(queue[1..], i) && !(queue[0].Exit? && queue[0].closer == i)
  {
    var rest := queue[1..];
    forall k | 0 <= k < |rest| && rest[k].Exit? && rest[k].closer == i
      ensures Shutdown in rest[..k]
    {
      assert Shutdown in queue[..k + 1];
      assert queue[..k + 1] == [queue[0]] + rest[..k];
    }
  }

  ghost predicate BarredLane(lane: LaneState, i: nat) {
    lane.phase.Halted? || lane.phase.Down? || (lane.phase.Up? && ExitsBehind(lane.queue, i))
  }

  ghost predicate StuckExit(s: State, i: nat) {
    i < |s.closers| && s.closers[i].ask.Waiting? && BarredLane(s.lane, i)
  }

  lemma MountStuck(s: State, mounts: bool, i: nat)
    requires Enabled(s, MountNext(mounts)) && StuckExit(s, i)
    ensures StuckExit(Mount(s, mounts), i)
  {
    var t := Mount(s, mounts);
    assert t.closers == s.closers;
    if t.wait.Queued? && s.lane.phase.Up? {
      BehindAfterPut(s.lane.queue, Enter(t.wait.agent), i);
    }
  }

  lemma ServeStuck(s: State, ok: bool, i: nat)
    requires Enabled(s, ServeLane(ok)) && StuckExit(s, i)
    ensures StuckExit(LaneTurn(s, ok), i)
  {
    if !s.lane.queue[0].Shutdown? {
      BehindAfterServe(s.lane.queue, i);
    }
  }

  lemma CloserStuck(s: State, j: nat, i: nat)
    requires Enabled(s, CloserAsks(j)) && StuckExit(s, i)
    ensures StuckExit(CloserTurn(s, j), i)
  {
    if s.lane.phase.Up? {
      BehindAfterPut(s.lane.queue, Exit(s.closers[j].agents[s.closers[j].pos], j), i);
    }
  }

  lemma PutStuck(s: State, a: Action, i: nat)
    requires Enabled(s, a) && StuckExit(s, i) && (a.StartLane? || a.AskStartup? || a.Stop?)
    ensures StuckExit(Apply(s, a), i)
  {
    if a.AskStartup? && s.lane.phase.Up? {
      BehindAfterPut(s.lane.queue, Enter(s.pending[0]), i);
    } else if a.Stop? {
      BehindAfterPut(s.lane.queue, Shutdown, i);
    }
  }

  lemma SwapStuck(s: State, i: nat)
    requires StuckExit(s, i)
    ensures StuckExit(Swap(s), i)
  {
  }

  lemma ExitStaysStuck(s: State, a: Action, i: nat)
    requires Enabled(s, a) && StuckExit(s, i)
    ensures StuckExit(Apply(s, a), i)
  {
    match a
    case Resume => assert AfterEnter(s).closers == s.closers && AfterEnter(s).lane == s.lane;
    case MountNext(mounts) => MountStuck(s, mounts, i);
    case ServeLane(ok) => ServeStuck(s, ok, i);
    case CloserAsks(j) => CloserStuck(s, j, i);
    case FinishReload => SwapStuck(s, i);
    case RemoveNext(name) => assert Remove(s, name).lane == s.lane;
    case StartLane => PutStuck(s, a, i);
    case AskStartup => PutStuck(s, a, i);
    case Stop => PutStuck(s, a, i);
    case _ =>
  }

  lemma ExitStuckForGood(s: State, t: State, i: nat)
    requires StuckExit(s, i) && Leads(s, t)
    ensures StuckExit(t, i)
  {
    forall s, a | Enabled(s, a) && StuckExit(s, i)
      ensures StuckExit(Apply(s, a), i)
    {
      ExitStaysStuck(s, a, i);
    }
    LeadsKeeps(s => StuckExit(s, i), s, t);
  }

  lemma BarredIfNotBefore(s: State, i: nat)
    requires Inv(s) && i < |s.closers| && s.closers[i].ask.Waiting? && s.closers[i].pos < |s.closers[i].agents|
    requires !(s.lane.phase.Up? && BeforeShutdown(s.lane.queue, Exit(s.closers[i].agents[s.closers[i].pos], i)))
    ensures StuckExit(s, i)
  {
  }

  /** In every reachable state, the exit a deferred closer waits for can still be
      answered if and only if the worker runs and no shutdown stands before it. */
  lemma CloserAnsweredExactly(s: State, i: nat)
    requires Reachable(s) && i < |s.closers| && s.closers[i].ask.Waiting?
    ensures s.closers[i].pos < |s.closers[i].agents|
    ensures var op := Exit(s.closers[i].agents[s.closers[i].pos], i);
            CanBeTold(s, i) <==> s.lane.phase.Up? && BeforeShutdown(s.lane.queue, op)
  {
    ReachableSettled(s);
    var agent := s.closers[i].agents[s.closers[i].pos];
    if s.lane.phase.Up? && BeforeShutdown(s.lane.queue, Exit(agent, i)) {
      ServesExit(s, agent, i);
    } else {
      BarredIfNotBefore(s, i);
      forall t | Leads(s, t)
        ensures StuckExit(t, i)
      {
        ExitStuckForGood(s, t, i);
      }
    }
  }

  /** Before `stop` nobody waits in vain. */
  lemma AnsweredBeforeStop(s: State)
    requires Reachable(s) && !s.stopped
    ensures s.wait.Queued? ==> CanBeAnswered(s, s.wait.agent)
    ensures forall i: nat :: i < |s.closers| && s.closers[i].ask.Waiting? ==> CanBeTold(s, i)
  {
    ReachableSettled(s);
    if s.wait.Queued? {
      EnterIsBeforeShutdown(s);
      ReloadAnsweredExactly(s);
    }
    forall i: nat | i < |s.closers| && s.closers[i].ask.Waiting?
      ensures CanBeTold(s, i)
    {
      ExitIsBeforeShutdown(s, i);
      CloserAnsweredExactly(s, i);
    }
  }

  lemma ExitIsBeforeShutdown(s: State, i: nat)
    requires Settled(s) && !s.stopped && i < |s.closers| && s.closers[i].ask.Waiting?
    ensures s.closers[i].pos < |s.closers[i].agents|
    ensures s.lane.phase.Up? && BeforeShutdown(s.lane.queue, Exit(s.closers[i].agents[s.closers[i].pos], i))
  {
    var op := Exit(s.closers[i].agents[s.closers[i].pos], i);
    assert op in s.lane.queue;
    var k :| 0 <= k < |s.lane.queue| && s.lane.queue[k] == op;
    assert Shutdown !in s.lane.queue[..k];
  }

  // ------------------------------------------------- when the answer comes

  /** How often the worker takes a turn. */
  function LaneTurns(actions: seq<Action>): nat {
    if actions == [] then 0 else (if actions[0].ServeLane? then 1 else 0) + LaneTurns(actions[1..])
  }

  /** The worker runs, and this op is at place `k` with no shutdown before it. */
  predicate InLine(lane: LaneState, op: Op, k: nat) {
    lane.phase.Up? && k < |lane.queue| && lane.queue[k] == op && Shutdown !in lane.queue[..k]
  }

  lemma PutKeepsPlace(lane: LaneState, more: Op, op: Op, k: nat)
    requires InLine(lane, op, k)
    ensures InLine(Put(lane, more), op, k)
  {
    assert (lane.queue + [more])[..k] == lane.queue[..k];
  }

  lemma TurnMovesUp(lane: LaneState, ok: bool, op: Op, k: nat)
    requires InLine(lane, op, k) && k > 0
    ensures InLine(Serve(lane, ok), op, k - 1)
  {
    assert lane.queue[0] in lane.queue[..k];
    assert lane.queue[1..][..k - 1] == lane.queue[..k][1..];
  }

  /** Nothing but a turn of the worker changes the place of an op. */
  lemma PlaceStays(s: State, a: Action, op: Op, k: nat)
    requires Enabled(s, a) && InLine(s.lane, op, k) && !a.ServeLane?
    ensures InLine(Apply(s, a).lane, op, k)
  {
    match a
    case AskStartup => PutKeepsPlace(s.lane, Enter(s.pending[0]), op, k);
    case MountNext(mounts) =>
      if Mount(s, mounts).lane != s.lane {
        PutKeepsPlace(s.lane, Enter(Mount(s, mounts).wait.agent), op, k);
      }
    case CloserAsks(i) => PutKeepsPlace(s.lane, Exit(s.closers[i].agents[s.closers[i].pos], i), op, k);
    case Stop => PutKeepsPlace(s.lane, Shutdown, op, k);
    case Resume => assert AfterEnter(s).lane == s.lane;
    case FinishReload => assert Swap(s).lane == s.lane;
    case RemoveNext(name) => assert Remove(s, name).lane == s.lane;
    case _ =>
  }

  lemma ClosersStay(s: State, a: Action)
    requires Enabled(s, a)
    ensures |s.closers| <= |Apply(s, a).closers|
  {
    match a
    case Resume => assert AfterEnter(s).closers == s.closers;
    case MountNext(mounts) => assert Mount(s, mounts).closers == s.closers;
    case FinishReload => assert |s.closers| <= |Swap(s).closers|;
    case ServeLane(ok) => assert |LaneTurn(s, ok).closers| == |s.closers|;
    case CloserAsks(i) => assert |CloserTurn(s, i).closers| == |s.closers|;
    case _ =>
  }

  lemma NextPlace(s: State, a: Action, op: Op, k: nat)
    requires Enabled(s, a) && InLine(s.lane, op, k) && !(a.ServeLane? && k == 0)
    ensures InLine(Apply(s, a).lane, op, if a.ServeLane? then k - 1 else k)
  {
    if a.ServeLane? {
      TurnMovesUp(s.lane, a.ok, op, k);
      assert LaneTurn(s, a.ok).lane == Serve(s.lane, a.ok);
    } else {
      PlaceStays(s, a, op, k);
    }
  }

  lemma PathTail(states: seq<State>, actions: seq<Action>)
    requires Path(states, actions) && actions != []
    ensures Enabled(states[0], actions[0]) && states[1] == Apply(states[0], actions[0])
    ensures Path(states[1..], actions[1..])
  {
  }

  lemma OneMoreAction(actions: seq<Action>, rest: nat)
    requires rest < |actions| - 1
    ensures LaneTurns(actions[..rest + 1]) == (if actions[0].ServeLane? then 1 else 0) + LaneTurns(actions[1..][..rest])
  {
    assert actions[..rest + 1][1..] == actions[1..][..rest];
  }

  /** However the rest interleaves, an op at place `k` with no shutdown before it is
      served in the worker's turn number `k + 1`. */
  lemma {:induction false} ServedInTurn(states: seq<State>, actions: seq<Action>, op: Op, k: nat) returns (n: nat)
    requires Path(states, actions) && InLine(states[0].lane, op, k) && LaneTurns(actions) > k
    ensures n < |actions| && actions[n].ServeLane? && LaneTurns(actions[..n]) == k
    ensures InLine(states[n].lane, op, 0) && |states[0].closers| <= |states[n].closers|
    decreases |actions|
  {
    var a := actions[0];
    if a.ServeLane? && k == 0 {
      n := 0;
    } else {
      PathTail(states, actions);
      ClosersStay(states[0], a);
      NextPlace(states[0], a, op, k);
      var rest := ServedInTurn(states[1..], actions[1..], op, if a.ServeLane? then k - 1 else k);
      OneMoreAction(actions, rest);
      n := rest + 1;
    }
  }

  lemma TurnAnswers(s: State, a: Action, t: State, op: Op)
    requires a.ServeLane? && InLine(s.lane, op, 0) && t == LaneTurn(s, a.ok)
    ensures op.Enter? ==> t.wait == Answered(op.agent, a.ok)
    ensures op.Exit? && op.closer < |s.closers| ==> op.closer < |t.closers| && t.closers[op.closer].ask.Told?
  {
  }

  lemma TurnOnPath(states: seq<State>, actions: seq<Action>, n: nat)
    requires Path(states, actions) && n < |actions| && actions[n].ServeLane?
    ensures states[n].lane.phase.Up? && states[n].lane.queue != []
    ensures states[n + 1] == LaneTurn(states[n], actions[n].ok)
  {
    assert Enabled(states[n], actions[n]);
  }

  ghost predicate AnsweredAt(states: seq<State>, actions: seq<Action>, agent: Agent, k: nat, n: nat) {
    && n < |actions| && n + 1 < |states| && actions[n].ServeLane? && LaneTurns(actions[..n]) == k
    && states[n + 1].wait == Answered(agent, actions[n].ok)
  }

  ghost predicate ToldAt(states: seq<State>, actions: seq<Action>, i: nat, k: nat, n: nat) {
    && n < |actions| && n + 1 < |states| && actions[n].ServeLane? && LaneTurns(actions[..n]) == k
    && i < |states[n + 1].closers| && states[n + 1].closers[i].ask.Told?
  }

  /** So an enter with no shutdown before it is answered in every path in which the
      worker takes that many turns, and in that turn. */
  lemma EnterAnsweredInTurn(states: seq<State>, actions: seq<Action>, agent: Agent, k: nat)
    requires Path(states, actions) && InLine(states[0].lane, Enter(agent), k) && LaneTurns(actions) > k
    ensures exists n: nat :: AnsweredAt(states, actions, agent, k, n)
  {
    var n := ServedInTurn(states, actions, Enter(agent), k);
    TurnOnPath(states, actions, n);
    TurnAnswers(states[n], actions[n], states[n + 1], Enter(agent));
    assert AnsweredAt(states, actions, agent, k, n);
  }

  /** And so is the exit of a deferred closer. */
  lemma ExitAnsweredInTurn(states: seq<State>, actions: seq<Action>, agent: Agent, i: nat, k: nat)
    requires Path(states, actions) && InLine(states[0].lane, Exit(agent, i), k) && LaneTurns(actions) > k
    requires i < |states[0].closers|
    ensures exists n: nat :: ToldAt(states, actions, i, k, n)
  {
    var n := ServedInTurn(states, actions, Exit(agent, i), k);
    TurnOnPath(states, actions, n);
    TurnAnswers(states[n], actions[n], states[n + 1], Exit(agent, i));
    assert ToldAt(states, actions, i, k, n);
  }

  // ------------------------------------------------- both are left waiting

  const LABEL: Name := [0x61]

  const NOTHING_MOUNTED := State(INITIAL, Free, Running, [], map[], [], {}, [], {}, false, false, 0, 0, map[])

  lemma InitReachable(s: State)
    requires Init(s)
    ensures Reachable(s)
  {
    LeadsNowhere(s);
  }

  /** No agent at all: started, then stopped, then in a reload that finds one. */
  function NoneServed(holder: Holder, queue: seq<Op>, stopped: bool): State {
    NOTHING_MOUNTED.(lane := LaneState(Up, queue, [], multiset{}, multiset{}), holder := holder, started := true,
      stopped := stopped)
  }

  lemma StartsEmpty()
    ensures Reachable(NoneServed(Free, [], false))
  {
    InitReachable(NOTHING_MOUNTED);
    ReachesOn(NOTHING_MOUNTED, StartLane);
    var s := Apply(NOTHING_MOUNTED, StartLane);
    ReachesOn(s, FinishStart);
    assert Apply(s, FinishStart) == NoneServed(Free, [], false);
  }

  function FindsOne(): Holder {
    Reloading(Pass(Scan(map[LABEL := "1"], {}), [LABEL], map[], Adding, 0, map[]))
  }

  lemma ReloadsAfterStop()
    ensures Reachable(NoneServed(FindsOne(), [Shutdown], true))
  {
    StartsEmpty();
    ReachesOn(NoneServed(Free, [], false), Stop);
    var s := NoneServed(Free, [Shutdown], true);
    assert Apply(NoneServed(Free, [], false), Stop) == s;
    ReachesOn(s, BeginReload(Scan(map[LABEL := "1"], {}), [LABEL]));
  }

  /** A reload that begins after `stop` and mounts a new label can be left with
      its enter behind the shutdown, where nothing ever answers it. */
  lemma ReloadAfterStopIsStuck()
    ensures exists s :: Reachable(s) && s.wait.Queued? && !CanBeAnswered(s, s.wait.agent)
  {
    ReloadsAfterStop();
    var s := NoneServed(FindsOne(), [Shutdown], true);
    ReachesOn(s, MountNext(true));
    s := Mount(s, true);
    assert s.lane.queue == [Shutdown, Enter(Agent(0, LABEL, "1"))];
    assert s.lane.queue[0] == Shutdown;
    ReloadAnsweredExactly(s);
  }

  const SERVED := Agent(0, LABEL, "1")

  /** One agent is mounted, entered and then removed by a reload of an empty
      disk: its lifespan is still open and a closer is scheduled for it. */
  function RemovedOne(queue: seq<Op>, ask: Ask, stopped: bool): State {
    State(LaneState(Up, queue, [0], multiset{0}, multiset{}), Free, Running, [], map[], [], {},
          [Closer([SERVED], 0, ask)], {}, true, stopped, 1, 1, map[0 := Closing(0, 0)])
  }

  /** The same agent while it is entered, served and set aside. */
  function HoldingOne(holder: Holder, wait: Wait, pending: seq<Agent>, active: Table, retired: seq<Agent>,
          started: bool, l: Life): State {
    State(LaneState(Up, [], [0], multiset{0}, multiset{}), holder, wait, pending, active, retired,
          {SERVED}, [], {}, started, false, 0, 1, map[0 := l])
  }

  lemma OneIsEntered()
    ensures Reachable(HoldingOne(Starting, Answered(SERVED, true), [SERVED], map[], [], false, Built))
  {
    var s := State(INITIAL, Free, Running, [SERVED], map[], [], {SERVED}, [], {}, false, false, 0, 1, map[0 := Built]);
    InitReachable(s);
    ReachesOn(s, StartLane);
    s := Apply(s, StartLane);
    ReachesOn(s, AskStartup);
    s := Apply(s, AskStartup);
    assert s.lane.queue == [Enter(SERVED)];
    ReachesOn(s, ServeLane(true));
    s := LaneTurn(s, true);
    assert s.lane.queue == [] && s.lane.stacks == [0];
  }

  lemma OneIsServing()
    ensures Reachable(HoldingOne(Free, Running, [], map[LABEL := SERVED], [], true, Serving(LABEL)))
  {
    OneIsEntered();
    var s := HoldingOne(Starting, Answered(SERVED, true), [SERVED], map[], [], false, Built);
    ReachesOn(s, Resume);
    s := AfterEnter(s);
    assert s == HoldingOne(Starting, Running, [], map[LABEL := SERVED], [], false, Serving(LABEL));
    ReachesOn(s, FinishStart);
  }

  function EmptyPass(loop: Loop): Holder {
    Reloading(Pass(Scan(map[], {}), [], map[LABEL := SERVED], loop, 0, map[]))
  }

  lemma OneFindsNothing()
    ensures Reachable(HoldingOne(EmptyPass(Removing), Running, [], map[LABEL := SERVED], [], true, Serving(LABEL)))
  {
    OneIsServing();
    var s := HoldingOne(Free, Running, [], map[LABEL := SERVED], [], true, Serving(LABEL));
    ReachesOn(s, BeginReload(Scan(map[], {}), []));
    s := HoldingOne(EmptyPass(Adding), Running, [], map[LABEL := SERVED], [], true, Serving(LABEL));
    ReachesOn(s, NextLoop);
    s := HoldingOne(EmptyPass(Changing), Running, [], map[LABEL := SERVED], [], true, Serving(LABEL));
    ReachesOn(s, NextLoop);
  }

  lemma OneIsRemoved()
    ensures Reachable(RemovedOne([], Idle, false))
  {
    OneFindsNothing();
    var s := HoldingOne(EmptyPass(Removing), Running, [], map[LABEL := SERVED], [], true, Serving(LABEL));
    ReachesOn(s, RemoveNext(LABEL));
    s := Remove(s, LABEL);
    assert s == HoldingOne(EmptyPass(Removing), Running, [], map[], [SERVED], true, Retiring(0));
    ReachesOn(s, FinishReload);
    assert Swap(s) == RemovedOne([], Idle, false);
  }

  /** A deferred closer that asks after `stop` can be left with its exit behind
      the shutdown, where nothing ever answers it. */
  lemma CloserAfterStopIsStuck()
    ensures exists s :: Reachable(s) && |s.closers| == 1 && s.closers[0].ask.Waiting? && !CanBeTold(s, 0)
  {
    OneIsRemoved();
    var s := RemovedOne([], Idle, false);
    ReachesOn(s, Stop);
    s := Apply(s, Stop);
    assert s.lane.queue == [Shutdown];
    ReachesOn(s, CloserAsks(0));
    s := Apply(s, CloserAsks(0));
    assert s.lane.queue == [Shutdown, Exit(SERVED, 0)];
    assert s.lane.queue[0] == Shutdown;
    CloserAnsweredExactly(s, 0);
  }
}
