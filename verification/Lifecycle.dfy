/**
 The hot-reload registry as a concurrent system: one task holding the registry
 lock (startup or a reload), the lane worker, any number of deferred closers and
 the shutdown, interleaved at every point where the code awaits.
 See `MountedAgentRegistry`, `_LifecycleLane` and `_deferred_close_via_lane` in
 `docker/wayflow/agent_loader.py`.
 */
module Lifecycle {
  import opened Wrappers
  import opened ReloadSpec
  import opened Lane

  /** What the lock holder is doing about the op it dispatched. */
  datatype Wait =
    | Running
    | Queued(agent: Agent)
    | Answered(agent: Agent, ok: bool)

  datatype Loop = Adding | Changing | Removing

  /** The local state of one reload. `base` is the table it started from and
      `attempts` what became of every mount it tried. */
  datatype Pass = Pass(scan: Scan, order: seq<Name>, base: Table, loop: Loop, next: nat, attempts: Attempts)

  datatype Holder = Free | Starting | Reloading(pass: Pass)

  datatype Ask = Idle | Waiting | Told

  /** A deferred close task working through the agents of one reload. */
  datatype Closer = Closer(agents: seq<Agent>, pos: nat, ask: Ask)

  /** Where an agent object is in its life. History only: no step reads it. */
  datatype Life =
    | Built
    | Serving(name: Name)
    | Retiring(index: nat)
    | Closing(closer: nat, index: nat)
    | Orphaned
    | Gone

  datatype State = State(
    lane: LaneState,
    holder: Holder,
    wait: Wait,
    pending: seq<Agent>,
    active: Table,
    retired: seq<Agent>,
    routes: set<Agent>,
    closers: seq<Closer>,
    startupFailed: set<nat>,
    started: bool,
    stopped: bool,
    reloads: nat,
    nextId: nat,
    life: map<nat, Life>)

  datatype Action =
    | StartLane
    | AskStartup
    | Resume
    | FinishStart
    | BeginReload(scan: Scan, order: seq<Name>)
    | MountNext(mounts: bool)
    | NextLoop
    | RemoveNext(name: Name)
    | FinishReload
    | ServeLane(ok: bool)
    | CloserAsks(closer: nat)
    | CloserResumes(closer: nat)
    | Stop
    | StopReturns

  /** The state after the parent app is built: nothing entered, every initial
      mount already in the route table. */
  ghost predicate Init(s: State) {
    && s.lane == INITIAL && s.holder.Free? && s.wait.Running?
    && s.active == map[] && s.retired == [] && s.closers == [] && s.startupFailed == {}
    && !s.started && !s.stopped && s.reloads == 0
    && s.nextId == |s.pending|
    && (forall k :: 0 <= k < |s.pending| ==> s.pending[k].id == k)
    && (forall j, k :: 0 <= j < k < |s.pending| ==> s.pending[j].name != s.pending[k].name)
    && s.routes == (set k | 0 <= k < |s.pending| :: s.pending[k])
    && (forall x: nat :: x in s.life <==> x < s.nextId)
    && (forall x :: x in s.life ==> s.life[x].Built?)
  }

  /** The label the running loop looks at does need a mount. */
  predicate MustMount(active: Table, pass: Pass, name: Name)
    requires name in pass.scan.valid
  {
    match pass.loop
    case Adding => name !in active
    case Changing => name in active && active[name].fingerprint != pass.scan.valid[name]
    case Removing => false
  }

  ghost predicate Enabled(s: State, a: Action) {
    match a
    case StartLane => s.lane.phase.NotStarted? && s.holder.Free?
    case AskStartup => s.holder.Starting? && s.wait.Running? && s.pending != [] && CanDispatch(s.lane)
    case Resume => s.wait.Answered?
    case FinishStart => s.holder.Starting? && s.wait.Running? && s.pending == []
    case BeginReload(scan, order) =>
      && s.started && s.holder.Free?
      && (forall j, k :: 0 <= j < k < |order| ==> order[j] != order[k])
      && (forall name :: name in order <==> name in scan.valid)
    case MountNext(_) =>
      && s.holder.Reloading? && s.wait.Running? && !s.holder.pass.loop.Removing?
      && s.holder.pass.next < |s.holder.pass.order|
      && s.holder.pass.order[s.holder.pass.next] in s.holder.pass.scan.valid
    case NextLoop =>
      && s.holder.Reloading? && s.wait.Running? && !s.holder.pass.loop.Removing?
      && s.holder.pass.next == |s.holder.pass.order|
    case RemoveNext(name) =>
      && s.holder.Reloading? && s.wait.Running? && s.holder.pass.loop.Removing?
      && name in s.active && !Present(s.holder.pass.scan, name)
    case FinishReload =>
      && s.holder.Reloading? && s.wait.Running? && s.holder.pass.loop.Removing?
      && (forall name :: name in s.active ==> Present(s.holder.pass.scan, name))
    case ServeLane(_) => s.lane.phase.Up? && s.lane.queue != []
    case CloserAsks(i) => i < |s.closers| && s.closers[i].ask.Idle? && s.closers[i].pos < |s.closers[i].agents|
    case CloserResumes(i) => i < |s.closers| && s.closers[i].ask.Told?
    case Stop => s.started && !s.stopped && s.holder.Free? && s.lane.phase.Up?
    case StopReturns => s.lane.phase.Halted?
  }

  // ---------------------------------------------------------------- steps

  function FailAttempt(s: State, name: Name): State
    requires s.holder.Reloading?
  {
    var p := s.holder.pass;
    s.(wait := Running, holder := Reloading(p.(attempts := p.attempts[name := None], next := p.next + 1)))
  }

  /** The lock holder learns the result of its enter. */
  function AfterEnter(s: State): State
    requires s.wait.Answered?
  {
    var agent, ok := s.wait.agent, s.wait.ok;
    match s.holder
    case Free => s
    case Starting =>
      var rest := if s.pending == [] then [] else s.pending[1..];
      if ok then
        s.(wait := Running, pending := rest,
           active := s.active[agent.name := agent],
           life := s.life[agent.id := Serving(agent.name)])
      else
        s.(wait := Running, pending := rest,
           startupFailed := s.startupFailed + {agent.id},
           life := s.life[agent.id := Gone])
    case Reloading(p) =>
      if !ok then
        FailAttempt(s, agent.name).(life := s.life[agent.id := Gone])
      else
        var done := p.(attempts := p.attempts[agent.name := Some(agent)], next := p.next + 1);
        var t := s.(wait := Running, holder := Reloading(done), active := s.active[agent.name := agent]);
        if agent.name in s.active then
          var prior := s.active[agent.name];
          t.(retired := s.retired + [prior],
             life := s.life[prior.id := Retiring(|s.retired|)][agent.id := Serving(agent.name)])
        else
          t.(life := s.life[agent.id := Serving(agent.name)])
  }

  /** One turn of the added or the changed loop, up to its await. */
  function Mount(s: State, mounts: bool): State
    requires s.holder.Reloading? && s.holder.pass.next < |s.holder.pass.order|
    requires s.holder.pass.order[s.holder.pass.next] in s.holder.pass.scan.valid
  {
    var p := s.holder.pass;
    var name := p.order[p.next];
    if !MustMount(s.active, p, name) then
      s.(holder := Reloading(p.(next := p.next + 1)))
    else if !mounts then
      FailAttempt(s, name)
    else
      var agent := Agent(s.nextId, name, p.scan.valid[name]);
      if CanDispatch(s.lane) then
        s.(nextId := s.nextId + 1, life := s.life[agent.id := Built],
           lane := Put(s.lane, Enter(agent)), wait := Queued(agent))
      else
        FailAttempt(s, name).(nextId := s.nextId + 1, life := s.life[agent.id := Gone])
  }

  function Remove(s: State, name: Name): State
    requires name in s.active
  {
    var prior := s.active[name];
    s.(active := s.active - {name},
       retired := s.retired + [prior],
       life := s.life[prior.id := Retiring(|s.retired|)])
  }

  /** The route swap, then the deferred close is scheduled. */
  function Swap(s: State): State {
    var scheduled := |s.closers|;
    s.(holder := Free,
       routes := s.active.Values,
       retired := [],
       closers := if s.retired == [] then s.closers else s.closers + [Closer(s.retired, 0, Idle)],
       reloads := s.reloads + 1,
       life := map x | x in s.life :: if s.life[x].Retiring? then Closing(scheduled, s.life[x].index) else s.life[x])
  }

  function LaneTurn(s: State, ok: bool): State
    requires s.lane.phase.Up? && s.lane.queue != []
  {
    var t := s.(lane := Serve(s.lane, ok));
    match s.lane.queue[0]
    case Enter(agent) => t.(wait := Answered(agent, ok))
    case Exit(_, i) => if i < |s.closers| then t.(closers := s.closers[i := s.closers[i].(ask := Told)]) else t
    case Shutdown => t
  }

  function CloserTurn(s: State, i: nat): State
    requires i < |s.closers| && s.closers[i].pos < |s.closers[i].agents|
  {
    var c := s.closers[i];
    if CanDispatch(s.lane) then
      s.(lane := Put(s.lane, Exit(c.agents[c.pos], i)), closers := s.closers[i := c.(ask := Waiting)])
    else
      s.(closers := s.closers[i := c.(pos := c.pos + 1)])
  }

  function Apply(s: State, a: Action): State
    requires Enabled(s, a)
  {
    match a
    case StartLane => s.(lane := Start(s.lane), holder := Starting)
    case AskStartup => s.(lane := Put(s.lane, Enter(s.pending[0])), wait := Queued(s.pending[0]))
    case Resume => AfterEnter(s)
    case FinishStart => s.(holder := Free, started := true)
    case BeginReload(scan, order) => s.(holder := Reloading(Pass(scan, order, s.active, Adding, 0, map[])))
    case MountNext(mounts) => Mount(s, mounts)
    case NextLoop =>
      var p := s.holder.pass;
      s.(holder := Reloading(p.(loop := if p.loop.Adding? then Changing else Removing, next := 0)))
    case RemoveNext(name) => Remove(s, name)
    case FinishReload => Swap(s)
    case ServeLane(ok) => LaneTurn(s, ok)
    case CloserAsks(i) => CloserTurn(s, i)
    case CloserResumes(i) =>
      var c := s.closers[i];
      s.(closers := s.closers[i := c.(pos := c.pos + 1, ask := Idle)])
    case Stop =>
      s.(stopped := true, active := map[], lane := Put(s.lane, Shutdown),
         life := map x | x in s.life :: if s.life[x].Serving? then Orphaned else s.life[x])
    case StopReturns => s.(lane := s.lane.(phase := Down, queue := []))
  }

  /** Every state follows from the one before by an enabled action. */
  ghost predicate Path(states: seq<State>, actions: seq<Action>) {
    && |states| == |actions| + 1
    && forall k :: 0 <= k < |actions| ==>
      Enabled(states[k], actions[k]) && states[k + 1] == Apply(states[k], actions[k])
  }

  ghost predicate Run(states: seq<State>, actions: seq<Action>) {
    Path(states, actions) && Init(states[0])
  }
}
