/**
 What every step of the hot-reload system keeps, and the lemmas that it does.
 `LifecycleTheorems.dfy` states what follows for whole runs.

 Each invariant takes only the parts of the state it is about, so that a step
 which leaves those parts alone keeps it without further argument.
 */
module LifecycleInvariant {
  import opened Wrappers
  import opened ReloadSpec
  import opened Lane
  import opened Lifecycle

  type Lives = map<nat, Life>

  // ------------------------------------------------------------ invariants

  /** The index of the first agent of a closer the lane has not closed yet. */
  function Threshold(c: Closer): nat {
    if c.ask.Told? then c.pos + 1 else c.pos
  }

  predicate JustEntered(wait: Wait, x: nat) {
    wait.Answered? && wait.ok && wait.agent.id == x
  }

  /** The lifespan of agent `x` has been entered and nobody has closed it. */
  predicate Open(life: Lives, wait: Wait, closers: seq<Closer>, x: nat)
    requires x in life
  {
    match life[x]
    case Built => JustEntered(wait, x)
    case Serving(_) => true
    case Retiring(_) => true
    case Closing(i, k) => i < |closers| && Threshold(closers[i]) <= k
    case Orphaned => true
    case Gone => false
  }

  ghost predicate Ids(life: Lives, nextId: nat) {
    forall x: nat :: x in life <==> x < nextId
  }

  ghost predicate ActiveServes(active: Table, life: Lives) {
    && (forall n :: n in active ==>
          active[n].name == n && active[n].id in life && life[active[n].id] == Serving(n))
    && (forall x :: x in life && life[x].Serving? ==>
          life[x].name in active && active[life[x].name].id == x)
  }

  ghost predicate RetiredRetires(retired: seq<Agent>, life: Lives) {
    && (forall k :: 0 <= k < |retired| ==>
          retired[k].id in life && life[retired[k].id] == Retiring(k))
    && (forall x :: x in life && life[x].Retiring? ==>
          life[x].index < |retired| && retired[life[x].index].id == x)
  }

  ghost predicate CloserCloses(agents: seq<Agent>, i: nat, life: Lives) {
    forall k :: 0 <= k < |agents| ==> agents[k].id in life && life[agents[k].id] == Closing(i, k)
  }

  ghost predicate ClosersClose(closers: seq<Closer>, life: Lives) {
    && (forall i: nat :: i < |closers| ==> CloserCloses(closers[i].agents, i, life))
    && (forall x :: x in life && life[x].Closing? ==>
          && life[x].closer < |closers|
          && life[x].index < |closers[life[x].closer].agents|
          && closers[life[x].closer].agents[life[x].index].id == x)
  }

  ghost predicate ClosersInRange(closers: seq<Closer>) {
    forall i :: 0 <= i < |closers| ==>
      && closers[i].pos <= |closers[i].agents|
      && (!closers[i].ask.Idle? ==> closers[i].pos < |closers[i].agents|)
  }

  /** Agents still to be entered at startup. */
  ghost predicate PendingBuilt(pending: seq<Agent>, active: Table, life: Lives) {
    && (forall k :: 0 <= k < |pending| ==>
          pending[k].id in life && life[pending[k].id].Built? && pending[k].name !in active)
    && (forall j, k :: 0 <= j < k < |pending| ==>
          pending[j].id != pending[k].id && pending[j].name != pending[k].name)
  }

  ghost predicate WaitBuilt(wait: Wait, holder: Holder, pending: seq<Agent>, life: Lives) {
    !wait.Running? ==>
      && !holder.Free?
      && wait.agent.id in life && life[wait.agent.id].Built?
      && (holder.Starting? ==> pending != [] && wait.agent == pending[0])
  }

  predicate Stages(s: State) {
    && (s.pending != [] ==> !s.started && !s.holder.Reloading?)
    && (s.started ==> !s.holder.Starting?)
    && (s.stopped ==> s.started && s.active == map[])
    && (s.holder.Reloading? ==> s.started)
    && (!s.holder.Reloading? ==> s.retired == [])
    && (s.lane.phase.NotStarted? ==>
          s.lane.queue == [] && s.holder.Free? && !s.started && s.lane.stacks == [] && s.closers == [])
    && (s.lane.phase.Halted? || s.lane.phase.Down? ==> s.stopped && s.lane.stacks == [])
    && (s.lane.phase.Down? ==> s.lane.queue == [])
    && (s.stopped && s.lane.phase.Up? ==> Shutdown in s.lane.queue)
    && (!s.stopped ==> Shutdown !in s.lane.queue)
  }

  ghost predicate EnterMatches(queue: seq<Op>, wait: Wait) {
    forall k :: 0 <= k < |queue| && queue[k].Enter? ==> wait == Queued(queue[k].agent)
  }

  ghost predicate ExitMatches(queue: seq<Op>, closers: seq<Closer>) {
    forall k :: 0 <= k < |queue| && queue[k].Exit? ==>
      && queue[k].closer < |closers|
      && closers[queue[k].closer].ask.Waiting?
      && closers[queue[k].closer].pos < |closers[queue[k].closer].agents|
      && closers[queue[k].closer].agents[closers[queue[k].closer].pos] == queue[k].agent
  }

  predicate SameSender(a: Op, b: Op) {
    || (a.Enter? && b.Enter?)
    || (a.Shutdown? && b.Shutdown?)
    || (a.Exit? && b.Exit? && a.closer == b.closer)
  }

  ghost predicate QueueDistinct(queue: seq<Op>) {
    forall j, k :: 0 <= j < k < |queue| ==> !SameSender(queue[j], queue[k])
  }

  ghost predicate StacksOpen(stacks: seq<nat>, life: Lives, wait: Wait, closers: seq<Closer>) {
    forall x :: x in stacks ==> x in life && Open(life, wait, closers, x)
  }

  ghost predicate OpenInStacks(stacks: seq<nat>, life: Lives, wait: Wait, closers: seq<Closer>) {
    forall x :: x in life && Open(life, wait, closers, x) ==> x in stacks
  }

  /** Nothing is entered twice, and what was not entered yet has no record. */
  ghost predicate Ledger(entered: multiset<nat>, life: Lives, wait: Wait) {
    && (forall x :: entered[x] <= 1)
    && (forall x :: x in entered ==> x in life && (life[x].Built? ==> JustEntered(wait, x)))
  }

  predicate Routed(r: Agent, life: Lives, pending: seq<Agent>, beforeReload: bool, startupFailed: set<nat>) {
    r.id in life &&
    match life[r.id]
    case Serving(_) => true
    case Retiring(_) => true
    case Built => r in pending
    case Gone => beforeReload && r.id in startupFailed
    case _ => false
  }

  ghost predicate AllRouted(routes: set<Agent>, life: Lives, pending: seq<Agent>, beforeReload: bool,
          startupFailed: set<nat>) {
    forall r :: r in routes ==> Routed(r, life, pending, beforeReload, startupFailed)
  }

  /** The table the route list was or will be compared with: the live one, or
      the one the running reload started from. */
  function RoutedTable(s: State): Table {
    if s.holder.Reloading? then s.holder.pass.base else s.active
  }

  ghost predicate TableRouted(table: Table, pending: seq<Agent>, routes: set<Agent>) {
    && (forall n :: n in table ==> table[n] in routes)
    && (forall k :: 0 <= k < |pending| ==> pending[k] in routes)
  }

  ghost predicate RoutesLive(s: State) {
    !s.stopped ==>
      && AllRouted(s.routes, s.life, s.pending, s.reloads == 0, s.startupFailed)
      && TableRouted(RoutedTable(s), s.pending, s.routes)
      && (s.reloads > 0 ==> s.started && s.routes == RoutedTable(s).Values)
  }

  /** How many labels of the order a loop has dealt with. */
  function Done(p: Pass, loop: Loop): nat {
    if p.loop == loop then p.next
    else if loop.Adding? || p.loop.Removing? then |p.order|
    else 0
  }

  /** The entry of the live table for a label, in the middle of a reload. */
  function Midway(p: Pass, name: Name): Option<Agent> {
    if name in p.attempts && p.attempts[name].Some? then p.attempts[name] else Lookup(p.base, name)
  }

  ghost predicate TableMidway(p: Pass, active: Table) {
    forall n :: !p.loop.Removing? || Present(p.scan, n) ==> Lookup(active, n) == Midway(p, n)
  }

  ghost predicate Attempted(p: Pass) {
    && p.next <= |p.order|
    && (forall n :: n in p.order <==> n in p.scan.valid)
    && Honest(p.base, p.scan, p.attempts)
    && (forall k :: 0 <= k < Done(p, Adding) && p.order[k] !in p.base ==> p.order[k] in p.attempts)
    && (forall k :: 0 <= k < Done(p, Changing) && p.order[k] in p.base && NeedsMount(p.base, p.scan, p.order[k]) ==>
          p.order[k] in p.attempts)
  }

  predicate WaitsForNext(p: Pass, wait: Wait, active: Table) {
    !wait.Running? ==>
      && !p.loop.Removing? && p.next < |p.order|
      && wait.agent.name == p.order[p.next]
      && p.order[p.next] in p.scan.valid
      && wait.agent.fingerprint == p.scan.valid[p.order[p.next]]
      && MustMount(active, p, p.order[p.next])
  }

  ghost predicate Underway(p: Pass, active: Table) {
    Attempted(p) && TableMidway(p, active)
  }

  /** How far the running reload has come. */
  ghost predicate Progress(s: State) {
    s.holder.Reloading? ==>
      && Underway(s.holder.pass, s.active)
      && WaitsForNext(s.holder.pass, s.wait, s.active)
  }

  /** The table, the agents set aside and the closers agree with every life. */
  ghost predicate Lists(active: Table, retired: seq<Agent>, closers: seq<Closer>, life: Lives) {
    ActiveServes(active, life) && RetiredRetires(retired, life) && ClosersClose(closers, life)
  }

  /** Every enter in the queue is behind a shutdown. */
  ghost predicate EntersBehind(queue: seq<Op>) {
    forall k :: 0 <= k < |queue| && queue[k].Enter? ==> Shutdown in queue[..k]
  }

  /** After `stop` no enter can be served any more. */
  ghost predicate Barred(s: State) {
    s.stopped ==> !s.wait.Answered? && (s.lane.phase.Up? ==> EntersBehind(s.lane.queue))
  }

  /** Every queued op was sent by someone who waits for it, and by nobody else. */
  ghost predicate Matched(queue: seq<Op>, wait: Wait, closers: seq<Closer>) {
    EnterMatches(queue, wait) && ExitMatches(queue, closers) && QueueDistinct(queue)
  }

  /** The stacks are open; until the shutdown they are all that is open. */
  ghost predicate Tracks(stacks: seq<nat>, life: Lives, wait: Wait, closers: seq<Closer>, stopped: bool) {
    StacksOpen(stacks, life, wait, closers) && (!stopped ==> OpenInStacks(stacks, life, wait, closers))
  }

  ghost predicate Places(s: State) {
    && Ids(s.life, s.nextId)
    && Lists(s.active, s.retired, s.closers, s.life)
    && ClosersInRange(s.closers)
    && PendingBuilt(s.pending, s.active, s.life)
    && WaitBuilt(s.wait, s.holder, s.pending, s.life)
  }

  ghost predicate Queues(s: State) {
    Stages(s) && Barred(s) && Matched(s.lane.queue, s.wait, s.closers)
  }

  ghost predicate Stacks(s: State) {
    && Tracks(s.lane.stacks, s.life, s.wait, s.closers, s.stopped)
    && Balanced(s.lane)
    && Ledger(s.lane.entered, s.life, s.wait)
  }

  ghost predicate Inv(s: State) {
    Places(s) && Queues(s) && Stacks(s) && RoutesLive(s) && Progress(s)
  }
}
