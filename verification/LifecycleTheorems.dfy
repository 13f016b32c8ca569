/** What holds in every state of every run of the hot-reload system. */
module LifecycleTheorems {
  import opened Wrappers
  import opened ReloadSpec
  import opened Lane
  import opened Lifecycle
  import opened LifecycleInvariant
  import opened LifecycleSteps

  function StackSet(s: State): set<nat> {
    set x | x in s.lane.stacks
  }

  function ActiveIds(s: State): set<nat> {
    set n | n in s.active :: s.active[n].id
  }

  /** Replaced and removed agents whose lifespan nobody has closed yet: those the
      running reload set aside, and those left in the deferred closers. */
  function AwaitingClose(s: State): set<nat> {
    (set k | 0 <= k < |s.retired| :: s.retired[k].id) +
    (set i, k | 0 <= i < |s.closers| && Threshold(s.closers[i]) <= k < |s.closers[i].agents| ::
      s.closers[i].agents[k].id)
  }

  /** The agent whose enter succeeded and whose caller has not resumed. */
  function Entering(s: State): set<nat> {
    if s.wait.Answered? && s.wait.ok then {s.wait.agent.id} else {}
  }

  lemma AwaitingAreOpen(s: State, x: nat)
    requires Inv(s) && x in AwaitingClose(s)
    ensures x in s.life && (s.life[x].Retiring? || s.life[x].Closing?) && Open(s.life, s.wait, s.closers, x)
  {
    if i, k :| 0 <= i < |s.closers| && Threshold(s.closers[i]) <= k < |s.closers[i].agents| &&
               s.closers[i].agents[k].id == x {
      assert CloserCloses(s.closers[i].agents, i, s.life);
    }
  }

  lemma OpenHasAPlace(s: State, x: nat)
    requires Inv(s) && x in s.life && Open(s.life, s.wait, s.closers, x) && !s.life[x].Orphaned?
    ensures x in ActiveIds(s) + AwaitingClose(s) + Entering(s)
  {
    match s.life[x]
    case Serving(n) => assert s.active[n].id == x;
    case Retiring(k) => assert s.retired[k].id == x;
    case Closing(i, k) => assert s.closers[i].agents[k].id == x;
    case _ =>
  }

  /** Lifespan conservation. In every state before the shutdown the open stacks
      are, without overlap, the active agents, the agents awaiting close and at
      most one agent that was just entered; and each has one stack. */
  lemma LifespansAreConserved(states: seq<State>, actions: seq<Action>, n: nat)
    requires Run(states, actions) && n < |states| && !states[n].stopped
    ensures var s := states[n];
            && Distinct(s.lane.stacks)
            && StackSet(s) == ActiveIds(s) + AwaitingClose(s) + Entering(s)
            && ActiveIds(s) !! AwaitingClose(s) !! Entering(s)
            && |Entering(s)| <= 1
  {
    RunInv(states, actions, n);
    NoneOrphanedBeforeStop(states, actions, n);
    var s := states[n];
    forall x | x in ActiveIds(s)
      ensures x in s.life && s.life[x].Serving?
    {
    }
    forall x | x in AwaitingClose(s)
      ensures x in s.life && (s.life[x].Retiring? || s.life[x].Closing?) && x in s.lane.stacks
    {
      AwaitingAreOpen(s, x);
    }
    forall x | x in s.lane.stacks
      ensures x in ActiveIds(s) + AwaitingClose(s) + Entering(s)
    {
      OpenHasAPlace(s, x);
    }
  }

  ghost predicate NoneOrphaned(life: Lives) {
    forall x :: x in life ==> !life[x].Orphaned?
  }

  lemma ResumeOrphansNone(s: State)
    requires s.wait.Answered? && NoneOrphaned(s.life)
    ensures NoneOrphaned(AfterEnter(s).life)
  {
  }

  lemma SwapOrphansNone(s: State)
    requires NoneOrphaned(s.life)
    ensures NoneOrphaned(Swap(s).life)
  {
  }

  lemma OnlyStopOrphans(s: State, a: Action)
    requires Enabled(s, a) && NoneOrphaned(s.life) && !a.Stop?
    ensures NoneOrphaned(Apply(s, a).life)
  {
    match a
    case Resume => ResumeOrphansNone(s);
    case FinishReload => SwapOrphansNone(s);
    case ServeLane(ok) => assert LaneTurn(s, ok).life == s.life;
    case CloserAsks(i) => assert CloserTurn(s, i).life == s.life;
    case _ =>
  }

  lemma StoppedStays(s: State, a: Action)
    requires Enabled(s, a) && (s.stopped || a.Stop?)
    ensures Apply(s, a).stopped
  {
    match a
    case Resume => assert AfterEnter(s).stopped == s.stopped;
    case MountNext(mounts) => assert Mount(s, mounts).stopped == s.stopped;
    case ServeLane(ok) => assert LaneTurn(s, ok).stopped == s.stopped;
    case CloserAsks(i) => assert CloserTurn(s, i).stopped == s.stopped;
    case _ =>
  }

  predicate Unorphaned(s: State) {
    s.stopped || forall x :: x in s.life ==> !s.life[x].Orphaned?
  }

  lemma StaysUnorphaned(s: State, a: Action)
    requires Enabled(s, a) && Unorphaned(s)
    ensures Unorphaned(Apply(s, a))
  {
    if s.stopped || a.Stop? {
      StoppedStays(s, a);
    } else {
      OnlyStopOrphans(s, a);
    }
  }

  /** Induction over a path, for any property of states. */
  lemma {:induction false} PathInduction(good: State -> bool, states: seq<State>, actions: seq<Action>, n: nat)
    requires Path(states, actions) && n < |states| && good(states[0])
    requires forall s, a :: Enabled(s, a) && good(s) ==> good(Apply(s, a))
    ensures good(states[n])
  {
    if n > 0 {
      PathInduction(good, states, actions, n - 1);
    }
  }

  lemma NoneOrphanedBeforeStop(states: seq<State>, actions: seq<Action>, n: nat)
    requires Run(states, actions) && n < |states| && !states[n].stopped
    ensures NoneOrphaned(states[n].life)
  {
    forall s, a | Enabled(s, a) && Unorphaned(s)
      ensures Unorphaned(Apply(s, a))
    {
      StaysUnorphaned(s, a);
    }
    PathInduction(Unorphaned, states, actions, n);
  }

  /** Nothing is entered twice, nothing is closed twice, nothing is closed
      without having been entered; and once the shutdown returned, what was
      entered is exactly what was closed. */
  lemma EnteredOnceClosedOnce(states: seq<State>, actions: seq<Action>, n: nat)
    requires Run(states, actions) && n < |states|
    ensures var l := states[n].lane;
            && (forall x :: l.entered[x] <= 1)
            && l.entered == l.closed + multiset(l.stacks)
            && (l.phase.Halted? || l.phase.Down? ==> l.stacks == [] && l.closed == l.entered)
  {
    RunInv(states, actions, n);
  }

  /** No dead routes. From startup to `stop`, every mounted route leads to an
      agent whose lifespan is open, except startup failures before any reload. */
  lemma NoDeadRoutes(states: seq<State>, actions: seq<Action>, n: nat, route: Agent)
    requires Run(states, actions) && n < |states|
    requires states[n].started && !states[n].stopped && route in states[n].routes
    ensures route.id in states[n].lane.stacks || (states[n].reloads == 0 && route.id in states[n].startupFailed)
  {
    RunInv(states, actions, n);
    var s := states[n];
    assert Routed(route, s.life, s.pending, s.reloads == 0, s.startupFailed);
    if !s.life[route.id].Gone? {
      assert Open(s.life, s.wait, s.closers, route.id);
    }
  }

  /** Every live agent is reachable, and from the first reload on the route
      table holds the live agents and nothing else. While a later reload is
      running, it still shows the table that reload started from. */
  lemma RoutesAreTheTable(states: seq<State>, actions: seq<Action>, n: nat)
    requires Run(states, actions) && n < |states| && !states[n].stopped
    ensures var s := states[n];
            && RoutedTable(s).Values <= s.routes
            && (s.reloads > 0 ==> s.routes == RoutedTable(s).Values)
  {
    RunInv(states, actions, n);
  }

  /** A reload is atomic. However its loops interleave with the lane, with
      deferred closers and with the shutdown, the table it leaves is the pure
      per-label outcome of the table it found, and the routes follow. */
  lemma ReloadIsAtomic(states: seq<State>, actions: seq<Action>, n: nat)
    requires Run(states, actions) && n < |actions| && actions[n].FinishReload?
    ensures var p, after := states[n].holder.pass, states[n + 1];
            && Honest(p.base, p.scan, p.attempts) && Complete(p.base, p.scan, p.attempts)
            && after.active == Reloaded(p.base, p.scan, p.attempts)
            && after.routes == after.active.Values
            && after.reloads == states[n].reloads + 1
  {
    RunInv(states, actions, n);
    var s := states[n];
    var p := s.holder.pass;
    assert Complete(p.base, p.scan, p.attempts);
    var result := Reloaded(p.base, p.scan, p.attempts);
    forall name
      ensures Lookup(s.active, name) == Lookup(result, name)
    {
      assert name in result
          <==> name in p.base.Keys + p.scan.valid.Keys && Outcome(p.base, p.scan, p.attempts, name).Some?;
      if Present(p.scan, name) {
        assert Lookup(s.active, name) == Midway(p, name);
      }
    }
    SameLookups(s.active, result);
  }

  lemma SameLookups(a: Table, b: Table)
    requires forall name :: Lookup(a, name) == Lookup(b, name)
    ensures a == b
  {
    forall name
      ensures name in a <==> name in b
      ensures name in a ==> a[name] == b[name]
    {
      assert Lookup(a, name) == Lookup(b, name);
    }
  }

  ghost predicate SamePass(h: Holder, k: Holder) {
    h.Reloading? && k.Reloading? && k.pass.base == h.pass.base && k.pass.scan == h.pass.scan
  }

  lemma ResumePass(s: State)
    requires s.wait.Answered? && s.holder.Reloading?
    ensures SamePass(s.holder, AfterEnter(s).holder)
  {
  }

  lemma MountPass(s: State, mounts: bool)
    requires Enabled(s, MountNext(mounts))
    ensures SamePass(s.holder, Mount(s, mounts).holder)
  {
  }

  lemma PassStays(s: State, a: Action)
    requires Enabled(s, a) && s.holder.Reloading? && !a.FinishReload?
    ensures SamePass(s.holder, Apply(s, a).holder)
  {
    match a
    case Resume => ResumePass(s);
    case MountNext(mounts) => MountPass(s, mounts);
    case ServeLane(ok) => assert LaneTurn(s, ok).holder == s.holder;
    case CloserAsks(i) => assert CloserTurn(s, i).holder == s.holder;
    case _ =>
  }

  /** The table the reload started from is the one it found when it took the
      lock, and nobody else touches the table meanwhile. */
  lemma {:induction false} ReloadStartsFromTheTable(states: seq<State>, actions: seq<Action>, first: nat, n: nat)
    requires Run(states, actions) && first < n < |states| && actions[first].BeginReload?
    requires forall k :: first < k < n ==> !actions[k].FinishReload?
    ensures states[n].holder.Reloading?
    ensures states[n].holder.pass.base == states[first].active
    ensures states[n].holder.pass.scan == actions[first].scan
  {
    if n > first + 1 {
      ReloadStartsFromTheTable(states, actions, first, n - 1);
      PassStays(states[n - 1], actions[n - 1]);
    }
  }

  lemma LateEnterStays(s: State, a: Action)
    requires Enabled(s, a) && s.stopped && s.wait.Queued? && !s.holder.Free? && Barred(s)
    ensures var t := Apply(s, a); t.stopped && t.wait == s.wait && t.holder == s.holder
  {
  }

  /** An enter dispatched after `stop` is never answered: its reload waits, and
      holds the registry lock, in every later state. */
  lemma {:induction false} LateReloadWaitsForever(states: seq<State>, actions: seq<Action>, n: nat, m: nat)
    requires Run(states, actions) && n <= m < |states|
    requires states[n].stopped && states[n].wait.Queued?
    ensures states[m].stopped && states[m].wait == states[n].wait && states[m].holder == states[n].holder
  {
    if n < m {
      LateReloadWaitsForever(states, actions, n, m - 1);
      RunInv(states, actions, m - 1);
      LateEnterStays(states[m - 1], actions[m - 1]);
    }
  }

  lemma LateExitStays(s: State, a: Action, i: nat)
    requires Enabled(s, a) && (s.lane.phase.Halted? || s.lane.phase.Down?)
    requires i < |s.closers| && s.closers[i].ask.Waiting?
    ensures var t := Apply(s, a);
            (t.lane.phase.Halted? || t.lane.phase.Down?) && i < |t.closers| && t.closers[i] == s.closers[i]
  {
    match a
    case Resume => assert AfterEnter(s).closers == s.closers && AfterEnter(s).lane == s.lane;
    case MountNext(mounts) => assert Mount(s, mounts).closers == s.closers;
    case _ =>
  }

  /** Every exit still queued when the shutdown runs keeps its closer waiting. */
  lemma {:induction false} LateCloserWaitsForever(states: seq<State>, actions: seq<Action>, n: nat, m: nat, i: nat)
    requires Run(states, actions) && n <= m < |states|
    requires states[n].lane.phase.Halted? || states[n].lane.phase.Down?
    requires i < |states[n].closers| && states[n].closers[i].ask.Waiting?
    ensures states[m].lane.phase.Halted? || states[m].lane.phase.Down?
    ensures i < |states[m].closers| && states[m].closers[i] == states[n].closers[i]
  {
    if n < m {
      LateCloserWaitsForever(states, actions, n, m - 1, i);
      LateExitStays(states[m - 1], actions[m - 1], i);
    }
  }
}
