/**
 The lifecycle lane of `docker/wayflow/agent_loader.py`: one task that opens
 and closes every child lifespan, fed by a first-in first-out queue.
 */
module Lane {
  import opened ReloadSpec

  datatype Op =
    | Enter(agent: Agent)
    | Exit(agent: Agent, closer: nat)
    | Shutdown

  /** `Halted`: the worker returned but the queue object is still there, so ops
      can still be queued. `Down`: the queue is gone and dispatching raises. */
  datatype Phase = NotStarted | Up | Halted | Down

  /** `stacks` holds the ids with an open lifespan, in insertion order. `entered`
      and `closed` record the whole history of lifespan entries and exits. */
  datatype LaneState = LaneState(
    phase: Phase,
    queue: seq<Op>,
    stacks: seq<nat>,
    entered: multiset<nat>,
    closed: multiset<nat>)

  const INITIAL := LaneState(NotStarted, [], [], multiset{}, multiset{})

  function Start(l: LaneState): LaneState {
    if l.phase.NotStarted? then l.(phase := Up, queue := []) else l
  }

  predicate CanDispatch(l: LaneState) {
    l.phase.Up? || l.phase.Halted?
  }

  function Put(l: LaneState, op: Op): LaneState {
    l.(queue := l.queue + [op])
  }

  function Without(stacks: seq<nat>, id: nat): (r: seq<nat>)
    ensures forall x :: x in r <==> x in stacks && x != id
    ensures id !in stacks ==> r == stacks
  {
    if stacks == [] then []
    else
      var rest := Without(stacks[1..], id);
      if stacks[0] == id then rest else [stacks[0]] + rest
  }

  function CloseLast(l: LaneState): LaneState
    requires l.stacks != []
  {
    var last := |l.stacks| - 1;
    l.(stacks := l.stacks[..last], closed := l.closed + multiset{l.stacks[last]})
  }

  /** One step of the worker on the op at the head of the queue; `ok` says
      whether the child lifespan entered. Shutdown closes one stack a step and
      returns once none is left. Entering an id that is already open would
      overwrite its stack and lose it, as the dictionary assignment does. */
  function Serve(l: LaneState, ok: bool): LaneState
    requires l.phase.Up? && l.queue != []
  {
    match l.queue[0]
    case Enter(agent) =>
      if ok then
        l.(queue := l.queue[1..],
           stacks := if agent.id in l.stacks then l.stacks else l.stacks + [agent.id],
           entered := l.entered + multiset{agent.id})
      else
        l.(queue := l.queue[1..])
    case Exit(agent, _) =>
      if agent.id in l.stacks then
        l.(queue := l.queue[1..], stacks := Without(l.stacks, agent.id), closed := l.closed + multiset{agent.id})
      else
        l.(queue := l.queue[1..])
    case Shutdown =>
      if l.stacks != [] then CloseLast(l)
      else l.(queue := l.queue[1..], phase := Halted)
  }

  /** The worker runs its shutdown branch to the end. */
  function Drain(l: LaneState): LaneState
    requires l.phase.Up? && l.queue != [] && l.queue[0].Shutdown?
    decreases |l.stacks|
  {
    if l.stacks == [] then Serve(l, true) else Drain(Serve(l, true))
  }

  function Reverse(s: seq<nat>): (r: seq<nat>)
    ensures |r| == |s| && forall i :: 0 <= i < |s| ==> r[i] == s[|s| - 1 - i]
  {
    if s == [] then [] else [s[|s| - 1]] + Reverse(s[..|s| - 1])
  }

  lemma Regroup(done: seq<nat>, last: nat, rest: seq<nat>)
    ensures done + ([last] + rest) == (done + [last]) + rest
  {
  }

  lemma ReverseTakesLast(s: seq<nat>, done: seq<nat>)
    requires s != []
    ensures done + Reverse(s) == (done + [s[|s| - 1]]) + Reverse(s[..|s| - 1])
  {
    Regroup(done, s[|s| - 1], Reverse(s[..|s| - 1]));
  }

  lemma DrainTakesLast(l: LaneState)
    requires l.phase.Up? && l.queue != [] && l.queue[0].Shutdown? && l.stacks != []
    ensures Drain(l) == Drain(CloseLast(l))
  {
  }

  ghost predicate Distinct(s: seq<nat>) {
    forall i, j :: 0 <= i < j < |s| ==> s[i] != s[j]
  }

  /** Nothing opened is lost: every open is still open or was closed. */
  ghost predicate Balanced(l: LaneState) {
    && Distinct(l.stacks)
    && l.entered == l.closed + multiset(l.stacks)
  }

  lemma {:induction false} WithoutIsDistinct(stacks: seq<nat>, id: nat)
    requires Distinct(stacks)
    ensures Distinct(Without(stacks, id))
  {
    if stacks != [] {
      var tail := stacks[1..];
      WithoutIsDistinct(tail, id);
      var rest := Without(tail, id);
      assert stacks[0] !in rest;
    }
  }

  lemma {:induction false} WithoutRemovesOne(stacks: seq<nat>, id: nat)
    requires Distinct(stacks) && id in stacks
    ensures multiset(stacks) == multiset(Without(stacks, id)) + multiset{id}
  {
    var tail := stacks[1..];
    assert stacks == [stacks[0]] + tail;
    if stacks[0] == id {
      assert id !in tail;
    } else {
      WithoutRemovesOne(tail, id);
    }
  }

  lemma ExitKeepsBalance(l: LaneState, id: nat)
    requires Balanced(l) && id in l.stacks
    ensures Distinct(Without(l.stacks, id))
    ensures l.entered == (l.closed + multiset{id}) + multiset(Without(l.stacks, id))
  {
    WithoutIsDistinct(l.stacks, id);
    WithoutRemovesOne(l.stacks, id);
  }

  lemma CloseLastKeepsBalance(l: LaneState)
    requires Balanced(l) && l.stacks != []
    ensures Balanced(CloseLast(l))
  {
    var last := |l.stacks| - 1;
    assert l.stacks == l.stacks[..last] + [l.stacks[last]];
  }

  lemma EnterKeepsBalance(l: LaneState, id: nat)
    requires Balanced(l) && id !in l.stacks
    ensures Balanced(l.(stacks := l.stacks + [id], entered := l.entered + multiset{id}))
  {
  }

  lemma ServeKeepsBalance(l: LaneState, ok: bool)
    requires l.phase.Up? && l.queue != [] && Balanced(l)
    requires l.queue[0].Enter? ==> l.queue[0].agent.id !in l.stacks
    ensures Balanced(Serve(l, ok))
  {
    match l.queue[0]
    case Enter(agent) => EnterKeepsBalance(l, agent.id);
    case Exit(agent, _) =>
      if agent.id in l.stacks {
        ExitKeepsBalance(l, agent.id);
      }
    case Shutdown =>
      if l.stacks != [] {
        CloseLastKeepsBalance(l);
      }
  }

  /** Shutdown closes exactly what was open and then the worker is gone; what
      was queued behind the shutdown is left unserved. */
  lemma {:induction false} DrainClosesEverything(l: LaneState)
    requires l.phase.Up? && l.queue != [] && l.queue[0].Shutdown? && Balanced(l)
    ensures var d := Drain(l);
            && d.phase.Halted? && d.stacks == []
            && d.entered == d.closed == l.entered
            && d.queue == l.queue[1..]
    decreases |l.stacks|
  {
    ServeKeepsBalance(l, true);
    if l.stacks != [] {
      DrainClosesEverything(Serve(l, true));
    }
  }

  /** The worker object. The two ghost fields only record history. */
  class LifecycleLane {
    var phase: Phase
    var queue: seq<Op>
    var stacks: seq<nat>
    ghost var entered: multiset<nat>
    ghost var closed: multiset<nat>

    ghost function View(): LaneState
      reads this
    {
      LaneState(phase, queue, stacks, entered, closed)
    }

    constructor ()
      ensures View() == INITIAL
    {
      phase, queue, stacks := NotStarted, [], [];
      entered, closed := multiset{}, multiset{};
    }

    method StartWorker()
      modifies this
      ensures View() == Start(old(View()))
    {
      if phase.NotStarted? {
        phase, queue := Up, [];
      }
    }

    /** Queues an op; false is the error raised when there is no queue. */
    method Dispatch(op: Op) returns (queued: bool)
      modifies this
      ensures queued == CanDispatch(old(View()))
      ensures View() == if queued then Put(old(View()), op) else old(View())
      ensures queued <==> old(phase) == Up || old(phase) == Halted
      ensures queue == if queued then old(queue) + [op] else old(queue)
    {
      queued := phase.Up? || phase.Halted?;
      if queued {
        queue := queue + [op];
      }
    }

    /** One turn of the worker loop on the op at the head of the queue. */
    method ServeNext(ok: bool)
      requires phase.Up? && queue != []
      modifies this
      ensures View() == if old(queue)[0].Shutdown? then Drain(old(View())) else Serve(old(View()), ok)
    {
      match queue[0]
      case Enter(agent) =>
        if ok {
          if agent.id !in stacks {
            stacks := stacks + [agent.id];
          }
          entered := entered + multiset{agent.id};
        }
        queue := queue[1..];
      case Exit(agent, _) =>
        if agent.id in stacks {
          stacks := Without(stacks, agent.id);
          closed := closed + multiset{agent.id};
        }
        queue := queue[1..];
      case Shutdown =>
        var _ := CloseRemaining();
    }

    /** The shutdown branch: close every remaining stack, last opened first. */
    method CloseRemaining() returns (order: seq<nat>)
      requires phase.Up? && queue != [] && queue[0].Shutdown?
      modifies this
      ensures View() == Drain(old(View()))
      ensures order == Reverse(old(stacks))
    {
      order := [];
      while stacks != []
        invariant phase.Up? && queue == old(queue)
        invariant Drain(View()) == Drain(old(View()))
        invariant order + Reverse(stacks) == Reverse(old(stacks))
        decreases |stacks|
      {
        var last := |stacks| - 1;
        ReverseTakesLast(stacks, order);
        DrainTakesLast(View());
        ghost var before := View();
        order := order + [stacks[last]];
        closed := closed + multiset{stacks[last]};
        stacks := stacks[..last];
        assert View() == CloseLast(before);
      }
      phase, queue := Halted, queue[1..];
    }

    /** Runs once the shutdown future resolves. */
    method Dispose()
      requires phase.Halted?
      modifies this
      ensures View() == old(View()).(phase := Down, queue := [])
    {
      phase, queue := Down, [];
    }
  }
}
