/**
 `MountedAgentRegistry` as an object: the loops of a reload, run without
 interference, over a volume the host may rewrite at any moment.
 `Lifecycle.dfy` interleaves the same loops with everything else that runs.
 */
module Registry {
  import opened Wrappers
  import opened ReloadSpec
  import opened Lane
  import opened Lifecycle
  import opened LifecycleInvariant
  import opened LifecycleParts
  import opened Discovery
  import opened StartupReload
  import opened WalkRules

  datatype Kind = AddFailed | ChangeFailed | ParseFailed | ParseFailedNew | Hinted(hint: Hint)
  datatype Failure = Failure(name: Name, kind: Kind)

  /** The local variables of a running reload, with the live table. `pass`
      remembers what was tried and `source` what each mount was built from. */
  datatype Work = Work(
    pass: Pass,
    table: Table,
    added: seq<Name>,
    changed: seq<Name>,
    removed: seq<Name>,
    failed: seq<Failure>,
    toClose: seq<Agent>,
    source: map<Name, Source>)

  /** The directory whose OAS was read for a mount, and the bytes read. */
  datatype Source = Source(dir: nat, bytes: Bytes)

  type Mounted = Option<(Agent, Source)>

  function AgentOf(m: Mounted): Option<Agent> {
    if m.Some? then Some(m.value.0) else None
  }

  // ------------------------------------------------- dictionaries of a walk

  /** The labels of a walk in dictionary order: first occurrence, once each. */
  function Order(found: seq<Found>): (order: seq<Name>)
    ensures forall n :: n in order <==> n in Fingerprints(found)
    ensures forall i, j :: 0 <= i < j < |order| ==> order[i] != order[j]
  {
    if found == [] then []
    else
      var before := Order(found[..|found| - 1]);
      var n := found[|found| - 1].name;
      if n in before then before else before + [n]
  }

  /** The last entry of the walk for a label. */
  function LastFound(found: seq<Found>, n: Name): (f: Found)
    requires n in Fingerprints(found)
    ensures f in found && f.name == n && f.fingerprint == Fingerprints(found)[n]
  {
    var k := |found| - 1;
    assert found == found[..k] + [found[k]];
    if found[k].name == n then found[k] else LastFound(found[..k], n)
  }

  // ------------------------------------------------------ turns of the loops

  /** One turn of the added loop (label not live) or of the changed loop (live
      with another fingerprint); `m` is what mounting gave. */
  function MountTurnOf(w: Work, m: Mounted): Work
    requires Turn(w.pass)
  {
    var p := w.pass;
    var n := p.order[p.next];
    if !MustMount(w.table, p, n) then
      w.(pass := p.(next := p.next + 1))
    else
      var q := p.(next := p.next + 1, attempts := p.attempts[n := AgentOf(m)]);
      match m
      case None =>
        w.(pass := q, failed := w.failed + [Failure(n, if p.loop.Adding? then AddFailed else ChangeFailed)])
      case Some((agent, source)) =>
        var t := w.(pass := q, table := w.table[n := agent], source := w.source[n := source]);
        if n in w.table then
          t.(toClose := w.toClose + [w.table[n]], changed := w.changed + [n])
        else
          t.(added := w.added + [n])
  }

  predicate Turns(p: Pass, n: nat) {
    && !p.loop.Removing? && p.next + n <= |p.order|
    && forall k :: 0 <= k < |p.order| ==> p.order[k] in p.scan.valid
  }

  /** The first so many turns of a loop. */
  function MountTurns(w: Work, results: seq<Mounted>): (v: Work)
    requires Turns(w.pass, |results|)
    ensures v.pass == w.pass.(next := w.pass.next + |results|, attempts := v.pass.attempts)
  {
    if results == [] then w
    else
      var n := |results| - 1;
      MountTurnOf(MountTurns(w, results[..n]), results[n])
  }

  /** A label of the table that is absent from the walk is taken out. */
  function RemoveTurn(w: Work, n: Name): Work
    requires n in w.table
  {
    w.(table := w.table - {n}, toClose := w.toClose + [w.table[n]], removed := w.removed + [n])
  }

  /** All labels of `gone`, in turn. */
  function RemoveTurns(w: Work, gone: seq<Name>): (v: Work)
    requires forall n :: n in gone ==> n in w.table
    requires NoRepeats(gone)
    ensures v.table == w.table - (set n | n in gone)
    ensures v.removed == w.removed + gone && |v.toClose| == |w.toClose| + |gone|
    ensures v.toClose == w.toClose + seq(|gone|, k requires 0 <= k < |gone| => w.table[gone[k]])
    ensures v == w.(table := v.table, removed := v.removed, toClose := v.toClose)
  {
    if gone == [] then w
    else
      var k := |gone| - 1;
      RemoveTurn(RemoveTurns(w, gone[..k]), gone[k])
  }

  ghost predicate NoRepeats(s: seq<Name>) {
    forall i, j :: 0 <= i < j < |s| ==> s[i] != s[j]
  }

  /** The list names each of these labels once. */
  ghost predicate Enumerates(s: seq<Name>, items: set<Name>) {
    NoRepeats(s) && forall x :: x in s <==> x in items
  }

  lemma EnumeratesMore(s: seq<Name>, items: set<Name>, x: Name)
    requires Enumerates(s, items) && x !in items
    ensures Enumerates(s + [x], items + {x})
  {
  }

  // ------------------------------------------- what the turns add up to

  /** A mount result for a label is what was asked for, built from bytes with
      that hash. */
  ghost predicate Fits(env: Env, scan: Scan, n: Name, m: Mounted) {
    n in scan.valid &&
    (m.Some? ==>
      && m.value.0.name == n && m.value.0.fingerprint == scan.valid[n]
      && env.hash(m.value.1.bytes) == m.value.0.fingerprint)
  }

  ghost predicate Tried(attempts: Attempts, base: Table, failed: seq<Failure>) {
    && (forall n :: Failure(n, AddFailed) in failed <==> n in attempts && attempts[n].None? && n !in base)
    && (forall n :: Failure(n, ChangeFailed) in failed <==> n in attempts && attempts[n].None? && n in base)
    && (forall f :: f in failed ==> f.kind == AddFailed || f.kind == ChangeFailed)
  }

  ghost predicate Sourced(env: Env, attempts: Attempts, source: map<Name, Source>) {
    forall n :: n in attempts && attempts[n].Some? ==>
      n in source && env.hash(source[n].bytes) == attempts[n].value.fingerprint
  }

  ghost predicate Replaced(changed: seq<Name>, base: Table, toClose: seq<Agent>) {
    |toClose| == |changed| && forall k :: 0 <= k < |changed| ==> changed[k] in base && toClose[k] == base[changed[k]]
  }

  /** Labels whose turn is still to come have not been tried by this loop. */
  ghost predicate Untried(p: Pass) {
    forall k :: p.next <= k < |p.order| && (p.loop.Adding? || p.order[k] in p.base) ==> p.order[k] !in p.attempts
  }

  /** The report lists say exactly what the attempts were. */
  ghost predicate Reports(env: Env, w: Work, attempts: Attempts) {
    var p := w.pass;
    && Enumerates(w.added, AddedLabels(p.base, p.scan, attempts))
    && Enumerates(w.changed, ChangedLabels(p.base, p.scan, attempts))
    && Tried(attempts, p.base, w.failed)
    && Sourced(env, attempts, w.source)
    && Replaced(w.changed, p.base, w.toClose)
  }

  ghost predicate OnTable(w: Work) {
    Underway(w.pass, w.table) && Untried(w.pass) && NoRepeats(w.pass.order)
  }

  ghost predicate SoFar(env: Env, w: Work) {
    OnTable(w) && Reports(env, w, w.pass.attempts)
  }

  predicate NeedsTurn(w: Work) {
    Turn(w.pass) && MustMount(w.table, w.pass, w.pass.order[w.pass.next])
  }

  /** The label of a turn that mounts was not tried before, and the table still
      has for it what the reload found. */
  lemma NewlyTried(w: Work)
    requires OnTable(w) && NeedsTurn(w)
    ensures var n := w.pass.order[w.pass.next];
            && n !in w.pass.attempts
            && Lookup(w.table, n) == Lookup(w.pass.base, n)
            && (n in w.pass.base <==> w.pass.loop.Changing?)
  {
    assert Lookup(w.table, w.pass.order[w.pass.next]) == Midway(w.pass, w.pass.order[w.pass.next]);
  }

  lemma TurnUntried(w: Work, m: Mounted)
    requires Turn(w.pass) && Untried(w.pass) && NoRepeats(w.pass.order)
    ensures Untried(MountTurnOf(w, m).pass)
  {
  }

  lemma MountUnderway(w: Work, agent: Agent, source: Source)
    requires Underway(w.pass, w.table) && NeedsTurn(w)
    requires var n := w.pass.order[w.pass.next];
             agent.name == n && agent.fingerprint == w.pass.scan.valid[n]
    ensures var v := MountTurnOf(w, Some((agent, source))); Underway(v.pass, v.table)
  {
    MountTurn(w.pass, w.table, agent);
  }

  lemma FailUnderway(w: Work)
    requires Underway(w.pass, w.table) && NeedsTurn(w)
    ensures var v := MountTurnOf(w, None); Underway(v.pass, v.table)
  {
    FailTurn(w.pass, w.table);
  }

  lemma SkipUnderway(w: Work, m: Mounted)
    requires Underway(w.pass, w.table) && Turn(w.pass) && !NeedsTurn(w)
    ensures var v := MountTurnOf(w, m); Underway(v.pass, v.table)
  {
    SkipTurn(w.pass, w.table);
  }

  lemma TurnUnderway(env: Env, w: Work, m: Mounted)
    requires Underway(w.pass, w.table) && Turn(w.pass) && Fits(env, w.pass.scan, w.pass.order[w.pass.next], m)
    ensures Underway(MountTurnOf(w, m).pass, MountTurnOf(w, m).table)
  {
    if !NeedsTurn(w) {
      SkipUnderway(w, m);
    } else if m.Some? {
      MountUnderway(w, m.value.0, m.value.1);
    } else {
      FailUnderway(w);
    }
  }

  lemma ReportFailure(env: Env, w: Work, attempts: Attempts, n: Name)
    requires Reports(env, w, attempts) && n !in attempts
    ensures var kind := if n in w.pass.base then ChangeFailed else AddFailed;
            Reports(env, w.(failed := w.failed + [Failure(n, kind)]), attempts[n := None])
  {
    var p := w.pass;
    assert AddedLabels(p.base, p.scan, attempts[n := None]) == AddedLabels(p.base, p.scan, attempts);
    assert ChangedLabels(p.base, p.scan, attempts[n := None]) == ChangedLabels(p.base, p.scan, attempts);
  }

  lemma ReportAdded(env: Env, w: Work, attempts: Attempts, n: Name, agent: Agent, source: Source)
    requires Reports(env, w, attempts) && n !in attempts && n !in w.pass.base
    requires env.hash(source.bytes) == agent.fingerprint
    ensures Reports(env, w.(added := w.added + [n], source := w.source[n := source]), attempts[n := Some(agent)])
  {
    var p := w.pass;
    EnumeratesMore(w.added, AddedLabels(p.base, p.scan, attempts), n);
    assert AddedLabels(p.base, p.scan, attempts[n := Some(agent)]) == AddedLabels(p.base, p.scan, attempts) + {n};
    assert ChangedLabels(p.base, p.scan, attempts[n := Some(agent)]) == ChangedLabels(p.base, p.scan, attempts);
  }

  lemma ReportChanged(env: Env, w: Work, attempts: Attempts, n: Name, agent: Agent, source: Source)
    requires Reports(env, w, attempts) && n !in attempts && n in w.pass.base
    requires env.hash(source.bytes) == agent.fingerprint
    ensures Reports(env, w.(changed := w.changed + [n], toClose := w.toClose + [w.pass.base[n]],
        source := w.source[n := source]),
                    attempts[n := Some(agent)])
  {
    var p := w.pass;
    EnumeratesMore(w.changed, ChangedLabels(p.base, p.scan, attempts), n);
    assert ChangedLabels(p.base, p.scan, attempts[n := Some(agent)]) == ChangedLabels(p.base, p.scan, attempts) + {n};
    assert AddedLabels(p.base, p.scan, attempts[n := Some(agent)]) == AddedLabels(p.base, p.scan, attempts);
  }

  lemma TurnReports(env: Env, w: Work, m: Mounted)
    requires OnTable(w) && Turn(w.pass) && Fits(env, w.pass.scan, w.pass.order[w.pass.next], m)
    requires Reports(env, w, w.pass.attempts)
    ensures var v := MountTurnOf(w, m); Reports(env, v, v.pass.attempts)
  {
    if NeedsTurn(w) {
      var n := w.pass.order[w.pass.next];
      NewlyTried(w);
      match m
      case None => ReportFailure(env, w, w.pass.attempts, n);
      case Some((agent, source)) =>
        if n in w.pass.base {
          ReportChanged(env, w, w.pass.attempts, n, agent, source);
        } else {
          ReportAdded(env, w, w.pass.attempts, n, agent, source);
        }
    }
  }

  lemma TurnKeeps(env: Env, w: Work, m: Mounted)
    requires SoFar(env, w) && Turn(w.pass) && Fits(env, w.pass.scan, w.pass.order[w.pass.next], m)
    ensures SoFar(env, MountTurnOf(w, m))
  {
    TurnUntried(w, m);
    TurnUnderway(env, w, m);
    TurnReports(env, w, m);
  }

  ghost predicate AllFit(env: Env, p: Pass, results: seq<Mounted>)
    requires Turns(p, |results|)
  {
    forall k :: 0 <= k < |results| ==> Fits(env, p.scan, p.order[p.next + k], results[k])
  }

  lemma OneMoreTurn(env: Env, w: Work, results: seq<Mounted>, m: Mounted)
    requires Turns(w.pass, |results| + 1) && AllFit(env, w.pass, results)
    requires Fits(env, w.pass.scan, w.pass.order[w.pass.next + |results|], m)
    ensures MountTurns(w, results + [m]) == MountTurnOf(MountTurns(w, results), m)
    ensures AllFit(env, w.pass, results + [m])
  {
    assert (results + [m])[..|results|] == results;
  }

  /** `v` is the work after one fitting result for each of the first turns. */
  ghost predicate Reached(env: Env, w: Work, results: seq<Mounted>, v: Work) {
    Turns(w.pass, |results|) && v == MountTurns(w, results) && AllFit(env, w.pass, results)
  }

  lemma ReachedTurn(env: Env, w: Work, results: seq<Mounted>, v: Work)
    requires Reached(env, w, results, v) && Turns(w.pass, |results| + 1)
    ensures Turn(v.pass) && v.pass.scan == w.pass.scan && v.pass.order == w.pass.order
    ensures v.pass.next == w.pass.next + |results|
  {
  }

  lemma ReachedNext(env: Env, w: Work, results: seq<Mounted>, v: Work, m: Mounted)
    requires Reached(env, w, results, v) && Turns(w.pass, |results| + 1) && Turn(v.pass)
    requires Fits(env, w.pass.scan, w.pass.order[w.pass.next + |results|], m)
    ensures Reached(env, w, results + [m], MountTurnOf(v, m))
  {
    OneMoreTurn(env, w, results, m);
  }

  lemma LastTurn(env: Env, w: Work, results: seq<Mounted>)
    requires results != [] && Turns(w.pass, |results|) && AllFit(env, w.pass, results)
    ensures var k := |results| - 1;
            var v := MountTurns(w, results[..k]);
            && Turns(w.pass, k) && AllFit(env, w.pass, results[..k])
            && Turn(v.pass) && Fits(env, v.pass.scan, v.pass.order[v.pass.next], results[k])
            && MountTurns(w, results) == MountTurnOf(v, results[k])
  {
  }

  lemma {:induction false} MountTurnsKeep(env: Env, w: Work, results: seq<Mounted>)
    requires Turns(w.pass, |results|) && SoFar(env, w) && AllFit(env, w.pass, results)
    ensures SoFar(env, MountTurns(w, results))
    decreases |results|
  {
    if results != [] {
      var k := |results| - 1;
      LastTurn(env, w, results);
      MountTurnsKeep(env, w, results[..k]);
      TurnKeeps(env, MountTurns(w, results[..k]), results[k]);
    }
  }

  // --------------------------------------------------- end of the passes

  function Begin(scan: Scan, order: seq<Name>, active: Table): Work {
    Work(Pass(scan, order, active, Adding, 0, map[]), active, [], [], [], [], [], map[])
  }

  function NextPass(w: Work): Work {
    w.(pass := w.pass.(loop := Changing, next := 0))
  }

  lemma BeginSoFar(env: Env, scan: Scan, order: seq<Name>, active: Table)
    requires NoRepeats(order) && (forall n :: n in order <==> n in scan.valid)
    ensures SoFar(env, Begin(scan, order, active))
  {
    FreshPass(scan, order, active);
    assert AddedLabels(active, scan, map[]) == {};
    assert ChangedLabels(active, scan, map[]) == {};
  }

  /** After the added loop no label the reload found live has been tried. */
  lemma NextPassSoFar(env: Env, w: Work)
    requires SoFar(env, w) && w.pass.loop.Adding? && w.pass.next == |w.pass.order|
    requires forall n :: n in w.pass.attempts ==> n !in w.pass.base
    ensures SoFar(env, NextPass(w))
  {
    assert Underway(NextPass(w).pass, w.table);
  }

  ghost predicate OnlyNew(w: Work) {
    w.pass.loop.Adding? && forall n :: n in w.pass.attempts ==> n !in w.pass.base
  }

  lemma TurnOnlyNew(v: Work, m: Mounted)
    requires OnTable(v) && Turn(v.pass) && OnlyNew(v)
    ensures OnlyNew(MountTurnOf(v, m))
  {
    if NeedsTurn(v) {
      NewlyTried(v);
    }
  }

  lemma {:induction false} AddingOnlyNew(env: Env, w: Work, results: seq<Mounted>)
    requires Turns(w.pass, |results|) && SoFar(env, w) && AllFit(env, w.pass, results) && OnlyNew(w)
    ensures OnlyNew(MountTurns(w, results))
    decreases |results|
  {
    if results != [] {
      var k := |results| - 1;
      LastTurn(env, w, results);
      MountTurnsKeep(env, w, results[..k]);
      AddingOnlyNew(env, w, results[..k]);
      TurnOnlyNew(MountTurns(w, results[..k]), results[k]);
    }
  }

  /** Both loops done and the absent labels taken out: the table is the
      per-label outcome of the one the reload found. */
  lemma PassesAddUp(w: Work, table: Table)
    requires Underway(w.pass, w.table) && w.pass.loop.Changing? && w.pass.next == |w.pass.order|
    requires table == w.table - RemovedLabels(w.table, w.pass.scan)
    ensures Complete(w.pass.base, w.pass.scan, w.pass.attempts)
    ensures table == Reloaded(w.pass.base, w.pass.scan, w.pass.attempts)
    ensures RemovedLabels(w.table, w.pass.scan) == RemovedLabels(w.pass.base, w.pass.scan)
    ensures forall n :: n in RemovedLabels(w.table, w.pass.scan) ==> w.table[n] == w.pass.base[n]
  {
    var p := w.pass;
    var result := Reloaded(p.base, p.scan, p.attempts);
    forall n
      ensures Lookup(w.table, n) == Midway(p, n)
      ensures Lookup(table, n) == Lookup(result, n)
    {
      assert Lookup(w.table, n) == Midway(p, n);
      assert n in result <==> n in p.base.Keys + p.scan.valid.Keys && Outcome(p.base, p.scan, p.attempts, n).Some?;
    }
    assert table.Keys == result.Keys by {
      forall n
        ensures n in table.Keys <==> n in result.Keys
      {
        assert Lookup(table, n) == Lookup(result, n);
      }
    }
    forall n | n in table
      ensures table[n] == result[n]
    {
      assert Lookup(table, n) == Lookup(result, n);
    }
    forall n
      ensures n in RemovedLabels(w.table, p.scan) <==> n in RemovedLabels(p.base, p.scan)
      ensures n in RemovedLabels(w.table, p.scan) ==> w.table[n] == p.base[n]
    {
      assert Lookup(w.table, n) == Midway(p, n);
    }
  }

  /** What a completed reload reports, against the table it found. */
  ghost predicate Faithful(env: Env, w: Work, base: Table, scan: Scan) {
    var attempts := w.pass.attempts;
    && Honest(base, scan, attempts) && Complete(base, scan, attempts)
    && w.table == Reloaded(base, scan, attempts)
    && Enumerates(w.added, AddedLabels(base, scan, attempts))
    && Enumerates(w.changed, ChangedLabels(base, scan, attempts))
    && Enumerates(w.removed, RemovedLabels(base, scan))
    && Tried(attempts, base, w.failed)
    && Sourced(env, attempts, w.source)
    && Replaced(w.changed + w.removed, base, w.toClose)
  }

  lemma RemovedAreReplaced(w: Work, gone: seq<Name>)
    requires Replaced(w.changed, w.pass.base, w.toClose)
    requires NoRepeats(gone) && forall n :: n in gone ==>
        n in w.table && n in w.pass.base && w.table[n] == w.pass.base[n]
    ensures Replaced(w.changed + gone, w.pass.base, RemoveTurns(w, gone).toClose)
  {
  }

  /** Taking labels out touches no other list. */
  lemma RemovalKeepsReports(env: Env, w: Work, gone: seq<Name>)
    requires Reports(env, w, w.pass.attempts) && NoRepeats(gone) && forall n :: n in gone ==> n in w.table
    ensures var v := RemoveTurns(w, gone);
            && v.pass == w.pass && v.removed == w.removed + gone
            && Enumerates(v.added, AddedLabels(w.pass.base, w.pass.scan, w.pass.attempts))
            && Enumerates(v.changed, ChangedLabels(w.pass.base, w.pass.scan, w.pass.attempts))
            && Tried(w.pass.attempts, w.pass.base, v.failed) && Sourced(env, w.pass.attempts, v.source)
  {
  }

  lemma LoopsAreFaithful(env: Env, w: Work, gone: seq<Name>)
    requires Underway(w.pass, w.table) && Reports(env, w, w.pass.attempts)
    requires w.pass.loop.Changing? && w.pass.next == |w.pass.order| && w.removed == []
    requires Enumerates(gone, RemovedLabels(w.table, w.pass.scan))
    ensures Faithful(env, RemoveTurns(w, gone), w.pass.base, w.pass.scan)
  {
    var v := RemoveTurns(w, gone);
    assert v.table == w.table - RemovedLabels(w.table, w.pass.scan) by {
      assert (set n | n in gone) == RemovedLabels(w.table, w.pass.scan);
    }
    PassesAddUp(w, v.table);
    RemovalKeepsReports(env, w, gone);
    RemovedAreReplaced(w, gone);
    assert v.removed == gone && v.changed == w.changed;
  }

  lemma FirstLoop(env: Env, scan: Scan, order: seq<Name>, active: Table, results: seq<Mounted>)
    requires NoRepeats(order) && (forall n :: n in order <==> n in scan.valid)
    requires |results| == |order| && AllFit(env, Begin(scan, order, active).pass, results)
    ensures var w := NextPass(MountTurns(Begin(scan, order, active), results));
            SoFar(env, w) && w.pass == Pass(scan, order, active, Changing, 0, w.pass.attempts) && w.removed == []
  {
    var start := Begin(scan, order, active);
    BeginSoFar(env, scan, order, active);
    MountTurnsKeep(env, start, results);
    AddingOnlyNew(env, start, results);
    NextPassSoFar(env, MountTurns(start, results));
    NothingRemovedYet(start, results);
  }

  lemma SecondLoop(env: Env, w: Work, results: seq<Mounted>)
    requires SoFar(env, w) && w.pass.loop.Changing? && w.pass.next == 0 && w.removed == []
    requires |results| == |w.pass.order| && AllFit(env, w.pass, results)
    ensures var v := MountTurns(w, results);
            SoFar(env, v) && v.pass == w.pass.(next := |w.pass.order|, attempts := v.pass.attempts) && v.removed == []
  {
    MountTurnsKeep(env, w, results);
    NothingRemovedYet(w, results);
  }

  lemma {:induction false} NothingRemovedYet(w: Work, results: seq<Mounted>)
    requires Turns(w.pass, |results|) && w.removed == []
    ensures MountTurns(w, results).removed == []
    decreases |results|
  {
    if results != [] {
      NothingRemovedYet(w, results[..|results| - 1]);
    }
  }

  // ----------------------------------------------------------- parse failures

  /** The labels of a list in dictionary order: first occurrence, once each. */
  function FailedNames(failed: seq<Unusable>): (names: seq<Name>)
    ensures forall n :: n in names <==> exists u :: u in failed && u.name == n
    ensures forall i, j :: 0 <= i < j < |names| ==> names[i] != names[j]
  {
    if failed == [] then []
    else
      var k := |failed| - 1;
      var before := FailedNames(failed[..k]);
      assert failed == failed[..k] + [failed[k]];
      if failed[k].name in before then before else before + [failed[k].name]
  }

  /** The last entry for a label, which is the one a dictionary keeps. */
  function LastUnusable(failed: seq<Unusable>, n: Name): (u: Unusable)
    requires exists u :: u in failed && u.name == n
    ensures u in failed && u.name == n
  {
    var k := |failed| - 1;
    assert failed == failed[..k] + [failed[k]];
    if failed[k].name == n then failed[k] else LastUnusable(failed[..k], n)
  }

  function KindOf(u: Unusable, active: Table): Kind {
    if u.hint != NoHint then Hinted(u.hint) else if u.name in active then ParseFailed else ParseFailedNew
  }

  /** One failure for each label, in order. */
  function ParseFailures(failed: seq<Unusable>, active: Table): (reported: seq<Failure>)
    ensures |reported| == |FailedNames(failed)|
    ensures forall i :: 0 <= i < |reported| ==> reported[i].name == FailedNames(failed)[i]
  {
    var names := FailedNames(failed);
    seq(|names|, i requires 0 <= i < |names| => assert names[i] in names;
      Failure(names[i], KindOf(LastUnusable(failed, names[i]), active)))
  }

  /** Entry `i` is the last one with its label. */
  predicate IsLastFailure(failed: seq<Unusable>, i: nat) {
    i < |failed| && forall j :: i < j < |failed| ==> failed[j].name != failed[i].name
  }

  lemma {:induction false} LastUnusableIsLast(failed: seq<Unusable>, i: nat)
    requires IsLastFailure(failed, i)
    ensures failed[i] in failed && LastUnusable(failed, failed[i].name) == failed[i]
  {
    var k := |failed| - 1;
    if i < k {
      assert failed[..k][i] == failed[i];
      assert forall j :: i < j < k ==> failed[..k][j] == failed[j];
      LastUnusableIsLast(failed[..k], i);
    }
  }

  /** The report of a failed label: the hint of its last entry, or without one whether
      the label is mounted. */
  lemma ReportedExactly(failed: seq<Unusable>, active: Table, i: nat)
    requires IsLastFailure(failed, i)
    ensures var kind := if failed[i].hint != NoHint then Hinted(failed[i].hint)
                        else if failed[i].name in active then ParseFailed
                        else ParseFailedNew;
            forall f :: f in ParseFailures(failed, active) && f.name == failed[i].name ==> f.kind == kind
    ensures exists f :: f in ParseFailures(failed, active) && f.name == failed[i].name
  {
    var names, reported := FailedNames(failed), ParseFailures(failed, active);
    LastUnusableIsLast(failed, i);
    assert failed[i].name in names;
    var k :| 0 <= k < |names| && names[k] == failed[i].name;
    assert reported[k] in reported && reported[k].name == failed[i].name;
  }

  predicate FirstFailure(failed: seq<Unusable>, name: Name, i: nat) {
    i < |failed| && failed[i].name == name && forall j :: 0 <= j < i ==> failed[j].name != name
  }

  /** Labels are reported in the order in which they first failed. */
  lemma {:induction false} ReportedInOrder(failed: seq<Unusable>, a: nat, b: nat, i: nat, j: nat)
    requires a < b < |FailedNames(failed)|
    requires FirstFailure(failed, FailedNames(failed)[a], i) && FirstFailure(failed, FailedNames(failed)[b], j)
    ensures i < j
  {
    var k := |failed| - 1;
    var before := FailedNames(failed[..k]);
    assert failed == failed[..k] + [failed[k]];
    if b < |before| {
      FoundBefore(failed, before[a], i);
      FoundBefore(failed, before[b], j);
      ReportedInOrder(failed[..k], a, b, i, j);
    } else {
      FoundBefore(failed, before[a], i);
    }
  }

  lemma FoundBefore(failed: seq<Unusable>, name: Name, i: nat)
    requires failed != [] && name in FailedNames(failed[..|failed| - 1]) && FirstFailure(failed, name, i)
    ensures i < |failed| - 1 && FirstFailure(failed[..|failed| - 1], name, i)
  {
    var init := failed[..|failed| - 1];
    var u :| u in init && u.name == name;
    var k :| 0 <= k < |init| && init[k] == u;
    assert failed[k].name == name;
  }

  /** A label that failed is present, so the removals do not change its report. */
  lemma ReportSurvivesRemoval(walk: Walk, mid: Table, final: Table)
    requires walk.Walked? && final == mid - RemovedLabels(mid, ScanOf(walk))
    ensures ParseFailures(walk.failed, mid) == ParseFailures(walk.failed, final)
  {
    var names := FailedNames(walk.failed);
    forall i | 0 <= i < |names|
      ensures ParseFailures(walk.failed, mid)[i] == ParseFailures(walk.failed, final)[i]
    {
      assert names[i] in names;
      var u := LastUnusable(walk.failed, names[i]);
      assert u.name in ScanOf(walk).parseFailed;
    }
  }

  method ReportParseFailures(failed: seq<Unusable>, active: Table) returns (reported: seq<Failure>)
    ensures reported == ParseFailures(failed, active)
  {
    var names := FailedNames(failed);
    reported := [];
    for i := 0 to |names|
      invariant reported == ParseFailures(failed, active)[..i]
    {
      assert names[i] in names;
      reported := reported + [Failure(names[i], KindOf(LastUnusable(failed, names[i]), active))];
    }
  }

  /** A reload with nothing to do reports nothing and leaves the table. */
  lemma NothingReported(env: Env, v: Work, base: Table, scan: Scan)
    requires Faithful(env, v, base, scan) && NothingToDo(base, scan)
    ensures v.added == [] && v.changed == [] && v.removed == [] && v.toClose == [] && v.table == base
  {
    NothingToDoIsIdentity(base, scan, v.pass.attempts);
    NothingEnumerated(v.added);
    NothingEnumerated(v.changed);
    NothingEnumerated(v.removed);
  }

  lemma HasFirst(s: seq<Name>)
    requires s != []
    ensures exists x :: x in s
  {
    assert s[0] in s;
  }

  lemma NothingEnumerated(s: seq<Name>)
    ensures Enumerates(s, {}) ==> s == []
  {
    if s != [] {
      HasFirst(s);
    }
  }

  // ---------------------------------------------------------- where mounts come from

  /** A mount was built from the directory its label was last found in. */
  predicate FromFound(found: seq<Found>, n: Name, m: Mounted) {
    m.Some? ==> n in Fingerprints(found) && m.value.1.dir == LastFound(found, n).dir
  }

  ghost predicate SourcesFrom(found: seq<Found>, source: map<Name, Source>) {
    forall n :: n in source ==> n in Fingerprints(found) && source[n].dir == LastFound(found, n).dir
  }

  ghost predicate AllSucceeded(attempts: Attempts) {
    forall n :: n in attempts ==> attempts[n].Some?
  }

  lemma TurnKeepsSources(found: seq<Found>, v: Work, m: Mounted)
    requires Turn(v.pass) && SourcesFrom(found, v.source) && FromFound(found, v.pass.order[v.pass.next], m)
    ensures SourcesFrom(found, MountTurnOf(v, m).source)
  {
  }

  lemma TurnKeepsSuccess(v: Work, m: Mounted)
    requires Turn(v.pass) && AllSucceeded(v.pass.attempts)
    requires MustMount(v.table, v.pass, v.pass.order[v.pass.next]) ==> m.Some?
    ensures AllSucceeded(MountTurnOf(v, m).pass.attempts)
  {
  }

  // ------------------------------------------------------------------ startup

  /** The mounts of startup: a dictionary in insertion order, the bytes each
      agent was built from, and the next id. */
  datatype Boot = Boot(pending: Table, order: seq<Name>, source: map<Name, Source>, next: nat)

  function Booted(b: Boot, f: Found, bytes: Bytes): Boot {
    Boot(b.pending[f.name := Agent(b.next, f.name, f.fingerprint)],
         if f.name in b.pending then b.order else b.order + [f.name],
         b.source[f.name := Source(f.dir, bytes)],
         b.next + 1)
  }

  ghost predicate DistinctIds(t: Table) {
    forall m, n :: m in t && n in t && m != n ==> t[m].id != t[n].id
  }

  /** A pending agent is new, named by its label, and built from bytes with the
      fingerprint found in their directory. */
  ghost predicate InitialAgent(env: Env, b: Boot, n: Name, found: seq<Found>, first: nat)
    requires n in b.pending
  {
    && b.pending[n].name == n && first <= b.pending[n].id < b.next
    && n in b.source && env.hash(b.source[n].bytes) == b.pending[n].fingerprint
    && Found(n, b.source[n].dir, b.pending[n].fingerprint) in found
  }

  ghost predicate Initial(env: Env, b: Boot, found: seq<Found>, first: nat) {
    && first <= b.next
    && Enumerates(b.order, b.pending.Keys)
    && DistinctIds(b.pending)
    && forall n :: n in b.pending ==> InitialAgent(env, b, n, found, first)
  }

  lemma BootKeeps(env: Env, b: Boot, f: Found, bytes: Bytes, found: seq<Found>, first: nat)
    requires Initial(env, b, found, first) && f in found && env.hash(bytes) == f.fingerprint
    ensures Initial(env, Booted(b, f, bytes), found, first)
  {
    var c := Booted(b, f, bytes);
    if f.name !in b.pending {
      EnumeratesMore(b.order, b.pending.Keys, f.name);
      assert c.pending.Keys == b.pending.Keys + {f.name};
    } else {
      assert c.pending.Keys == b.pending.Keys;
    }
    forall n | n in c.pending
      ensures InitialAgent(env, c, n, found, first)
      ensures n != f.name ==> c.pending[n].id < b.next
    {
      assert n != f.name ==> InitialAgent(env, b, n, found, first);
    }
  }

  lemma BootServes(b: Boot, found: seq<Found>, i: nat, bytes: Bytes)
    requires i < |found|
    ensures ServesExactly(b.pending, Fingerprints(found[..i])) ==>
              ServesExactly(Booted(b, found[i], bytes).pending, Fingerprints(found[..i + 1]))
  {
    assert found[..i + 1][..i] == found[..i];
  }

  /** After the first so many enters: the live table, and who has a stack. */
  ghost predicate Entered(active: Table, b: Boot, i: nat, stacks: seq<nat>, opens: Name -> bool) {
    && i <= |b.order|
    && (forall n :: n in active <==> n in b.order[..i] && opens(n))
    && (forall n :: n in active ==> n in b.pending && active[n] == b.pending[n] && active[n].id in stacks)
    && (forall k :: i <= k < |b.order| ==> b.order[k] in b.pending && b.pending[b.order[k]].id !in stacks)
  }

  lemma NoneEntered(env: Env, b: Boot, found: seq<Found>, first: nat, stacks: seq<nat>, opens: Name -> bool)
    requires Initial(env, b, found, first) && forall x :: x in stacks ==> x < first
    ensures Entered(map[], b, 0, stacks, opens)
    ensures forall k :: 0 <= k < |b.order| ==> b.order[k] in b.pending && b.pending[b.order[k]].id < b.next
  {
    forall k | 0 <= k < |b.order|
      ensures b.order[k] in b.pending && first <= b.pending[b.order[k]].id < b.next
    {
      assert b.order[k] in b.pending.Keys;
      assert InitialAgent(env, b, b.order[k], found, first);
    }
  }

  lemma EnteredNext(active: Table, b: Boot, i: nat, stacks: seq<nat>, opens: Name -> bool)
    requires Entered(active, b, i, stacks, opens) && i < |b.order| && NoRepeats(b.order) && DistinctIds(b.pending)
    ensures var n := b.order[i];
            Entered(if opens(n) then active[n := b.pending[n]] else active, b, i + 1,
                    if opens(n) then stacks + [b.pending[n].id] else stacks, opens)
  {
    assert b.order[..i + 1] == b.order[..i] + [b.order[i]];
  }

  lemma EnteredAll(active: Table, b: Boot, stacks: seq<nat>, opens: Name -> bool)
    requires Entered(active, b, |b.order|, stacks, opens) && Enumerates(b.order, b.pending.Keys)
    ensures forall n :: n in active <==> n in b.pending && opens(n)
    ensures forall n :: n in active ==> active[n] == b.pending[n] && active[n].id in stacks
    ensures active.Values <= b.pending.Values
    ensures (forall n :: opens(n)) ==> active == b.pending
  {
    assert b.order[..|b.order|] == b.order;
    if forall n :: opens(n) {
      assert active.Keys == b.pending.Keys;
    }
  }

  // ------------------------------------------------------------- the registry

  /** `Aborted`: an exception left the reload before anything was touched. */
  datatype ReloadResult =
    | Aborted
    | Done(added: seq<Name>, changed: seq<Name>, removed: seq<Name>, failed: seq<Failure>, toClose: seq<Agent>)

  class MountedAgentRegistry {
    const host: Host
    const lane: LifecycleLane
    var active: Table
    var routes: set<Agent>
    var nextId: nat

    /** The lane is idle, and the ids handed out so far are behind `nextId`. */
    ghost predicate Ready()
      reads this`nextId, lane
    {
      && lane.phase.Up? && lane.queue == []
      && Balanced(lane.View())
      && (forall x :: x in lane.stacks ==> x < nextId)
    }

    constructor (host: Host)
      ensures this.host == host && fresh(lane) && Ready()
      ensures active == map[] && routes == {}
    {
      this.host := host;
      lane := new LifecycleLane();
      active, routes, nextId := map[], {}, 0;
      new;
      lane.StartWorker();
    }

    /** Hands the lane one enter and lets it serve that. */
    method EnterLifespan(agent: Agent, opens: bool)
      requires lane.phase.Up? && lane.queue == [] && Balanced(lane.View()) && agent.id !in lane.stacks
      modifies lane
      ensures lane.phase.Up? && lane.queue == [] && Balanced(lane.View())
      ensures lane.stacks == if opens then old(lane.stacks) + [agent.id] else old(lane.stacks)
      ensures lane.closed == old(lane.closed)
    {
      var queued := lane.Dispatch(Enter(agent));
      ghost var before := lane.View();
      assert before.queue[0] == Enter(agent);
      lane.ServeNext(opens);
      ServeKeepsBalance(before, opens);
    }

    /** Build one agent from disk and enter its lifespan. */
    method MountAndEnter(f: Found, builds: bool, opens: bool) returns (m: Mounted)
      requires Ready()
      modifies this`nextId, host`clock, lane
      ensures Ready() && host.clock >= old(host.clock) && nextId >= old(nextId)
      ensures m.Some? ==> m.value.0 == Agent(old(nextId), f.name, f.fingerprint)
      ensures m.Some? ==> m.value.1.dir == f.dir && host.env.hash(m.value.1.bytes) == f.fingerprint
      ensures builds && opens && host.Holds(DirAt(host.history(old(host.clock)), f.dir), f) ==> m.Some?
      ensures lane.stacks == if m.Some? then old(lane.stacks) + [m.value.0.id] else old(lane.stacks)
      ensures lane.closed == old(lane.closed)
    {
      var bytes := host.ReadForMount(f, builds);
      if bytes.None? {
        return None;
      }
      var built := Agent(nextId, f.name, f.fingerprint);
      nextId := nextId + 1;
      EnterLifespan(built, opens);
      m := if opens then Some((built, Source(f.dir, bytes.value))) else None;
    }

    // ------------------------------------------------------------- startup

    /** Nobody writes, and every directory still holds what was found in it. */
    ghost predicate Unmoved(found: seq<Found>) {
      exists disk :: host.Still(disk) && forall f :: f in found ==> host.Holds(DirAt(disk, f.dir), f)
    }

    /** The log takes the labels of everything found. */
    predicate AllPrint(found: seq<Found>) {
      forall f :: f in found ==> host.env.prints(f.name)
    }

    /** The loop of `build_parent_app`: a later directory replaces an earlier one of
        the same label before anything is entered. It tells the log of each label,
        and if that raises, reporting it does so too, which ends the process. */
    method MountInitial(found: seq<Found>, builds: Name -> bool) returns (crashed: bool, boot: Boot)
      modifies this`nextId, host`clock
      ensures host.clock >= old(host.clock) && nextId == boot.next >= old(nextId)
      ensures crashed <==> !AllPrint(found)
      ensures Initial(host.env, boot, found, old(nextId))
      ensures !crashed && Unmoved(found) && (forall n :: builds(n)) ==> ServesExactly(boot.pending, Fingerprints(found))
    {
      boot := Boot(map[], [], map[], nextId);
      for i := 0 to |found|
        invariant host.clock >= old(host.clock)
        invariant forall k :: 0 <= k < i ==> host.env.prints(found[k].name)
        invariant Initial(host.env, boot, found, old(nextId))
        invariant Unmoved(found) && (forall n :: builds(n)) ==> ServesExactly(boot.pending, Fingerprints(found[..i]))
      {
        var f := found[i];
        var bytes := host.ReadForMount(f, builds(f.name));
        if bytes.Some? {
          BootKeeps(host.env, boot, f, bytes.value, found, old(nextId));
          BootServes(boot, found, i, bytes.value);
          boot := Booted(boot, f, bytes.value);
        }
        if !host.env.prints(f.name) {
          nextId := boot.next;
          return true, boot;
        }
      }
      assert found[..|found|] == found;
      nextId := boot.next;
      crashed := false;
    }

    method EnterOne(boot: Boot, i: nat, opens: Name -> bool)
      requires Ready() && i < |boot.order| && NoRepeats(boot.order) && DistinctIds(boot.pending)
      requires Entered(active, boot, i, lane.stacks, opens) && boot.pending[boot.order[i]].id < nextId
      modifies this`active, lane
      ensures Ready() && Entered(active, boot, i + 1, lane.stacks, opens)
    {
      var n := boot.order[i];
      EnteredNext(active, boot, i, lane.stacks, opens);
      EnterLifespan(boot.pending[n], opens(n));
      if opens(n) {
        active := active[n := boot.pending[n]];
      }
    }

    /** `start`: the lane enters each pending agent; one that fails stays routed. */
    method EnterInitial(boot: Boot, opens: Name -> bool)
      requires Ready() && NoRepeats(boot.order) && DistinctIds(boot.pending)
      requires Entered(active, boot, 0, lane.stacks, opens)
      requires forall k :: 0 <= k < |boot.order| ==> boot.pending[boot.order[k]].id < nextId
      modifies this`active, lane
      ensures Ready() && Entered(active, boot, |boot.order|, lane.stacks, opens)
    {
      for i := 0 to |boot.order|
        invariant Ready() && Entered(active, boot, i, lane.stacks, opens)
      {
        EnterOne(boot, i, opens);
      }
    }

    /** From discovery to the entered lifespans; `crashed` is an exception that left
        the walk or the log lines about it. Every agent that serves was built from bytes whose hash a marker of
        the same directory, read in this pass, recorded; on a volume that nobody
        touches, with nothing failing, the table is that of the walk. */
    method Startup(builds: Name -> bool, opens: Name -> bool) returns (crashed: bool, ghost source: map<Name, Source>)
      requires Ready() && active == map[]
      modifies this`active, this`routes, this`nextId, host`clock, lane
      ensures Ready()
      ensures crashed ==> active == map[] && routes == old(routes) && lane.stacks == old(lane.stacks)
      ensures !crashed ==> active.Values <= routes
      ensures forall n :: n in active ==> active[n].name == n && active[n].id in lane.stacks
      ensures forall n :: n in active ==>
                && n in source && host.env.hash(source[n].bytes) == active[n].fingerprint
                && host.SignedDuring(source[n].dir, active[n].fingerprint, old(host.clock), host.clock)
      ensures forall disk :: host.Still(disk) ==>
                var walk := StartupWalk(host.env, disk, disk.listing);
                && (crashed <==> walk.StartAborted? || !AllPrint(walk.found))
                && (!crashed && (forall n :: builds(n) && opens(n)) ==> ServesExactly(active, Fingerprints(walk.found)))
    {
      var walk := host.DiscoverAgents();
      if walk.StartAborted? {
        return true, map[];
      }
      var found := walk.found;
      ghost var seen := host.clock;
      var broken, boot := MountInitial(found, builds);
      if broken {
        return true, map[];
      }
      source := boot.source;
      routes := boot.pending.Values;
      NoneEntered(host.env, boot, found, old(nextId), lane.stacks, opens);
      EnterInitial(boot, opens);
      EnteredAll(active, boot, lane.stacks, opens);
      forall n | n in active
        ensures host.SignedDuring(source[n].dir, active[n].fingerprint, old(host.clock), host.clock)
      {
        assert InitialAgent(host.env, boot, n, found, old(nextId));
        SignedLater(Found(n, source[n].dir, boot.pending[n].fingerprint), old(host.clock), seen);
      }
      forall disk | host.Still(disk) && forall n :: builds(n) && opens(n)
        ensures ServesExactly(active, Fingerprints(StartupWalk(host.env, disk, disk.listing).found))
      {
        FoundStillThere(disk, found);
      }
      crashed := false;
    }

    lemma SignedLater(f: Found, start: nat, seen: nat)
      requires start <= seen <= host.clock && host.Pinned(f, start, seen)
      ensures host.SignedDuring(f.dir, f.fingerprint, start, host.clock)
    {
      var t: nat :| start <= t < seen && Signs(host.history(t), f.dir, f.fingerprint);
    }

    lemma FoundStillThere(disk: Disk, found: seq<Found>)
      requires host.Still(disk) && StartupWalk(host.env, disk, disk.listing) == Started(found)
      ensures Unmoved(found)
    {
      StartupWalkMembers(host.env, disk, disk.listing);
      forall f | f in found
        ensures host.Holds(DirAt(disk, f.dir), f)
      {
        var e :| e in disk.listing && f.dir == e.dir
            && StartupVerdict(host.env, e, DirAt(disk, e.dir)) == Mounts(f.name, f.fingerprint);
      }
    }

    lemma ValidStillThere(disk: Disk, mounted: set<Name>, walk: Walk)
      requires host.Still(disk) && walk == ReloadWalk(host.env, disk, disk.listing, mounted) && walk.Walked?
      ensures Unmoved(walk.valid)
    {
      ReloadWalkMembers(host.env, disk, disk.listing, mounted);
      forall f | f in walk.valid
        ensures host.Holds(DirAt(disk, f.dir), f)
      {
        var e :| e in disk.listing && f.name == DiskLabel(e) && f.dir == e.dir
                 && VerdictOn(host.env, disk, e, mounted) == Mountable(f.fingerprint);
      }
    }

    // ------------------------------------------------------------------ reload

    /** The volume stays as it was found, every agent builds and every lifespan opens. */
    ghost predicate Smooth(found: seq<Found>, builds: Name -> bool, opens: Name -> bool) {
      Unmoved(found) && forall n :: builds(n) && opens(n)
    }

    method MountTurnResult(found: seq<Found>, v: Work, builds: Name -> bool, opens: Name -> bool) returns (m: Mounted)
      requires Ready() && Turn(v.pass) && v.pass.scan.valid == Fingerprints(found)
      modifies this`nextId, host`clock, lane
      ensures Ready() && host.clock >= old(host.clock)
      ensures Fits(host.env, v.pass.scan, v.pass.order[v.pass.next], m)
      ensures FromFound(found, v.pass.order[v.pass.next], m)
      ensures Smooth(found, builds, opens) && MustMount(v.table, v.pass, v.pass.order[v.pass.next]) ==> m.Some?
      ensures lane.closed == old(lane.closed)
    {
      var n := v.pass.order[v.pass.next];
      m := None;
      if MustMount(v.table, v.pass, n) {
        m := MountAndEnter(LastFound(found, n), builds(n), opens(n));
      }
    }

    /** One turn of either loop. */
    method MountTurnNext(found: seq<Found>, ghost w: Work, v: Work, ghost results: seq<Mounted>,
        builds: Name -> bool, opens: Name -> bool)
      returns (next: Work, ghost m: Mounted)
      requires Ready() && v.table == active && w.pass.scan.valid == Fingerprints(found)
      requires Reached(host.env, w, results, v) && Turns(w.pass, |results| + 1)
      requires SourcesFrom(found, v.source)
      modifies this`active, this`nextId, host`clock, lane
      ensures Ready() && host.clock >= old(host.clock) && next.table == active
      ensures Reached(host.env, w, results + [m], next)
      ensures SourcesFrom(found, next.source)
      ensures Smooth(found, builds, opens) && AllSucceeded(v.pass.attempts) ==> AllSucceeded(next.pass.attempts)
      ensures lane.closed == old(lane.closed)
    {
      ReachedTurn(host.env, w, results, v);
      var mounted := MountTurnResult(found, v, builds, opens);
      ReachedNext(host.env, w, results, v, mounted);
      TurnKeepsSources(found, v, mounted);
      if Smooth(found, builds, opens) && AllSucceeded(v.pass.attempts) {
        TurnKeepsSuccess(v, mounted);
      }
      next, m := MountTurnOf(v, mounted), mounted;
      active := next.table;
    }

    /** The added loop and the changed loop: same body, different guard. On a smooth
        run every mount either of them tries succeeds. */
    method MountLoop(found: seq<Found>, w: Work, builds: Name -> bool, opens: Name -> bool)
      returns (v: Work, ghost results: seq<Mounted>)
      requires Ready() && w.table == active && SourcesFrom(found, w.source)
      requires w.pass.order == Order(found) && w.pass.scan.valid == Fingerprints(found)
      requires w.pass.next == 0 && !w.pass.loop.Removing?
      modifies this`active, this`nextId, host`clock, lane
      ensures Ready() && host.clock >= old(host.clock) && v.table == active
      ensures |results| == |w.pass.order| && Turns(w.pass, |results|)
      ensures v == MountTurns(w, results) && AllFit(host.env, w.pass, results)
      ensures SourcesFrom(found, v.source)
      ensures Smooth(found, builds, opens) && AllSucceeded(w.pass.attempts) ==> AllSucceeded(v.pass.attempts)
      ensures lane.closed == old(lane.closed)
    {
      results, v := [], w;
      for i := 0 to |w.pass.order|
        invariant Ready() && host.clock >= old(host.clock) && v.table == active
        invariant |results| == i && Reached(host.env, w, results, v)
        invariant SourcesFrom(found, v.source)
        invariant Smooth(found, builds, opens) && AllSucceeded(w.pass.attempts) ==> AllSucceeded(v.pass.attempts)
        invariant lane.closed == old(lane.closed)
      {
        assert Turns(w.pass, i + 1);
        ghost var m;
        v, m := MountTurnNext(found, w, v, results, builds, opens);
        results := results + [m];
      }
    }

    /** REMOVED: live, and in neither part of the walk. */
    method RemoveAbsent(w: Work) returns (v: Work, ghost gone: seq<Name>)
      requires w.table == active
      modifies this`active
      ensures Enumerates(gone, RemovedLabels(w.table, w.pass.scan))
      ensures v == RemoveTurns(w, gone) && v.table == active
    {
      var labels := active.Keys;
      gone, v := [], w;
      while labels != {}
        invariant labels <= v.table.Keys && v.table == active
        invariant NoRepeats(gone) && forall n :: n in gone ==> n in w.table
        invariant v == RemoveTurns(w, gone)
        invariant forall n :: n in gone <==> n in RemovedLabels(w.table, w.pass.scan) && n !in labels
        decreases labels
      {
        var n :| n in labels;
        labels := labels - {n};
        if !Present(w.pass.scan, n) {
          assert (gone + [n])[..|gone|] == gone;
          v := RemoveTurn(v, n);
          gone := gone + [n];
          active := v.table;
        }
      }
    }

    /** The bytes of every mounted agent carry a hash that a marker of their own
        directory, read during this reload, recorded. */
    ghost predicate SignedSources(attempts: Attempts, source: map<Name, Source>, start: nat, end: nat) {
      forall n :: n in attempts && attempts[n].Some? ==>
        n in source && host.SignedDuring(source[n].dir, host.env.hash(source[n].bytes), start, end)
    }

    /** The added loop, then the changed loop. */
    method MountBoth(found: seq<Found>, scan: Scan, builds: Name -> bool, opens: Name -> bool) returns (w: Work)
      requires Ready() && scan.valid == Fingerprints(found)
      modifies this`active, this`nextId, host`clock, lane
      ensures Ready() && host.clock >= old(host.clock) && lane.closed == old(lane.closed)
      ensures SoFar(host.env, w) && active == w.table && w.removed == []
      ensures w.pass == Pass(scan, Order(found), old(active), Changing, |Order(found)|, w.pass.attempts)
      ensures SourcesFrom(found, w.source)
      ensures Smooth(found, builds, opens) ==> AllSucceeded(w.pass.attempts)
    {
      ghost var base := active;
      w := Begin(scan, Order(found), active);
      ghost var first, second;
      w, first := MountLoop(found, w, builds, opens);
      FirstLoop(host.env, scan, Order(found), base, first);
      w := NextPass(w);
      ghost var half := w;
      w, second := MountLoop(found, w, builds, opens);
      SecondLoop(host.env, half, second);
    }

    /** The four loops over one walk. */
    method RunLoops(walk: Walk, scan: Scan, builds: Name -> bool, opens: Name -> bool)
      returns (w: Work, unusable: seq<Failure>)
      requires Ready() && walk.Walked? && scan == ScanOf(walk)
      modifies this`active, this`nextId, host`clock, lane
      ensures Ready() && host.clock >= old(host.clock) && lane.closed == old(lane.closed)
      ensures Faithful(host.env, w, old(active), scan) && active == w.table
      ensures unusable == ParseFailures(walk.failed, active)
      ensures SourcesFrom(walk.valid, w.source)
      ensures Smooth(walk.valid, builds, opens) ==> AllSucceeded(w.pass.attempts)
    {
      w := MountBoth(walk.valid, scan, builds, opens);
      unusable := ReportParseFailures(walk.failed, active);
      ghost var loops, gone := w, [];
      w, gone := RemoveAbsent(w);
      LoopsAreFaithful(host.env, loops, gone);
      assert (set n | n in gone) == RemovedLabels(loops.table, scan);
      ReportSurvivesRemoval(walk, loops.table, active);
    }

    /** What a reload did, if no exception left it. */
    ghost predicate ReloadDid(result: ReloadResult, scan: Scan, w: Work, base: Table)
      reads this`active, this`routes
    {
      result.Done? ==>
        && Faithful(host.env, w, base, scan)
        && active == w.table && routes == active.Values
        && result.added == w.added && result.changed == w.changed && result.removed == w.removed
        && result.toClose == w.toClose
    }

    /** What it did on a volume that nobody touches. */
    ghost predicate ReloadSaw(disk: Disk, result: ReloadResult, scan: Scan, w: Work, base: Table)
      reads this`active
    {
      var walk := ReloadWalk(host.env, disk, disk.listing, base.Keys);
      && (result.Aborted? <==> walk.Aborted?)
      && (result.Done? ==> scan == ScanOf(walk) && result.failed == w.failed + ParseFailures(walk.failed, active))
    }

    /** One reload, from discovery to the route swap. Nothing is closed by it:
        `toClose` goes to the deferred close. With nothing failing on a volume that
        nobody touches, every mount it had to make succeeds. */
    method Reload(builds: Name -> bool, opens: Name -> bool)
      returns (result: ReloadResult, ghost scan: Scan, ghost w: Work)
      requires Ready()
      modifies this`active, this`routes, this`nextId, host`clock, lane
      ensures Ready() && lane.closed == old(lane.closed)
      ensures result.Aborted? ==> active == old(active) && routes == old(routes) && lane.stacks == old(lane.stacks)
      ensures ReloadDid(result, scan, w, old(active))
      ensures result.Done? ==> SignedSources(w.pass.attempts, w.source, old(host.clock), host.clock)
      ensures result.Done? ==> forall n :: n in result.removed ==> n in old(active) && n !in active
      ensures result.Done? ==>
                forall e :: e in host.history(old(host.clock)).listing && DiskLabel(e) in result.removed ==>
                  host.OasMissed(e.dir, old(host.clock), host.clock)
      ensures forall disk :: host.Still(disk) && result.Done? ==>
                forall n :: n in result.removed <==> n in old(active) && IsGone(disk, n)
      ensures forall disk :: host.Still(disk) ==> ReloadSaw(disk, result, scan, w, old(active))
      ensures forall disk :: host.Still(disk) && (forall n :: builds(n) && opens(n)) && result.Done? ==>
                AllSucceeded(w.pass.attempts)
    {
      ghost var base, start := active, host.clock;
      var walk := host.DiscoverForReload(active.Keys);
      if walk.Aborted? {
        scan, w := Scan(map[], {}), Begin(Scan(map[], {}), [], map[]);
        return ReloadResult.Aborted, scan, w;
      }
      ghost var seen := host.clock;
      scan := ScanOf(walk);
      var work, unusable := RunLoops(walk, ScanOf(walk), builds, opens);
      routes := active.Values;
      w := work;
      SignedByWalk(walk, w, base, start, seen);
      OnlyMissingRemoved(walk, w, base, start, seen);
      forall disk | host.Still(disk)
        ensures Unmoved(walk.valid)
      {
        ValidStillThere(disk, base.Keys, walk);
      }
      forall disk, n | host.Still(disk)
        ensures n in w.removed <==> n in base && IsGone(disk, n)
      {
        AbsentExactly(host.env, disk, base, n);
      }
      result := Done(work.added, work.changed, work.removed, work.failed + unusable, work.toClose);
    }

    /** A label is removed only after its OAS was seen to be missing in every directory
        that stood for it when the walk began. */
    lemma OnlyMissingRemoved(walk: Walk, w: Work, base: Table, start: nat, seen: nat)
      requires walk.Walked? && start <= seen <= host.clock && Faithful(host.env, w, base, ScanOf(walk))
      requires forall e :: e in host.history(start).listing ==> host.Accounts(walk, e, base.Keys, start, seen)
      ensures forall n :: n in w.removed ==> n in base && n !in w.table
      ensures forall e :: e in host.history(start).listing && DiskLabel(e) in w.removed ==>
                host.OasMissed(e.dir, start, host.clock)
    {
      forall n | n in w.removed
        ensures n in base && n !in w.table
      {
        assert n in RemovedLabels(base, ScanOf(walk));
        assert Outcome(base, ScanOf(walk), w.pass.attempts, n).None?;
      }
      forall e | e in host.history(start).listing && DiskLabel(e) in w.removed
        ensures host.OasMissed(e.dir, start, host.clock)
      {
        assert DiskLabel(e) in RemovedLabels(base, ScanOf(walk));
        FingerprintsFrom(walk.valid, DiskLabel(e));
        assert !host.Lists(walk, DiskLabel(e));
        host.MissedLater(e.dir, start, start, seen, host.clock);
      }
    }

    /** The hash of mounted bytes is a fingerprint of the walk, and the walk
        reports only fingerprints signed while it ran. */
    lemma SignedByWalk(walk: Walk, w: Work, base: Table, start: nat, seen: nat)
      requires walk.Walked? && start <= seen <= host.clock
      requires forall f :: f in walk.valid ==> host.Pinned(f, start, seen)
      requires Faithful(host.env, w, base, ScanOf(walk)) && SourcesFrom(walk.valid, w.source)
      ensures SignedSources(w.pass.attempts, w.source, start, host.clock)
    {
      var attempts := w.pass.attempts;
      forall n | n in attempts && attempts[n].Some?
        ensures n in w.source && host.SignedDuring(w.source[n].dir, host.env.hash(w.source[n].bytes), start, host.clock)
      {
        assert NeedsMount(base, ScanOf(walk), n);
        SignedLater(LastFound(walk.valid, n), start, seen);
      }
    }

    /** The first reload brought the fingerprints of all valid labels to those on
        disk; the second added, changed and removed nothing and kept every agent, or
        raised, and kept every agent, in the one case in which its walk does. */
    ghost predicate Converged(disk: Disk, base: Table, scan: Scan, between: Table, second: ReloadResult)
      reads this`active, this`routes
    {
      var walk := ReloadWalk(host.env, disk, disk.listing, base.Keys);
      && walk.Walked? && scan == ScanOf(walk)
      && (forall n :: n in scan.valid ==> n in between && between[n].fingerprint == scan.valid[n])
      && (second.Aborted? <==> DraftIsHidden(host.env, disk, between.Keys))
      && (second.Done? ==> second.added == [] && second.changed == [] && second.removed == [] && second.toClose == [])
      && active == between && routes == between.Values
    }

    /** Two reloads, one after the other, on a volume that nobody touches and with
        nothing failing. */
    method ReloadTwice(builds: Name -> bool, opens: Name -> bool)
      returns (first: ReloadResult, second: ReloadResult, ghost between: Table, ghost scan: Scan)
      requires Ready()
      modifies this`active, this`routes, this`nextId, host`clock, lane
      ensures Ready() && lane.closed == old(lane.closed)
      ensures forall disk :: host.Still(disk) && (forall n :: builds(n) && opens(n)) && first.Done? ==>
                Converged(disk, old(active), scan, between, second)
    {
      ghost var base := active;
      ghost var w, again, v;
      first, scan, w := Reload(builds, opens);
      between := active;
      second, again, v := Reload(builds, opens);
      forall disk | host.Still(disk) && (forall n :: builds(n) && opens(n)) && first.Done?
        ensures Converged(disk, base, scan, between, second)
      {
        SecondReload(disk, base, scan, w, between, second, again, v);
      }
    }

    lemma SecondReload(disk: Disk, base: Table, scan: Scan, w: Work, between: Table,
        second: ReloadResult, again: Scan, v: Work)
      requires var walk := ReloadWalk(host.env, disk, disk.listing, base.Keys); walk.Walked? && scan == ScanOf(walk)
      requires Faithful(host.env, w, base, scan) && between == w.table && AllSucceeded(w.pass.attempts)
      requires ReloadSaw(disk, second, again, v, between) && ReloadDid(second, again, v, between)
      requires second.Aborted? ==> active == between && routes == between.Values
      ensures Converged(disk, base, scan, between, second)
    {
      SecondWalkFindsNothing(host.env, disk, base, w.pass.attempts);
      forall n | n in scan.valid
        ensures n in between && between[n].fingerprint == scan.valid[n]
      {
        Converges(base, scan, w.pass.attempts, n);
      }
      if second.Done? {
        NothingReported(host.env, v, between, again);
      }
    }

    /** The deferred close: the lane exits each agent's lifespan in turn. */
    method CloseRetired(agents: seq<Agent>)
      requires Ready()
      modifies lane
      ensures Ready()
      ensures forall x ::
                x in lane.stacks <==> x in old(lane.stacks) && forall k :: 0 <= k < |agents| ==> agents[k].id != x
      ensures lane.entered == old(lane.entered)
    {
      for i := 0 to |agents|
        invariant Ready()
        invariant forall x ::
                    x in lane.stacks <==> x in old(lane.stacks) && forall k :: 0 <= k < i ==> agents[k].id != x
        invariant lane.entered == old(lane.entered)
      {
        var queued := lane.Dispatch(Exit(agents[i], 0));
        ghost var before := lane.View();
        assert before.queue[0] == Exit(agents[i], 0);
        lane.ServeNext(true);
        ServeKeepsBalance(before, true);
      }
    }
  }
}
