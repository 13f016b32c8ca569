/**
 Why a stale skill is not reclaimed under a run that uses it: the grace window
 of `src/lib/anthropic-skill-gc-service.ts` against the leases of
 `src/lib/anthropic-skill-lease-dao.ts`. Times are milliseconds; every stamp is
 read off a clock that may be off by `skew`, and a lease may be written up to
 `gap` after the row it is for was read.
 */
module SkillGrace {
  import opened Wrappers
  import opened SkillSync

  const LEASE_TTL_MS := 600_000
  const GRACE_MS := 1_800_000

  /** One look at a live row by a dispatch: the row's key and content, and when. */
  datatype Read = Read(key: Key, skillId: string, version: string, at: int)

  datatype Lease = Lease(id: string, read: Read, expiresAt: int)

  datatype State = State(now: int, rows: Table, uses: set<Read>, leases: set<Lease>)

  datatype Env = Env(skew: nat, gap: nat)

  const INIT := State(0, map[], {}, {})

  datatype Step =
    | Tick(ms: nat)
    | Sync(op: Op)
    | Resolve(key: Key)
    | Acquire(id: string, read: Read, clock: int)
    | Release(lease: Lease)
    | Prune(ns: Namespace, clock: int)

  predicate Near(env: Env, clock: int, now: int) {
    now - env.skew <= clock <= now + env.skew
  }

  predicate IsActive(l: Lease, clock: int) { l.expiresAt > clock }

  /** What may happen: stamps near the true time, and a lease only for a row that
      was read a short while ago. */
  predicate Enabled(env: Env, s: State, step: Step) {
    match step
    case Sync(op) => op.Mark? || op.MarkRemoved? ==> Near(env, op.now, s.now)
    case Acquire(_, read, clock) => read in s.uses && s.now - read.at <= env.gap && Near(env, clock, s.now)
    case Prune(_, clock) => Near(env, clock, s.now)
    case _ => true
  }

  /** The stale row with this key is uploaded anew. */
  predicate Revives(s: State, step: Step, k: Key) {
    step.Sync? && step.op.Upsert? && step.op.key == k && k in s.rows && s.rows[k].stale
  }

  function Apply(s: State, step: Step): State {
    match step
    case Tick(ms) => s.(now := s.now + ms)
    case Sync(op) => s.(rows := Do(s.rows, op))
    case Resolve(k) =>
      if k in s.rows && !s.rows[k].stale
      then s.(uses := s.uses + {Read(k, s.rows[k].skillId, s.rows[k].version, s.now)})
      else s
    case Acquire(id, read, clock) => s.(leases := s.leases + {Lease(id, read, clock + LEASE_TTL_MS)})
    case Release(lease) => s.(leases := s.leases - {lease})
    case Prune(ns, clock) => s.(leases := set l | l in s.leases && !(l.read.key.ns == ns && !IsActive(l, clock)))
  }

  function End(steps: seq<Step>): State {
    if steps == [] then INIT else Apply(End(steps[..|steps| - 1]), steps[|steps| - 1])
  }

  predicate Possible(env: Env, steps: seq<Step>) {
    steps == [] ||
    (Possible(env, steps[..|steps| - 1]) && Enabled(env, End(steps[..|steps| - 1]), steps[|steps| - 1]))
  }

  /** The row with this key, if there is one, was not revived since it was inserted. */
  predicate Clean(steps: seq<Step>, k: Key) {
    k !in End(steps).rows ||
    (steps != [] && Clean(steps[..|steps| - 1], k) && !Revives(End(steps[..|steps| - 1]), steps[|steps| - 1], k))
  }

  // ------------------------------------------------------------------ invariant

  predicate LeaseFits(env: Env, s: State, l: Lease) {
    l.read in s.uses && l.expiresAt <= l.read.at + env.gap + env.skew + LEASE_TTL_MS
  }

  /** Kept by every step: reads are past, and leases are for reads and run out. */
  ghost predicate Inv(env: Env, s: State) {
    && (forall r :: r in s.uses ==> r.at <= s.now)
    && (forall l :: l in s.leases ==> LeaseFits(env, s, l))
  }

  /** Kept for a row by every step that does not revive it: it has a clock only while
      it is stale, and the clock is not older than any read of the row. */
  ghost predicate RowFits(env: Env, s: State, k: Key) {
    k in s.rows ==>
      && (s.rows[k].stale <==> s.rows[k].staleAt.Some?)
      && (s.rows[k].staleAt.Some? ==>
            forall r :: r in s.uses && r.key == k ==> r.at - env.skew <= s.rows[k].staleAt.value)
  }

  lemma StepKeeps(env: Env, s: State, step: Step)
    requires Inv(env, s) && Enabled(env, s, step)
    ensures Inv(env, Apply(s, step))
  {
    var t := Apply(s, step);
    forall l | l in t.leases
      ensures LeaseFits(env, t, l)
    {
      assert l in s.leases ==> LeaseFits(env, s, l);
    }
  }

  lemma StepKeepsRow(env: Env, s: State, step: Step, k: Key)
    requires Inv(env, s) && Enabled(env, s, step) && RowFits(env, s, k) && !Revives(s, step, k)
    ensures RowFits(env, Apply(s, step), k)
  {
  }

  lemma {:induction false} RunKeeps(env: Env, steps: seq<Step>)
    requires Possible(env, steps)
    ensures Inv(env, End(steps))
    decreases |steps|
  {
    if steps != [] {
      var before := steps[..|steps| - 1];
      RunKeeps(env, before);
      StepKeeps(env, End(before), steps[|steps| - 1]);
    }
  }

  lemma {:induction false} RunKeepsRow(env: Env, steps: seq<Step>, k: Key)
    requires Possible(env, steps) && Clean(steps, k)
    ensures RowFits(env, End(steps), k)
    decreases |steps|
  {
    if steps != [] && k in End(steps).rows {
      var before := steps[..|steps| - 1];
      RunKeeps(env, before);
      RunKeepsRow(env, before, k);
      StepKeepsRow(env, End(before), steps[|steps| - 1], k);
    }
  }

  /** A lease is gone exactly after its release, or after housekeeping in its own
      namespace once it has run out, and new exactly after it was acquired, for ten
      minutes. */
  lemma LeasesExactly(s: State, step: Step, l: Lease)
    ensures l in s.leases ==>
              (l !in Apply(s, step).leases <==>
                 step == Release(l) || (step.Prune? && step.ns == l.read.key.ns && l.expiresAt <= step.clock))
    ensures l !in s.leases ==>
              (l in Apply(s, step).leases <==>
                 step.Acquire? && l == Lease(step.id, step.read, step.clock + 600_000))
  {
  }

  // --------------------------------------------------------------- main results

  /** The row's age, on this clock, has reached the grace window. */
  predicate AgedOut(r: Row, clock: int) {
    r.stale && r.staleAt.Some? && r.staleAt.value <= clock - GRACE_MS
  }

  /** The row does not age out while a lease taken on it is still active. */
  ghost predicate LeasesEndFirst(env: Env, s: State, k: Key) {
    forall l, clock :: l in s.leases && Near(env, clock, s.now) && l.read.key == k && k in s.rows
        && AgedOut(s.rows[k], clock)
      ==> !IsActive(l, clock)
  }

  predicate WithinMargin(env: Env) { env.gap + 2 * env.skew <= GRACE_MS - LEASE_TTL_MS }

  /** Whoever read a row live is done for at least `GRACE - 2 * skew` before it
      ages out, with or without a lease, whatever becomes of other rows. */
  lemma GraceOutlivesUses(env: Env, steps: seq<Step>, r: Read, clock: int)
    requires Possible(env, steps) && Clean(steps, r.key)
    requires r in End(steps).uses && Near(env, clock, End(steps).now)
    requires r.key in End(steps).rows && AgedOut(End(steps).rows[r.key], clock)
    ensures End(steps).now - r.at >= GRACE_MS - 2 * env.skew
  {
    RunKeepsRow(env, steps, r.key);
  }

  lemma GraceOutlivesLeases(env: Env, steps: seq<Step>, k: Key)
    requires Possible(env, steps) && Clean(steps, k) && WithinMargin(env)
    ensures LeasesEndFirst(env, End(steps), k)
  {
    RunKeeps(env, steps);
    RunKeepsRow(env, steps, k);
    var s := End(steps);
    forall l, clock | l in s.leases && Near(env, clock, s.now) && l.read.key == k && k in s.rows
        && AgedOut(s.rows[k], clock)
      ensures !IsActive(l, clock)
    {
      assert LeaseFits(env, s, l);
    }
  }

  function Upload(k: Key): Step {
    Sync(Upsert(k, "", "", ""))
  }

  lemma AddStep(env: Env, steps: seq<Step>, step: Step, k: Key)
    requires Possible(env, steps) && Enabled(env, End(steps), step)
    ensures Possible(env, steps + [step]) && End(steps + [step]) == Apply(End(steps), step)
    ensures Clean(steps, k) && !Revives(End(steps), step, k) ==> Clean(steps + [step], k)
  {
    assert (steps + [step])[..|steps|] == steps;
  }

  /** A row is uploaded, read and at once marked by a clock that runs behind;
      its lease is written as late and as far ahead as can be. */
  lemma LateLease(env: Env, k: Key) returns (steps: seq<Step>, l: Lease)
    ensures Possible(env, steps) && Clean(steps, k)
    ensures l in End(steps).leases && l.read.key == k && l.expiresAt == env.gap + env.skew + LEASE_TTL_MS
    ensures End(steps).now == env.gap
    ensures k in End(steps).rows && End(steps).rows[k].stale
    ensures End(steps).rows[k].staleAt.Some? && End(steps).rows[k].staleAt.value + env.skew == 0
  {
    steps := [];
    AddStep(env, steps, Upload(k), k);
    steps := steps + [Upload(k)];
    AddStep(env, steps, Resolve(k), k);
    steps := steps + [Resolve(k)];
    var read := Read(k, "", "", 0);
    assert read in End(steps).uses && End(steps).now == 0;
    var behind: int := 0 - env.skew as int;
    var mark := Sync(Mark(k, behind));
    AddStep(env, steps, mark, k);
    steps := steps + [mark];
    AddStep(env, steps, Tick(env.gap), k);
    steps := steps + [Tick(env.gap)];
    var acquire := Acquire("", read, env.gap + env.skew);
    AddStep(env, steps, acquire, k);
    steps := steps + [acquire];
    l := Lease("", read, env.gap + env.skew + LEASE_TTL_MS);
  }

  lemma BeyondMargin(env: Env, k: Key) returns (steps: seq<Step>)
    requires !WithinMargin(env)
    ensures Possible(env, steps) && Clean(steps, k) && !LeasesEndFirst(env, End(steps), k)
  {
    var before, l := LateLease(env, k);
    var ms: nat := if env.gap < GRACE_MS - env.skew then GRACE_MS - env.skew - env.gap else 0;
    AddStep(env, before, Tick(ms), k);
    steps := before + [Tick(ms)];
    var s := End(steps);
    assert l in s.leases && Near(env, s.now, s.now) && AgedOut(s.rows[k], s.now) && IsActive(l, s.now);
  }

  /** In numbers: the margin is twenty minutes, a lease runs for ten and a row ages
      out half an hour after its mark. */
  lemma InMilliseconds(env: Env, s: State, id: string, read: Read, r: Row, clock: int, later: int)
    ensures WithinMargin(env) <==> env.gap + 2 * env.skew <= 1_200_000
    ensures Lease(id, read, clock + 600_000) in Apply(s, Acquire(id, read, clock)).leases
    ensures IsActive(Lease(id, read, clock + 600_000), later) <==> later - clock < 600_000
    ensures AgedOut(r, later) <==> r.stale && r.staleAt.Some? && later - r.staleAt.value >= 1_800_000
  {
  }

  /** The margin is exact, for every row on its own: no possible run lets it age out
      under an active lease without having revived it, if and only if the
      read-to-lease gap and twice the skew fit between the grace window and the lease. */
  lemma GraceMarginIsExact(env: Env, k: Key)
    ensures (forall steps :: Possible(env, steps) && Clean(steps, k) ==> LeasesEndFirst(env, End(steps), k))
       <==> WithinMargin(env)
  {
    if WithinMargin(env) {
      forall steps | Possible(env, steps) && Clean(steps, k)
        ensures LeasesEndFirst(env, End(steps), k)
      {
        GraceOutlivesLeases(env, steps, k);
      }
    } else {
      var steps := BeyondMargin(env, k);
    }
  }

  // ------------------------------------------------------------- revived rows

  /** No step from this one on revives the row. */
  predicate Spares(steps: seq<Step>, from: nat, k: Key) {
    forall j :: from <= j < |steps| ==> !Revives(End(steps[..j]), steps[j], k)
  }

  lemma AddSpared(env: Env, steps: seq<Step>, from: nat, step: Step, k: Key)
    requires Possible(env, steps) && Enabled(env, End(steps), step) && from <= |steps|
    requires Spares(steps, from, k) && !Revives(End(steps), step, k)
    ensures Possible(env, steps + [step]) && End(steps + [step]) == Apply(End(steps), step)
    ensures Spares(steps + [step], from, k) && steps <= steps + [step]
  {
    var more := steps + [step];
    assert more[..|steps|] == steps;
    assert forall j :: 0 <= j < |steps| ==> more[..j] == steps[..j];
  }

  /** A live row with an old clock is read when that has reached the grace window. */
  lemma ReadWhenDue(env: Env, steps: seq<Step>, k: Key) returns (run: seq<Step>, read: Read)
    requires Possible(env, steps)
    requires k in End(steps).rows && !End(steps).rows[k].stale && End(steps).rows[k].staleAt.Some?
    ensures steps <= run && Possible(env, run) && Spares(run, |steps|, k)
    ensures read in End(run).uses && read.key == k && read.at == End(run).now
    ensures End(run).rows == End(steps).rows && End(run).rows[k].staleAt.value <= End(run).now - GRACE_MS
  {
    var s := End(steps);
    var due := s.rows[k].staleAt.value + GRACE_MS;
    var ms: nat := if s.now < due then due - s.now else 0;
    run := AddTwoSpared(env, steps, |steps|, Tick(ms), Resolve(k), k);
    read := Read(k, s.rows[k].skillId, s.rows[k].version, s.now + ms);
  }

  /** It is leased, and its skill is removed from the catalog at once. */
  lemma LeasedAndMarked(env: Env, s: State, k: Key, read: Read)
    requires read in s.uses && read.key == k && read.at == s.now
    requires k in s.rows && s.rows[k].staleAt.Some? && s.rows[k].staleAt.value <= s.now - GRACE_MS
    ensures var t := Apply(s, Acquire("", read, s.now));
            && Enabled(env, s, Acquire("", read, s.now)) && Enabled(env, t, Sync(Mark(k, s.now)))
            && !LeasesEndFirst(env, Apply(t, Sync(Mark(k, s.now))), k)
  {
    var t := Apply(Apply(s, Acquire("", read, s.now)), Sync(Mark(k, s.now)));
    var l := Lease("", read, s.now + LEASE_TTL_MS);
    assert l in t.leases && Near(env, s.now, t.now) && AgedOut(t.rows[k], s.now) && IsActive(l, s.now);
  }

  lemma AddTwoSpared(env: Env, steps: seq<Step>, from: nat, one: Step, two: Step, k: Key) returns (run: seq<Step>)
    requires Possible(env, steps) && from <= |steps| && Spares(steps, from, k)
    requires Enabled(env, End(steps), one) && Enabled(env, Apply(End(steps), one), two)
    requires !Revives(End(steps), one, k) && !Revives(Apply(End(steps), one), two, k)
    ensures Possible(env, run) && End(run) == Apply(Apply(End(steps), one), two)
    ensures Spares(run, from, k) && steps <= run
  {
    AddSpared(env, steps, from, one, k);
    AddSpared(env, steps + [one], from, two, k);
    run := steps + [one] + [two];
  }

  /** A live row that still has a clock is aged out, in some continuation, under a
      lease that has its whole time to run, however small the skew and the gap: it is
      read when its old clock has reached the grace window, leased and removed. */
  lemma RevivedRowHasOldClock(env: Env, steps: seq<Step>, k: Key)
    requires Possible(env, steps)
    requires k in End(steps).rows && !End(steps).rows[k].stale && End(steps).rows[k].staleAt.Some?
    ensures exists run ::
              steps <= run && Possible(env, run) && Spares(run, |steps|, k) && !LeasesEndFirst(env, End(run), k)
  {
    var before, read := ReadWhenDue(env, steps, k);
    var now := End(before).now;
    LeasedAndMarked(env, End(before), k, read);
    var run := AddTwoSpared(env, before, |steps|, Acquire("", read, now), Sync(Mark(k, now)), k);
    assert steps <= run;
  }

  lemma {:induction false} CleanFrom(run: seq<Step>, n: nat, k: Key)
    requires n <= |run| && Clean(run[..n], k) && Spares(run, n, k)
    ensures Clean(run, k)
    decreases |run|
  {
    if n == |run| {
      assert run[..n] == run;
    } else {
      var init := run[..|run| - 1];
      assert init[..n] == run[..n];
      assert forall j :: 0 <= j < |init| ==> init[..j] == run[..j];
      CleanFrom(init, n, k);
    }
  }

  /** When a row is uploaded, its leases are safe in all that follows, but for later
      revivals, if and only if the upload does not hit a stale row. */
  lemma UploadIsSafeExactly(env: Env, steps: seq<Step>, k: Key, upload: Step)
    requires Possible(env, steps) && Clean(steps, k) && WithinMargin(env)
    requires upload.Sync? && upload.op.Upsert? && upload.op.key == k
    ensures (forall run :: steps + [upload] <= run && Possible(env, run) && Spares(run, |steps| + 1, k) ==>
               LeasesEndFirst(env, End(run), k))
       <==> !(k in End(steps).rows && End(steps).rows[k].stale)
  {
    var after := steps + [upload];
    AddStep(env, steps, upload, k);
    if Revives(End(steps), upload, k) {
      RunKeepsRow(env, steps, k);
      RevivedRowHasOldClock(env, after, k);
    } else {
      forall run | after <= run && Possible(env, run) && Spares(run, |after|, k)
        ensures LeasesEndFirst(env, End(run), k)
      {
        assert run[..|after|] == after;
        CleanFrom(run, |after|, k);
        GraceOutlivesLeases(env, run, k);
      }
    }
  }
}
