/**
 Reclaiming stale skills: the engine of
 `packages/llm/src/tools/anthropic-skill-gc-engine.ts`. Everything it asks of the
 database, the switch and the remote service is a call; the world may change
 between any two of them and answers each call as it likes.
 */
module SkillGc {
  import opened Wrappers
  import opened SkillSync
  import SkillGrace

  datatype Call =
    | OptIn(on: bool)
    | CountLeases(skill: string, active: nat)
    | ListVersions(skill: string, versions: Option<seq<string>>)
    | DeleteVersion(skill: string, version: string, ok: bool)
    | DeleteSkill(skill: string, ok: bool)
    | DropRows(skill: string, ok: bool)

  type Log = seq<Call>

  /** How the world answers, given everything that was asked before. */
  datatype World = World(
    optIn: Log -> bool,
    leases: (Log, string) -> nat,
    versions: (Log, string) -> Option<seq<string>>,
    deletesVersion: (Log, string, string) -> bool,
    deletesSkill: (Log, string) -> bool,
    dropsRows: (Log, string) -> bool)

  datatype Reason = NonStaleRow | MissingStaleAt | WithinGrace | ActiveLease | ActiveLeaseRecheck | GlobalOff

  /** Why the rows of a skill keep it from being reclaimed, if they do. */
  function Judge(rows: seq<Row>, now: int): Option<Reason> {
    if exists i :: 0 <= i < |rows| && !rows[i].stale then Some(NonStaleRow)
    else if exists i :: 0 <= i < |rows| && rows[i].staleAt.None? then Some(MissingStaleAt)
    else if exists i :: 0 <= i < |rows| && rows[i].staleAt.value > now - SkillGrace.GRACE_MS then Some(WithinGrace)
    else None
  }

  /** A skill may be reclaimed by age exactly when every row of it is aged out. */
  lemma JudgedByAge(rows: seq<Row>, now: int)
    ensures Judge(rows, now).None? <==> forall i :: 0 <= i < |rows| ==> SkillGrace.AgedOut(rows[i], now)
  {
  }

  function RowsAt(t: Table, keys: seq<Key>): seq<Row>
    requires forall k :: k in keys ==> k in t
  {
    seq(|keys|, i requires 0 <= i < |keys| => assert keys[i] in keys; t[keys[i]])
  }

  /** A skill the engine would reclaim by age alone has no active lease on any of its
      rows that was not revived since it was inserted, whatever became of other
      rows: for those the lease count only ever tightens the rule. */
  lemma AgeImpliesUnleased(env: SkillGrace.Env, steps: seq<SkillGrace.Step>, keys: seq<Key>, clock: int,
          l: SkillGrace.Lease)
    requires SkillGrace.Possible(env, steps) && SkillGrace.Clean(steps, l.read.key) && SkillGrace.WithinMargin(env)
    requires SkillGrace.Near(env, clock, SkillGrace.End(steps).now)
    requires forall k :: k in keys ==> k in SkillGrace.End(steps).rows
    requires Judge(RowsAt(SkillGrace.End(steps).rows, keys), clock).None?
    requires l in SkillGrace.End(steps).leases && l.read.key in keys
    ensures !SkillGrace.IsActive(l, clock)
  {
    var s := SkillGrace.End(steps);
    SkillGrace.GraceOutlivesLeases(env, steps, l.read.key);
    JudgedByAge(RowsAt(s.rows, keys), clock);
    var i :| 0 <= i < |keys| && keys[i] == l.read.key;
    assert RowsAt(s.rows, keys)[i] == s.rows[l.read.key];
  }

  lemma NotGlobalOff(rows: seq<Row>, now: int)
    ensures Judge(rows, now) != Some(GlobalOff)
  {
  }

  // -------------------------------------------------------- what a log must keep

  /** The switch was on when it was last read. */
  function LastOptIn(log: Log): bool {
    if log == [] then false
    else if log[|log| - 1].OptIn? then log[|log| - 1].on
    else LastOptIn(log[..|log| - 1])
  }

  /** The leases last counted for the skill were none. */
  function LastCount(log: Log, skill: string): Option<nat> {
    if log == [] then None
    else if log[|log| - 1].CountLeases? && log[|log| - 1].skill == skill then Some(log[|log| - 1].active)
    else LastCount(log[..|log| - 1], skill)
  }

  predicate DeletedSince(log: Log, start: nat, skill: string, versions: seq<string>) {
    start <= |log| && forall v :: v in versions ==> DeleteVersion(skill, v, true) in log[start..]
  }

  /** Every version listed has been deleted. */
  ghost predicate VersionsGone(log: Log, skill: string) {
    exists i: nat, versions ::
      i < |log| && log[i] == ListVersions(skill, Some(versions)) && DeletedSince(log, i, skill, versions)
  }

  /** What has to stand in the log before a call is made. */
  ghost predicate Guarded(before: Log, c: Call, eligible: set<string>) {
    match c
    case DeleteVersion(skill, _, _) =>
      LastOptIn(before) && LastCount(before, skill) == Some(0) && skill in eligible
    case DeleteSkill(skill, _) =>
      LastOptIn(before) && LastCount(before, skill) == Some(0) && skill in eligible && VersionsGone(before, skill)
    case DropRows(skill, _) => before != [] && before[|before| - 1] == DeleteSkill(skill, true)
    case _ => true
  }

  ghost predicate GuardedAt(log: Log, i: nat, eligible: set<string>) {
    i < |log| ==> Guarded(log[..i], log[i], eligible)
  }

  ghost predicate AllGuarded(log: Log, eligible: set<string>) {
    forall i: nat :: GuardedAt(log, i, eligible)
  }

  lemma OneMoreCall(log: Log, c: Call, eligible: set<string>)
    requires AllGuarded(log, eligible) && Guarded(log, c, eligible)
    ensures AllGuarded(log + [c], eligible)
    ensures LastOptIn(log + [c]) == if c.OptIn? then c.on else LastOptIn(log)
    ensures forall s ::
              LastCount(log + [c], s) == if c.CountLeases? && c.skill == s then Some(c.active) else LastCount(log, s)
  {
    var more := log + [c];
    assert more[..|log|] == log;
    forall i: nat
      ensures GuardedAt(more, i, eligible)
    {
      assert GuardedAt(log, i, eligible);
      if i < |log| {
        assert more[..i] == log[..i];
      }
    }
  }

  // ------------------------------------------------------- one pass, step by step

  datatype Outcome = Reclaimed | Skipped(reason: Reason) | Failed

  datatype Progress = AllGone | SwitchedOff | CallFailed

  /** Count, switch, count again: the log after it and what speaks against. */
  function Checked(w: World, log: Log, skill: string): (Log, Option<Reason>) {
    var counted := log + [CountLeases(skill, w.leases(log, skill))];
    if w.leases(log, skill) > 0 then (counted, Some(ActiveLease))
    else
      var switched := counted + [OptIn(w.optIn(counted))];
      if !w.optIn(counted) then (switched, Some(GlobalOff))
      else
        var again := switched + [CountLeases(skill, w.leases(switched, skill))];
        (again, if w.leases(switched, skill) > 0 then Some(ActiveLeaseRecheck) else None)
  }

  /** One version after the other, the switch before each. */
  function VersionsDeleted(w: World, log: Log, skill: string, versions: seq<string>): (Log, Progress) {
    if versions == [] then (log, AllGone)
    else
      var n := |versions| - 1;
      var before := VersionsDeleted(w, log, skill, versions[..n]);
      if before.1 != AllGone then before
      else
        var switched := before.0 + [OptIn(w.optIn(before.0))];
        if !w.optIn(before.0) then (switched, SwitchedOff)
        else
          var ok := w.deletesVersion(switched, skill, versions[n]);
          (switched + [DeleteVersion(skill, versions[n], ok)], if ok then AllGone else CallFailed)
  }

  /** Switch, count, skill, rows. */
  function SkillDeleted(w: World, log: Log, skill: string): (Log, Outcome) {
    var switched := log + [OptIn(w.optIn(log))];
    if !w.optIn(log) then (switched, Skipped(GlobalOff))
    else
      var counted := switched + [CountLeases(skill, w.leases(switched, skill))];
      if w.leases(switched, skill) > 0 then (counted, Skipped(ActiveLeaseRecheck))
      else
        var deleted := counted + [DeleteSkill(skill, w.deletesSkill(counted, skill))];
        if !w.deletesSkill(counted, skill) then (deleted, Failed)
        else
          var dropped := w.dropsRows(deleted, skill);
          (deleted + [DropRows(skill, dropped)], if dropped then Reclaimed else Failed)
  }

  function RemoteDeleted(w: World, log: Log, skill: string): (Log, Outcome) {
    var versions := w.versions(log, skill);
    var listed := log + [ListVersions(skill, versions)];
    if versions.None? then (listed, Failed)
    else
      var (after, progress) := VersionsDeleted(w, listed, skill, versions.value);
      match progress
      case CallFailed => (after, Failed)
      case SwitchedOff => (after, Skipped(GlobalOff))
      case AllGone => SkillDeleted(w, after, skill)
  }

  function Handled(w: World, log: Log, skill: string, rows: seq<Row>, now: int): (Log, Outcome) {
    if Judge(rows, now).Some? then (log, Skipped(Judge(rows, now).value))
    else
      var (checked, reason) := Checked(w, log, skill);
      if reason.Some? then (checked, Skipped(reason.value)) else RemoteDeleted(w, checked, skill)
  }

  type Report = seq<(string, Outcome)>

  predicate EndsSwitchedOff(report: Report) {
    report != [] && report[|report| - 1].1 == Skipped(GlobalOff)
  }

  /** The skills in turn, until the switch is found off. */
  function AllHandled(w: World, log: Log, skills: seq<string>, rows: seq<Row>, now: int): (Log, Report) {
    if skills == [] then (log, [])
    else
      var n := |skills| - 1;
      var before := AllHandled(w, log, skills[..n], rows, now);
      if EndsSwitchedOff(before.1) then before
      else
        var (after, outcome) := Handled(w, before.0, skills[n], RowsOf(rows, skills[n]), now);
        (after, before.1 + [(skills[n], outcome)])
  }

  /** The whole call. */
  function Collected(w: World, rows: seq<Row>, now: int): (Log, Report) {
    var start := [OptIn(w.optIn([]))];
    if !w.optIn([]) then (start, []) else AllHandled(w, start, Skills(rows), rows, now)
  }

  /** Every skill of the namespace gets its outcome, in order, up to the first one
      that finds the switch off. */
  lemma {:induction false} EverySkillIsReported(w: World, log: Log, skills: seq<string>, rows: seq<Row>, now: int)
    ensures var report := AllHandled(w, log, skills, rows, now).1;
            && |report| <= |skills|
            && (forall i :: 0 <= i < |report| ==> report[i].0 == skills[i])
            && (|report| < |skills| ==> EndsSwitchedOff(report))
  {
    if skills != [] {
      EverySkillIsReported(w, log, skills[..|skills| - 1], rows, now);
    }
  }

  lemma LastReported(w: World, log: Log, skills: seq<string>, rows: seq<Row>, now: int)
    requires skills != []
    ensures var n := |skills| - 1;
            var before, report := AllHandled(w, log, skills[..n], rows, now), AllHandled(w, log, skills, rows, now).1;
            report == before.1 ||
            report == before.1 + [(skills[n], Handled(w, before.0, skills[n], RowsOf(rows, skills[n]), now).1)]
  {
  }

  /** A row that speaks against a skill decides its outcome, whatever else happens. */
  lemma {:induction false} IneligibleIsSkipped(w: World, log: Log, skills: seq<string>, rows: seq<Row>, now: int,
          i: nat)
    requires i < |AllHandled(w, log, skills, rows, now).1| && i < |skills|
    requires Judge(RowsOf(rows, skills[i]), now).Some?
    ensures AllHandled(w, log, skills, rows, now).1[i]
        == (skills[i], Skipped(Judge(RowsOf(rows, skills[i]), now).value))
  {
    var n := |skills| - 1;
    var before := AllHandled(w, log, skills[..n], rows, now);
    LastReported(w, log, skills, rows, now);
    EverySkillIsReported(w, log, skills[..n], rows, now);
    if i < |before.1| {
      IneligibleIsSkipped(w, log, skills[..n], rows, now, i);
    } else {
      EverySkillIsReported(w, log, skills, rows, now);
    }
  }

  /** A deletion that failed is on record as the last call. */
  lemma {:induction false} FailureIsLogged(w: World, log: Log, skill: string, versions: seq<string>)
    requires VersionsDeleted(w, log, skill, versions).1 == CallFailed
    ensures var after := VersionsDeleted(w, log, skill, versions).0;
            after != [] && exists v :: v in versions && after[|after| - 1] == DeleteVersion(skill, v, false)
  {
    var n := |versions| - 1;
    if VersionsDeleted(w, log, skill, versions[..n]).1 == CallFailed {
      FailureIsLogged(w, log, skill, versions[..n]);
      var after := VersionsDeleted(w, log, skill, versions).0;
      var v :| v in versions[..n] && after[|after| - 1] == DeleteVersion(skill, v, false);
      assert v in versions;
    } else {
      assert versions[n] in versions;
    }
  }

  /** Nothing is in the way: the switch stays on, no lease, and every call works. */
  ghost predicate Favourable(w: World) {
    && (forall log :: w.optIn(log))
    && (forall log, skill :: w.leases(log, skill) == 0)
    && (forall log, skill :: w.versions(log, skill).Some?)
    && (forall log, skill, v :: w.deletesVersion(log, skill, v))
    && (forall log, skill :: w.deletesSkill(log, skill) && w.dropsRows(log, skill))
  }

  lemma {:induction false} FavourableVersions(w: World, log: Log, skill: string, versions: seq<string>)
    requires Favourable(w)
    ensures VersionsDeleted(w, log, skill, versions).1 == AllGone
  {
    if versions != [] {
      FavourableVersions(w, log, skill, versions[..|versions| - 1]);
    }
  }

  lemma FavourableSkill(w: World, log: Log, skill: string, rows: seq<Row>, now: int)
    requires Favourable(w)
    ensures Handled(w, log, skill, rows, now).1
         == if Judge(rows, now).Some? then Skipped(Judge(rows, now).value) else Reclaimed
  {
    if Judge(rows, now).None? {
      var checked := Checked(w, log, skill).0;
      assert Checked(w, log, skill).1.None?;
      var listed := checked + [ListVersions(skill, w.versions(checked, skill))];
      FavourableVersions(w, listed, skill, w.versions(checked, skill).value);
    }
    NotGlobalOff(rows, now);
  }

  lemma {:induction false} FavourableAll(w: World, log: Log, skills: seq<string>, rows: seq<Row>, now: int)
    requires Favourable(w)
    ensures var report := AllHandled(w, log, skills, rows, now).1;
            && |report| == |skills|
            && forall i :: 0 <= i < |skills| ==>
                 report[i] == (skills[i], if Judge(RowsOf(rows, skills[i]), now).Some?
                                          then Skipped(Judge(RowsOf(rows, skills[i]), now).value) else Reclaimed)
  {
    if skills != [] {
      var n := |skills| - 1;
      FavourableAll(w, log, skills[..n], rows, now);
      if n > 0 {
        NotGlobalOff(RowsOf(rows, skills[n - 1]), now);
      }
      FavourableSkill(w, AllHandled(w, log, skills[..n], rows, now).0, skills[n], RowsOf(rows, skills[n]), now);
    }
  }

  /** With nothing in the way, exactly the eligible skills are reclaimed, and every
      other one is reported with the reason its rows give. */
  lemma FavourablePassReclaims(w: World, rows: seq<Row>, now: int)
    requires Favourable(w)
    ensures var report := Collected(w, rows, now).1;
            && |report| == |Skills(rows)|
            && forall i :: 0 <= i < |report| ==>
                 && report[i].0 == Skills(rows)[i]
                 && (report[i].1 == Reclaimed <==> report[i].0 in Eligible(rows, now))
                 && (report[i].1 != Reclaimed ==> report[i].1 == Skipped(Judge(RowsOf(rows, report[i].0), now).value))
  {
    FavourableAll(w, [OptIn(true)], Skills(rows), rows, now);
    assert w.optIn([]);
  }

  // ------------------------------------------------------------------- the engine

  class Engine {
    const world: World
    var log: Log

    constructor (world: World)
      ensures this.world == world && log == []
    {
      this.world := world;
      log := [];
    }

    /** Makes a call the log allows. */
    method Record(c: Call, ghost eligible: set<string>)
      requires AllGuarded(log, eligible) && Guarded(log, c, eligible)
      modifies this`log
      ensures AllGuarded(log, eligible) && log == old(log) + [c]
      ensures LastOptIn(log) == if c.OptIn? then c.on else LastOptIn(old(log))
      ensures forall s ::
                LastCount(log, s) == if c.CountLeases? && c.skill == s then Some(c.active) else LastCount(old(log), s)
    {
      OneMoreCall(log, c, eligible);
      log := log + [c];
    }

    method ReadOptIn(ghost eligible: set<string>) returns (on: bool)
      requires AllGuarded(log, eligible)
      modifies this`log
      ensures AllGuarded(log, eligible) && log == old(log) + [OptIn(on)]
          && LastOptIn(log) == on == world.optIn(old(log))
      ensures forall s :: LastCount(log, s) == LastCount(old(log), s)
    {
      on := world.optIn(log);
      Record(OptIn(on), eligible);
    }

    method CountActive(skill: string, ghost eligible: set<string>) returns (n: nat)
      requires AllGuarded(log, eligible)
      modifies this`log
      ensures AllGuarded(log, eligible) && log == old(log) + [CountLeases(skill, n)]
          && n == world.leases(old(log), skill)
      ensures LastOptIn(log) == LastOptIn(old(log)) && LastCount(log, skill) == Some(n)
    {
      n := world.leases(log, skill);
      Record(CountLeases(skill, n), eligible);
    }

    /** Reads the switch and, if it is on, deletes one version. */
    method DeleteOne(skill: string, version: string, ghost eligible: set<string>) returns (on: bool, ok: bool)
      requires AllGuarded(log, eligible) && LastCount(log, skill) == Some(0) && skill in eligible
      modifies this`log
      ensures AllGuarded(log, eligible) && LastCount(log, skill) == Some(0)
      ensures !on ==> log == old(log) + [OptIn(false)] && !LastOptIn(log)
      ensures on ==> log == old(log) + [OptIn(true)] + [DeleteVersion(skill, version, ok)]
      ensures on == world.optIn(old(log))
          && (on ==> ok == world.deletesVersion(old(log) + [OptIn(true)], skill, version))
    {
      ok := false;
      on := ReadOptIn(eligible);
      if on {
        ok := world.deletesVersion(log, skill, version);
        Record(DeleteVersion(skill, version, ok), eligible);
      }
    }

    /** Deletes the listed versions one by one, reading the switch before each. */
    method DeleteVersions(skill: string, versions: seq<string>, ghost eligible: set<string>)
      returns (progress: Progress)
      requires AllGuarded(log, eligible) && LastCount(log, skill) == Some(0) && skill in eligible
      requires log != [] && log[|log| - 1] == ListVersions(skill, Some(versions))
      modifies this`log
      ensures AllGuarded(log, eligible) && old(log) <= log && LastCount(log, skill) == Some(0)
      ensures progress == AllGone ==> VersionsGone(log, skill)
      ensures progress == SwitchedOff ==> !LastOptIn(log)
      ensures (log, progress) == VersionsDeleted(world, old(log), skill, versions)
    {
      ghost var start := |log| - 1;
      for i := 0 to |versions|
        invariant AllGuarded(log, eligible) && old(log) <= log && LastCount(log, skill) == Some(0)
        invariant DeletedSince(log, start, skill, versions[..i])
        invariant (log, AllGone) == VersionsDeleted(world, old(log), skill, versions[..i])
      {
        ghost var before := log;
        assert versions[..i + 1][..i] == versions[..i];
        var on, ok := DeleteOne(skill, versions[i], eligible);
        if !on || !ok {
          StopsThere(world, old(log), skill, versions, i + 1);
          return if !on then SwitchedOff else CallFailed;
        }
        OneMoreDeleted(before, before + [OptIn(true)], start, skill, versions, i);
      }
      assert versions[..|versions|] == versions;
      assert log[start] == ListVersions(skill, Some(versions));
      return AllGone;
    }

    /** Decides on one skill and, if nothing speaks against it, reclaims it. */
    method ReclaimOne(skill: string, rows: seq<Row>, now: int, ghost eligible: set<string>) returns (outcome: Outcome)
      requires AllGuarded(log, eligible)
      requires skill in eligible <==> Judge(rows, now).None?
      modifies this`log
      ensures AllGuarded(log, eligible) && old(log) <= log
      ensures (log, outcome) == Handled(world, old(log), skill, rows, now)
      ensures outcome.Reclaimed? ==> log != [] && log[|log| - 1] == DropRows(skill, true)
      ensures outcome == Skipped(GlobalOff) ==> !LastOptIn(log)
    {
      var verdict := Judge(rows, now);
      if verdict.Some? {
        NotGlobalOff(rows, now);
        return Skipped(verdict.value);
      }
      var reason := CheckLeases(skill, eligible);
      if reason.Some? {
        return Skipped(reason.value);
      }
      outcome := DeleteRemote(skill, eligible);
    }

    /** The counts and the reading of the switch before anything is deleted. */
    method CheckLeases(skill: string, ghost eligible: set<string>) returns (reason: Option<Reason>)
      requires AllGuarded(log, eligible)
      modifies this`log
      ensures AllGuarded(log, eligible) && old(log) <= log
      ensures (log, reason) == Checked(world, old(log), skill)
      ensures reason.None? ==> LastCount(log, skill) == Some(0)
      ensures reason == Some(GlobalOff) ==> !LastOptIn(log)
    {
      var count := CountActive(skill, eligible);
      if count > 0 {
        return Some(ActiveLease);
      }
      var on := ReadOptIn(eligible);
      if !on {
        return Some(GlobalOff);
      }
      count := CountActive(skill, eligible);
      reason := if count > 0 then Some(ActiveLeaseRecheck) else None;
    }

    method DeleteRemote(skill: string, ghost eligible: set<string>) returns (outcome: Outcome)
      requires AllGuarded(log, eligible) && LastCount(log, skill) == Some(0) && skill in eligible
      modifies this`log
      ensures AllGuarded(log, eligible) && old(log) <= log
      ensures (log, outcome) == RemoteDeleted(world, old(log), skill)
      ensures outcome.Reclaimed? ==> log != [] && log[|log| - 1] == DropRows(skill, true)
      ensures outcome == Skipped(GlobalOff) ==> !LastOptIn(log)
    {
      var versions := world.versions(log, skill);
      Record(ListVersions(skill, versions), eligible);
      if versions.None? {
        return Failed;
      }
      var progress := DeleteVersions(skill, versions.value, eligible);
      if progress == CallFailed {
        return Failed;
      }
      if progress == SwitchedOff {
        return Skipped(GlobalOff);
      }
      outcome := DeleteEmptied(skill, eligible);
    }

    /** Deletes a skill whose versions are gone, and then its rows. */
    method DeleteEmptied(skill: string, ghost eligible: set<string>) returns (outcome: Outcome)
      requires AllGuarded(log, eligible) && skill in eligible && VersionsGone(log, skill)
      modifies this`log
      ensures AllGuarded(log, eligible) && old(log) <= log
      ensures (log, outcome) == SkillDeleted(world, old(log), skill)
      ensures outcome.Reclaimed? ==> log != [] && log[|log| - 1] == DropRows(skill, true)
      ensures outcome == Skipped(GlobalOff) ==> !LastOptIn(log)
    {
      var on := ReadOptIn(eligible);
      if !on {
        return Skipped(GlobalOff);
      }
      var count := CountActive(skill, eligible);
      if count > 0 {
        return Skipped(ActiveLeaseRecheck);
      }
      StillGone(old(log), log, skill);
      var ok := world.deletesSkill(log, skill);
      Record(DeleteSkill(skill, ok), eligible);
      if !ok {
        return Failed;
      }
      var dropped := world.dropsRows(log, skill);
      Record(DropRows(skill, dropped), eligible);
      outcome := if dropped then Reclaimed else Failed;
    }

    /** One pass over the namespace. Switched off, it asks nothing further; while
        it runs, every deletion stands under the switch, a lease count of zero
        and the age of all rows of its skill, and rows are dropped only after
        the remote skill is gone. */
    method Collect(rows: seq<Row>, now: int) returns (report: Report)
      requires log == []
      modifies this`log
      ensures (log, report) == Collected(world, rows, now)
      ensures AllGuarded(log, Eligible(rows, now))
      ensures log != [] && log[0].OptIn? && (!log[0].on ==> |log| == 1 && report == [])
      ensures forall i :: 0 <= i < |report| && report[i].1.Reclaimed? ==>
                report[i].0 in Eligible(rows, now) && DropRows(report[i].0, true) in log
    {
      report := [];
      ghost var eligible := Eligible(rows, now);
      var on := ReadOptIn(eligible);
      assert log == [OptIn(on)];
      if !on {
        return;
      }
      ghost var start := log;
      var skills := Skills(rows);
      for n := 0 to |skills|
        invariant AllGuarded(log, eligible) && log != [] && log[0] == OptIn(true)
        invariant !EndsSwitchedOff(report) && (log, report) == AllHandled(world, start, skills[..n], rows, now)
        invariant forall i :: 0 <= i < |report| && report[i].1.Reclaimed? ==>
                    report[i].0 in eligible && DropRows(report[i].0, true) in log
      {
        var skill := skills[n];
        assert skills[..n + 1][..n] == skills[..n];
        var outcome := ReclaimOne(skill, RowsOf(rows, skill), now, eligible);
        report := report + [(skill, outcome)];
        if outcome == Skipped(GlobalOff) {
          ReportEnds(world, start, skills, rows, now, n + 1);
          return;
        }
      }
      assert skills[..|skills|] == skills;
    }
  }

  lemma {:induction false} StopsThere(w: World, log: Log, skill: string, versions: seq<string>, n: nat)
    requires n <= |versions| && VersionsDeleted(w, log, skill, versions[..n]).1 != AllGone
    ensures VersionsDeleted(w, log, skill, versions) == VersionsDeleted(w, log, skill, versions[..n])
    decreases |versions|
  {
    if n == |versions| {
      assert versions[..n] == versions;
    } else {
      var init := versions[..|versions| - 1];
      assert init[..n] == versions[..n];
      StopsThere(w, log, skill, init, n);
    }
  }

  lemma {:induction false} ReportEnds(w: World, log: Log, skills: seq<string>, rows: seq<Row>, now: int, n: nat)
    requires n <= |skills| && EndsSwitchedOff(AllHandled(w, log, skills[..n], rows, now).1)
    ensures AllHandled(w, log, skills, rows, now) == AllHandled(w, log, skills[..n], rows, now)
    decreases |skills|
  {
    if n == |skills| {
      assert skills[..n] == skills;
    } else {
      var init := skills[..|skills| - 1];
      assert init[..n] == skills[..n];
      ReportEnds(w, log, init, rows, now, n);
    }
  }

  lemma StillDeleted(before: Log, after: Log, start: nat, skill: string, versions: seq<string>)
    requires before <= after && DeletedSince(before, start, skill, versions)
    ensures DeletedSince(after, start, skill, versions)
  {
    forall v | v in versions
      ensures DeleteVersion(skill, v, true) in after[start..]
    {
      var i :| 0 <= i < |before[start..]| && before[start..][i] == DeleteVersion(skill, v, true);
      assert after[start..][i] == before[start..][i];
    }
  }

  lemma StillGone(before: Log, after: Log, skill: string)
    requires before <= after && VersionsGone(before, skill)
    ensures VersionsGone(after, skill)
  {
    var i: nat, versions :| i < |before| && before[i] == ListVersions(skill, Some(versions))
        && DeletedSince(before, i, skill, versions);
    assert after[i] == before[i];
    StillDeleted(before, after, i, skill, versions);
  }

  /** One more version deleted. */
  lemma OneMoreDeleted(first: Log, before: Log, start: nat, skill: string, versions: seq<string>, n: nat)
    requires n < |versions| && start <= |first| && first <= before && DeletedSince(first, start, skill, versions[..n])
    ensures DeletedSince(before + [DeleteVersion(skill, versions[n], true)], start, skill, versions[..n + 1])
  {
    var after := before + [DeleteVersion(skill, versions[n], true)];
    StillDeleted(first, after, start, skill, versions[..n]);
    assert after[start..][|before| - start] == DeleteVersion(skill, versions[n], true);
    assert versions[..n + 1] == versions[..n] + [versions[n]];
  }

  // ---------------------------------------------------------- grouping by skill

  function RowsOf(rows: seq<Row>, skill: string): seq<Row> {
    if rows == [] then []
    else (if rows[0].skillId == skill then [rows[0]] else []) + RowsOf(rows[1..], skill)
  }

  /** The remote skills of the namespace, in the order of their first rows. */
  function Skills(rows: seq<Row>): (r: seq<string>)
    ensures forall s :: s in r <==> exists i :: 0 <= i < |rows| && rows[i].skillId == s
  {
    if rows == [] then []
    else
      var last := rows[|rows| - 1];
      var before := Skills(rows[..|rows| - 1]);
      if last.skillId in before then before else before + [last.skillId]
  }

  lemma {:induction false} RowsOfAll(rows: seq<Row>, skill: string)
    ensures forall r :: r in RowsOf(rows, skill) <==> r in rows && r.skillId == skill
  {
    if rows != [] {
      RowsOfAll(rows[1..], skill);
    }
  }

  /** Skills none of whose rows is live, undated or younger than the grace window. */
  ghost function Eligible(rows: seq<Row>, now: int): set<string> {
    set s | s in Skills(rows) && Judge(RowsOf(rows, s), now).None?
  }
}
