/**
 What the first hot reload does to the agents mounted at startup. Startup labels
 an agent by its OAS package name, reload by its disk path; see
 `docker/wayflow/agent_loader.py`.
 */
module StartupReload {
  import opened Wrappers
  import opened ReloadSpec
  import opened Discovery

  /** Later directories win, as in the dictionaries built from the walks. */
  function Fingerprints(found: seq<Found>): map<Name, string> {
    if found == [] then map[]
    else
      var last := found[|found| - 1];
      Fingerprints(found[..|found| - 1])[last.name := last.fingerprint]
  }

  function ScanOf(walk: Walk): Scan
    requires walk.Walked?
  {
    Scan(Fingerprints(walk.valid), set u | u in walk.failed :: u.name)
  }

  /** The live table serves exactly these labels at these fingerprints. */
  ghost predicate ServesExactly(active: Table, prints: map<Name, string>) {
    active.Keys == prints.Keys && forall n :: n in active ==> active[n].fingerprint == prints[n]
  }

  ghost predicate NothingToDo(active: Table, scan: Scan) {
    && (forall n :: !NeedsMount(active, scan, n))
    && RemovedLabels(active, scan) == {}
  }

  /** Having nothing to do is being the identity, whatever mounts would do. */
  lemma NothingToDoIsIdentity(active: Table, scan: Scan, attempts: Attempts)
    requires Honest(active, scan, attempts) && Complete(active, scan, attempts)
    ensures NothingToDo(active, scan)
            <==> attempts == map[] && RemovedLabels(active, scan) == {} && Reloaded(active, scan, attempts) == active
  {
    if NothingToDo(active, scan) {
      assert attempts.Keys == {};
      var after := Reloaded(active, scan, attempts);
      forall n | n in active.Keys + scan.valid.Keys
        ensures Outcome(active, scan, attempts, n) == Lookup(active, n)
      {
        if n in active {
          assert n !in RemovedLabels(active, scan);
        }
      }
      assert after.Keys == active.Keys;
    }
  }

  /** The package name of every agent this reload would mount is its disk path. */
  ghost predicate Aligned(env: Env, disk: Disk) {
    forall e :: e in disk.listing && ReloadVerdict(env, e, DirAt(disk, e.dir), false).Mountable? ==>
      OasLabel(env.parse(DirAt(disk, e.dir).oas.value.bytes)) == Some(DiskLabel(e))
  }

  /** Directories with the same label are the same entry (no symlinked twins). */
  ghost predicate DistinctLabels(disk: Disk) {
    forall d, e :: d in disk.listing && e in disk.listing && DiskLabel(d) == DiskLabel(e) ==> d == e
  }

  ghost predicate NothingEscapes(disk: Disk) {
    forall e :: e in disk.listing && DirAt(disk, e.dir).oas.There? ==> DirAt(disk, e.dir).oas.value.contained
  }

  ghost predicate CollisionFree(env: Env) {
    forall a, b :: env.hash(a) == env.hash(b) ==> a == b
  }

  lemma {:induction false} FingerprintsFrom(found: seq<Found>, n: Name)
    ensures n in Fingerprints(found) <==> exists f :: f in found && f.name == n
    ensures n in Fingerprints(found) ==>
              exists f :: f in found && f.name == n && f.fingerprint == Fingerprints(found)[n]
  {
    if found != [] {
      var k := |found| - 1;
      FingerprintsFrom(found[..k], n);
      assert found == found[..k] + [found[k]];
    }
  }

  lemma MountableAtStartup(env: Env, e: Entry, d: Dir, mounted: bool)
    requires ReloadVerdict(env, e, d, mounted).Mountable?
    ensures ReloadVerdict(env, e, d, false) == ReloadVerdict(env, e, d, mounted)
    ensures var name := OasLabel(env.parse(d.oas.value.bytes));
            name.Some? ==>
              StartupVerdict(env, e, d) == Mounts(name.value, ReloadVerdict(env, e, d, mounted).fingerprint)
  {
  }

  lemma StartupIsMountable(env: Env, e: Entry, d: Dir, mounted: bool)
    requires StartupVerdict(env, e, d).Mounts? && d.oas.value.contained
    ensures ReloadVerdict(env, e, d, mounted) == Mountable(StartupVerdict(env, e, d).fingerprint)
    ensures OasLabel(env.parse(d.oas.value.bytes)) == Some(StartupVerdict(env, e, d).name)
    ensures StartupVerdict(env, e, d).fingerprint == env.hash(d.oas.value.bytes)
  {
  }

  /** Startup on an aligned disk mounts each agent under its disk label. */
  lemma AlignedStartup(env: Env, disk: Disk, mounted: set<Name>, n: Name)
    requires DistinctLabels(disk) && NothingEscapes(disk) && Aligned(env, disk)
    requires StartupWalk(env, disk, disk.listing).Started?
    requires ReloadWalk(env, disk, disk.listing, mounted).Walked?
    ensures var boot := Fingerprints(StartupWalk(env, disk, disk.listing).found);
            var valid := Fingerprints(ReloadWalk(env, disk, disk.listing, mounted).valid);
            (n in boot <==> n in valid) && (n in boot ==> boot[n] == valid[n])
  {
    var started := StartupWalk(env, disk, disk.listing).found;
    var found := ReloadWalk(env, disk, disk.listing, mounted).valid;
    FingerprintsFrom(started, n);
    FingerprintsFrom(found, n);
    StartupWalkMembers(env, disk, disk.listing);
    ReloadWalkMembers(env, disk, disk.listing, mounted);
    forall f | f in started
      ensures f in found
    {
      var e :| e in disk.listing && f.dir == e.dir
          && StartupVerdict(env, e, DirAt(disk, e.dir)) == Mounts(f.name, f.fingerprint);
      StartupIsMountable(env, e, DirAt(disk, e.dir), DiskLabel(e) in mounted);
      MountableAtStartup(env, e, DirAt(disk, e.dir), DiskLabel(e) in mounted);
      assert f.name == DiskLabel(e);
    }
    forall f | f in found
      ensures f in started
    {
      var e :| e in disk.listing && f.name == DiskLabel(e) && f.dir == e.dir
               && VerdictOn(env, disk, e, mounted) == Mountable(f.fingerprint);
      MountableAtStartup(env, e, DirAt(disk, e.dir), DiskLabel(e) in mounted);
    }
    forall f, g | f in found && g in found && f.name == g.name
      ensures f == g
    {
      var d :| d in disk.listing && f.name == DiskLabel(d) && f.dir == d.dir
               && VerdictOn(env, disk, d, mounted) == Mountable(f.fingerprint);
      var e :| e in disk.listing && g.name == DiskLabel(e) && g.dir == e.dir
               && VerdictOn(env, disk, e, mounted) == Mountable(g.fingerprint);
      assert d == e;
    }
  }

  lemma MountsWhatIsNamed(env: Env, e: Entry, d: Dir)
    requires StartupVerdict(env, e, d).Mounts?
    ensures d.oas.There? && env.hash(d.oas.value.bytes) == StartupVerdict(env, e, d).fingerprint
    ensures OasLabel(env.parse(d.oas.value.bytes)) == Some(StartupVerdict(env, e, d).name)
  {
  }

  /** If the reload leaves a mountable directory's label alone, some directory
      with the same bytes claimed that label at startup. */
  lemma ClaimedAtStartup(env: Env, disk: Disk, e: Entry)
    requires CollisionFree(env) && e in disk.listing && StartupWalk(env, disk, disk.listing).Started?
    requires ReloadVerdict(env, e, DirAt(disk, e.dir), false).Mountable?
    requires var boot := Fingerprints(StartupWalk(env, disk, disk.listing).found);
             DiskLabel(e) in boot && boot[DiskLabel(e)] == env.hash(DirAt(disk, e.dir).oas.value.bytes)
    ensures OasLabel(env.parse(DirAt(disk, e.dir).oas.value.bytes)) == Some(DiskLabel(e))
  {
    var started := StartupWalk(env, disk, disk.listing).found;
    var n := DiskLabel(e);
    FingerprintsFrom(started, n);
    StartupWalkMembers(env, disk, disk.listing);
    var f :| f in started && f.name == n && f.fingerprint == Fingerprints(started)[n];
    var d :| d in disk.listing && f.dir == d.dir
        && StartupVerdict(env, d, DirAt(disk, d.dir)) == Mounts(f.name, f.fingerprint);
    MountsWhatIsNamed(env, d, DirAt(disk, d.dir));
    assert DirAt(disk, d.dir).oas.value.bytes == DirAt(disk, e.dir).oas.value.bytes;
  }

  /** The first reload after a fully successful startup, on a disk nobody
      touched, leaves every agent alone exactly when each agent's package name
      is its disk path. Otherwise a serving agent is unmounted under its
      package name and mounted again under its path. */
  lemma FirstReloadIsIdle(env: Env, disk: Disk, active: Table)
    requires CollisionFree(env) && DistinctLabels(disk) && NothingEscapes(disk)
    requires StartupWalk(env, disk, disk.listing).Started?
    requires ServesExactly(active, Fingerprints(StartupWalk(env, disk, disk.listing).found))
    requires ReloadWalk(env, disk, disk.listing, active.Keys).Walked?
    ensures var scan := ScanOf(ReloadWalk(env, disk, disk.listing, active.Keys));
            NothingToDo(active, scan) <==> Aligned(env, disk)
  {
    var walk := ReloadWalk(env, disk, disk.listing, active.Keys);
    var scan := ScanOf(walk);
    var boot := Fingerprints(StartupWalk(env, disk, disk.listing).found);
    if Aligned(env, disk) {
      forall n
        ensures !NeedsMount(active, scan, n) && (n in active ==> Present(scan, n))
      {
        AlignedStartup(env, disk, active.Keys, n);
      }
    }
    if NothingToDo(active, scan) {
      ReloadWalkMembers(env, disk, disk.listing, active.Keys);
      forall e | e in disk.listing && ReloadVerdict(env, e, DirAt(disk, e.dir), false).Mountable?
        ensures OasLabel(env.parse(DirAt(disk, e.dir).oas.value.bytes)) == Some(DiskLabel(e))
      {
        MountableIsLive(env, disk, active, e);
        ClaimedAtStartup(env, disk, e);
      }
    }
  }

  lemma MountableIsLive(env: Env, disk: Disk, active: Table, e: Entry)
    requires DistinctLabels(disk) && e in disk.listing
    requires ReloadVerdict(env, e, DirAt(disk, e.dir), false).Mountable?
    requires ReloadWalk(env, disk, disk.listing, active.Keys).Walked?
    requires NothingToDo(active, ScanOf(ReloadWalk(env, disk, disk.listing, active.Keys)))
    ensures DiskLabel(e) in active && active[DiskLabel(e)].fingerprint == env.hash(DirAt(disk, e.dir).oas.value.bytes)
  {
    var walk := ReloadWalk(env, disk, disk.listing, active.Keys);
    var scan := ScanOf(walk);
    var n, fp := DiskLabel(e), env.hash(DirAt(disk, e.dir).oas.value.bytes);
    ReloadWalkMembers(env, disk, disk.listing, active.Keys);
    FingerprintsFrom(walk.valid, n);
    assert VerdictOn(env, disk, e, active.Keys) == Mountable(fp);
    assert Found(n, e.dir, fp) in walk.valid;
    assert n in scan.valid;
    var f :| f in walk.valid && f.name == n && f.fingerprint == scan.valid[n];
    assert !NeedsMount(active, scan, n);
  }

  // --------------------------------------------------- the walk of a second reload

  lemma {:induction false} SameValid(env: Env, disk: Disk, entries: seq<Entry>, a: set<Name>, b: set<Name>)
    requires ReloadWalk(env, disk, entries, a).Walked? && ReloadWalk(env, disk, entries, b).Walked?
    ensures ReloadWalk(env, disk, entries, a).valid == ReloadWalk(env, disk, entries, b).valid
  {
    if entries != [] {
      SameValid(env, disk, entries[..|entries| - 1], a, b);
    }
  }

  /** What failed while its label was mounted or not fails while it is, unless that
      raises. */
  lemma FailsMounted(env: Env, e: Entry, d: Dir, mounted: bool)
    requires ReloadVerdict(env, e, d, mounted).Failed? && !BreaksReload(env, e, d, true)
    ensures ReloadVerdict(env, e, d, true).Failed?
  {
    RaisedExactly(env, e, d, true);
  }

  /** What failed for a label that was mounted, or whatever is mounted, fails again
      while the label is mounted. */
  lemma FailsAgain(env: Env, disk: Disk, before: set<Name>, after: set<Name>, n: Name)
    requires ReloadWalk(env, disk, disk.listing, before).Walked? && ReloadWalk(env, disk, disk.listing, after).Walked?
    requires n in after && n in ScanOf(ReloadWalk(env, disk, disk.listing, before)).parseFailed
    ensures n in ScanOf(ReloadWalk(env, disk, disk.listing, after)).parseFailed
  {
    var e := FailedEntry(env, disk, before, n);
    ReloadAbortsExactly(env, disk, disk.listing, after);
    FailsMounted(env, e, DirAt(disk, e.dir), n in before);
    ReloadWalkMembers(env, disk, disk.listing, after);
    assert Unusable(n, VerdictOn(env, disk, e, after).hint) in ReloadWalk(env, disk, disk.listing, after).failed;
  }

  lemma FailedEntry(env: Env, disk: Disk, mounted: set<Name>, n: Name) returns (e: Entry)
    requires ReloadWalk(env, disk, disk.listing, mounted).Walked?
    requires n in ScanOf(ReloadWalk(env, disk, disk.listing, mounted)).parseFailed
    ensures e in disk.listing && n == DiskLabel(e) && VerdictOn(env, disk, e, mounted).Failed?
  {
    ReloadWalkMembers(env, disk, disk.listing, mounted);
    var u :| u in ReloadWalk(env, disk, disk.listing, mounted).failed && u.name == n;
    e :| e in disk.listing && n == DiskLabel(e) && VerdictOn(env, disk, e, mounted) == Failed(u.hint);
  }

  /** An unsigned draft whose in-progress marker cannot be looked up. */
  predicate HidesDraft(env: Env, d: Dir) {
    && IsParsed(d) && !env.parse(d.oas.value.bytes).NotJson?
    && d.inProgress.Hidden? && !IsSigned(env, d, d.oas.value.bytes)
  }

  /** Such a draft stands under a mounted label. Only then does the walk look. */
  predicate DraftIsHidden(env: Env, disk: Disk, mounted: set<Name>) {
    exists e :: e in disk.listing && DiskLabel(e) in mounted && HidesDraft(env, DirAt(disk, e.dir))
  }

  /** What mounting more labels adds to what makes the walk raise. */
  lemma AbortsWithMore(env: Env, disk: Disk, before: set<Name>, after: set<Name>)
    requires ReloadWalk(env, disk, disk.listing, before).Walked?
    ensures ReloadWalk(env, disk, disk.listing, after).Aborted? <==> DraftIsHidden(env, disk, after)
  {
    ReloadAbortsExactly(env, disk, disk.listing, before);
    ReloadAbortsExactly(env, disk, disk.listing, after);
    forall e | e in disk.listing
      ensures BreaksReload(env, e, DirAt(disk, e.dir), DiskLabel(e) in after)
         <==> DiskLabel(e) in after && HidesDraft(env, DirAt(disk, e.dir))
    {
      assert !BreaksReload(env, e, DirAt(disk, e.dir), DiskLabel(e) in before);
    }
  }

  /** On a volume that nobody touches, after a reload whose mounts all succeeded, the
      walk of the next reload gives it nothing to mount and nothing to remove. It may
      raise in one case: a draft under a label of which another directory was mounted
      by the first reload, so that only now its in-progress marker is looked up. */
  lemma SecondWalkFindsNothing(env: Env, disk: Disk, base: Table, attempts: Attempts)
    requires var walk := ReloadWalk(env, disk, disk.listing, base.Keys);
             && walk.Walked? && Honest(base, ScanOf(walk), attempts) && Complete(base, ScanOf(walk), attempts)
    requires forall l :: l in attempts ==> attempts[l].Some?
    ensures var after := Reloaded(base, ScanOf(ReloadWalk(env, disk, disk.listing, base.Keys)), attempts);
            var again := ReloadWalk(env, disk, disk.listing, after.Keys);
            && (again.Aborted? <==> DraftIsHidden(env, disk, after.Keys))
            && (again.Walked? ==> NothingToDo(after, ScanOf(again)))
  {
    var walk := ReloadWalk(env, disk, disk.listing, base.Keys);
    var scan := ScanOf(walk);
    var after := Reloaded(base, scan, attempts);
    var again := ReloadWalk(env, disk, disk.listing, after.Keys);
    AbortsWithMore(env, disk, base.Keys, after.Keys);
    if again.Walked? {
      SameValid(env, disk, disk.listing, base.Keys, after.Keys);
      forall n
        ensures !NeedsMount(after, ScanOf(again), n)
      {
        if n in scan.valid {
          Converges(base, scan, attempts, n);
        }
      }
      forall n | n in after
        ensures Present(ScanOf(again), n)
      {
        assert Outcome(base, scan, attempts, n).Some?;
        if n !in scan.valid {
          FailsAgain(env, disk, base.Keys, after.Keys, n);
        }
      }
    }
  }

  /** Where no two directories share a label, it never does. */
  lemma SecondWalkSucceeds(env: Env, disk: Disk, base: Table, attempts: Attempts)
    requires DistinctLabels(disk)
    requires var walk := ReloadWalk(env, disk, disk.listing, base.Keys);
             && walk.Walked? && Honest(base, ScanOf(walk), attempts) && Complete(base, ScanOf(walk), attempts)
    ensures !DraftIsHidden(env, disk,
        Reloaded(base, ScanOf(ReloadWalk(env, disk, disk.listing, base.Keys)), attempts).Keys)
  {
    var walk := ReloadWalk(env, disk, disk.listing, base.Keys);
    var after := Reloaded(base, ScanOf(walk), attempts);
    ReloadAbortsExactly(env, disk, disk.listing, base.Keys);
    ReloadWalkMembers(env, disk, disk.listing, base.Keys);
    forall e | e in disk.listing && DiskLabel(e) in after
      ensures !HidesDraft(env, DirAt(disk, e.dir))
    {
      var n := DiskLabel(e);
      assert !BreaksReload(env, e, DirAt(disk, e.dir), n in base.Keys);
      if n !in base {
        assert Outcome(base, ScanOf(walk), attempts, n).Some?;
        FingerprintsFrom(walk.valid, n);
        var f :| f in walk.valid && f.name == n;
        var g :| g in disk.listing && f.name == DiskLabel(g)
            && VerdictOn(env, disk, g, base.Keys) == Mountable(f.fingerprint);
        assert g == e;
      }
    }
  }
}
