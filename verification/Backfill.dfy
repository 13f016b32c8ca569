/**
 Marking what is already on the volume when the process starts:
 `_backfill_missing_markers` of `docker/wayflow/agent_loader.py`. It runs before
 anything else looks at the volume.
 */
module Backfill {
  import opened Wrappers
  import opened Discovery

  type Dirs = map<nat, Dir>

  function At(dirs: Dirs, dir: nat): Dir {
    if dir in dirs then dirs[dir] else NOTHING
  }

  /** An unmarked OAS that can be read and is JSON. */
  predicate IsUnmarkedJson(env: Env, d: Dir) {
    && !d.loop && d.oas.There? && d.marker.Missing? && d.oas.value.readable
    && !env.parse(d.oas.value.bytes).NotJson?
  }

  /** Several things about such an OAS raise what no handler around them catches: it
      or `package.json` is nested too deep, its metadata is true and no object, the
      lookup of `package.json` raises, or its time is one no date can hold. */
  predicate SpoilsMarker(env: Env, d: Dir)
    requires d.oas.There?
  {
    var parsed := env.parse(d.oas.value.bytes);
    || parsed.TooDeep?
    || (parsed.Object? && parsed.metadata.NotDict? && parsed.metadata.truthy)
    || d.package.Hidden? || d.package == There(DeepPackage)
    || !d.dated
  }

  predicate GetsMarker(env: Env, d: Dir) {
    IsUnmarkedJson(env, d) && !SpoilsMarker(env, d)
  }

  /** `package.json` first, then the metadata, or else the fixed text. */
  function VersionOf(env: Env, d: Dir): Option<Name>
    requires d.oas.There?
  {
    var parsed := env.parse(d.oas.value.bytes);
    if d.package.There? && d.package.value.Version? then Some(d.package.value.text)
    else if parsed.Object? && parsed.metadata.Dict? then parsed.metadata.version
    else None
  }

  /** The log takes the line about a marker that was written. */
  predicate WritingPrints(env: Env, e: Entry, d: Dir)
    requires d.oas.There?
  {
    env.prints(DiskLabel(e)) && (VersionOf(env, d).Some? ==> env.prints(VersionOf(env, d).value))
  }

  datatype Plan = Skip | Write(sha: string) | Raise

  /** What the loop does with one directory, up to writing its marker. A loop of
      symbolic links is no directory to it. */
  function Decide(env: Env, e: Entry, d: Dir): Plan {
    if d.loop || d.oas.Missing? then Skip
    else if d.oas.Hidden? || d.marker.Hidden? then Raise
    else if d.marker.There? then Skip
    else if !IsUnmarkedJson(env, d) then (if env.prints(e.path) then Skip else Raise)
    else if SpoilsMarker(env, d) then Raise
    else Write(env.hash(d.oas.value.bytes))
  }

  /** A marker is written exactly for an unmarked OAS that can be read and parsed, and
      with nothing about it that raises. */
  lemma WritesExactly(env: Env, e: Entry, d: Dir, sha: string)
    ensures Decide(env, e, d) == Write(sha) <==>
              && !d.loop && d.oas.There? && d.oas.value.readable && d.marker.Missing?
              && (var parsed := env.parse(d.oas.value.bytes);
                  || parsed.NotObject?
                  || (parsed.Object? && (parsed.metadata.NotDict? ==> !parsed.metadata.truthy)))
              && (d.package.Missing? || d.package == There(NoVersion) || (d.package.There? && d.package.value.Version?))
              && d.dated && sha == env.hash(d.oas.value.bytes)
  {
  }

  /** The line about it names the version of `package.json`, or else that of the OAS,
      or else a fixed text. */
  lemma WritingPrintsExactly(env: Env, e: Entry, d: Dir)
    requires d.oas.There?
    ensures WritingPrints(env, e, d) <==>
              && env.prints(e.vendor + [0x2F] + e.slug)
              && (forall v :: d.package == There(Version(v)) ==> env.prints(v))
              && (forall p, v :: !(d.package.There? && d.package.value.Version?) ==>
                    env.parse(d.oas.value.bytes) == Object(Dict(p, Some(v))) ==> env.prints(v))
  {
    var parsed := env.parse(d.oas.value.bytes);
    if parsed.Object? && parsed.metadata.Dict? && parsed.metadata.version.Some? {
      assert parsed == Object(Dict(parsed.metadata.package, Some(parsed.metadata.version.value)));
    }
  }

  function Marked(d: Dir, sha: string): Dir {
    d.(marker := There(Record(REQUIRED_KEYS, Some(sha))))
  }

  datatype Result = Crashed(dirs: Dirs) | Finished(dirs: Dirs, written: nat)

  /** `stores` says whether the file system takes the marker of a directory. Either
      way the log is told, and that may raise when the marker is already there. */
  function Step(env: Env, stores: nat -> bool, r: Result, e: Entry): Result {
    if r.Crashed? then r
    else
      var d := At(r.dirs, e.dir);
      match Decide(env, e, d)
      case Skip => r
      case Raise => Crashed(r.dirs)
      case Write(sha) =>
        if !stores(e.dir) then (if env.prints(e.path) then r else Crashed(r.dirs))
        else
          var dirs := r.dirs[e.dir := Marked(d, sha)];
          if WritingPrints(env, e, d) then Finished(dirs, r.written + 1) else Crashed(dirs)
  }

  function Filled(env: Env, stores: nat -> bool, dirs: Dirs, entries: seq<Entry>): Result {
    if entries == [] then Finished(dirs, 0)
    else
      var n := |entries| - 1;
      Step(env, stores, Filled(env, stores, dirs, entries[..n]), entries[n])
  }

  class Volume {
    const env: Env
    var dirs: Dirs

    constructor (env: Env, dirs: Dirs)
      ensures this.env == env && this.dirs == dirs
    {
      this.env, this.dirs := env, dirs;
    }

    method BackfillMissingMarkers(entries: seq<Entry>, stores: nat -> bool) returns (crashed: bool, written: nat)
      modifies this
      ensures var r := Filled(env, stores, old(dirs), entries);
              dirs == r.dirs && crashed == r.Crashed? && (!crashed ==> written == r.written)
    {
      crashed, written := false, 0;
      for i := 0 to |entries|
        invariant Filled(env, stores, old(dirs), entries[..i]) == Finished(dirs, written)
      {
        assert entries[..i + 1][..i] == entries[..i];
        var clear, writes := FillOne(entries[i], stores);
        if !clear {
          CrashStays(env, stores, old(dirs), entries, i + 1);
          return true, written;
        }
        written := if writes then written + 1 else written;
      }
      assert entries[..|entries|] == entries;
    }

    /** One directory; `clear` unless an exception leaves the loop. */
    method FillOne(e: Entry, stores: nat -> bool) returns (clear: bool, writes: bool)
      modifies this
      ensures forall n: nat ::
                Step(env, stores, Finished(old(dirs), n), e)
                  == if clear then Finished(dirs, if writes then n + 1 else n) else Crashed(dirs)
    {
      var d := At(dirs, e.dir);
      var plan := Decide(env, e, d);
      writes := plan.Write? && stores(e.dir);
      if plan.Raise? {
        clear := false;
      } else if writes {
        dirs := dirs[e.dir := Marked(d, plan.sha)];
        clear := WritingPrints(env, e, d);
      } else {
        clear := plan.Skip? || env.prints(e.path);
      }
    }
  }

  lemma {:induction false} CrashStays(env: Env, stores: nat -> bool, dirs: Dirs, entries: seq<Entry>, i: nat)
    requires i <= |entries| && Filled(env, stores, dirs, entries[..i]).Crashed?
    ensures Filled(env, stores, dirs, entries) == Filled(env, stores, dirs, entries[..i])
    decreases |entries|
  {
    if i == |entries| {
      assert entries[..i] == entries;
    } else {
      var init := entries[..|entries| - 1];
      assert init[..i] == entries[..i];
      CrashStays(env, stores, dirs, init, i);
    }
  }

  /** What the backfill may have done to a directory: nothing, or added the marker
      of its own bytes where there was none. */
  ghost predicate OnlyMarked(env: Env, before: Dir, after: Dir) {
    after == before || (GetsMarker(env, before) && after == Marked(before, env.hash(before.oas.value.bytes)))
  }

  lemma {:induction false} WalkOnlyMarks(env: Env, stores: nat -> bool, dirs: Dirs, entries: seq<Entry>, dir: nat)
    ensures OnlyMarked(env, At(dirs, dir), At(Filled(env, stores, dirs, entries).dirs, dir))
  {
    if entries != [] {
      WalkOnlyMarks(env, stores, dirs, entries[..|entries| - 1], dir);
    }
  }

  predicate Meets(entries: seq<Entry>, dir: nat) {
    exists i :: 0 <= i < |entries| && entries[i].dir == dir
  }

  /** The state of a directory after a walk that raised nothing. */
  ghost predicate WalkedOver(env: Env, stores: nat -> bool, entries: seq<Entry>, dir: nat, before: Dir, after: Dir) {
    after == if Meets(entries, dir) && GetsMarker(env, before) && stores(dir)
             then Marked(before, env.hash(before.oas.value.bytes)) else before
  }

  lemma {:induction false} WalkMarks(env: Env, stores: nat -> bool, dirs: Dirs, entries: seq<Entry>, dir: nat)
    requires Filled(env, stores, dirs, entries).Finished?
    ensures WalkedOver(env, stores, entries, dir, At(dirs, dir), At(Filled(env, stores, dirs, entries).dirs, dir))
  {
    if entries != [] {
      var n := |entries| - 1;
      WalkMarks(env, stores, dirs, entries[..n], dir);
      OneMoreMet(entries, dir);
    }
  }

  lemma OneMoreMet(entries: seq<Entry>, dir: nat)
    requires entries != []
    ensures var n := |entries| - 1; Meets(entries, dir) <==> Meets(entries[..n], dir) || entries[n].dir == dir
  {
    var n := |entries| - 1;
    if Meets(entries[..n], dir) {
      var i :| 0 <= i < n && entries[..n][i].dir == dir;
      assert entries[i].dir == dir;
    }
    if Meets(entries, dir) {
      var i :| 0 <= i < |entries| && entries[i].dir == dir;
      assert i < n ==> entries[..n][i].dir == dir;
    }
  }

  /** What makes the loop raise at an entry: what hides the OAS or the marker, what
      spoils an unmarked OAS, or a line the log cannot take, about an OAS that is
      skipped, a marker that cannot be stored, or one that was. The last matters
      where the directory is met first: afterwards it has its marker. */
  predicate BreaksBackfill(env: Env, stores: nat -> bool, earlier: seq<Entry>, e: Entry, d: Dir) {
    !d.loop &&
    (|| d.oas.Hidden?
     || (d.oas.There? && d.marker.Hidden?)
     || (d.oas.There? && d.marker.Missing? &&
         if !IsUnmarkedJson(env, d) then !env.prints(e.path)
         else if SpoilsMarker(env, d) then true
         else if !stores(e.dir) then !env.prints(e.path)
         else !Meets(earlier, e.dir) && !WritingPrints(env, e, d)))
  }

  lemma CrashStep(env: Env, stores: nat -> bool, r: Result, earlier: seq<Entry>, e: Entry, before: Dir)
    requires r.Finished? && WalkedOver(env, stores, earlier, e.dir, before, At(r.dirs, e.dir))
    ensures Step(env, stores, r, e).Crashed? <==> BreaksBackfill(env, stores, earlier, e, before)
  {
  }

  /** One such directory stops the start of the whole process, and nothing else does. */
  lemma {:induction false} CrashesExactly(env: Env, stores: nat -> bool, dirs: Dirs, entries: seq<Entry>)
    ensures Filled(env, stores, dirs, entries).Crashed?
       <==> exists i :: 0 <= i < |entries| &&
                        BreaksBackfill(env, stores, entries[..i], entries[i], At(dirs, entries[i].dir))
  {
    if entries != [] {
      var n := |entries| - 1;
      var init, e := entries[..n], entries[n];
      var r := Filled(env, stores, dirs, init);
      CrashesExactly(env, stores, dirs, init);
      assert forall i :: 0 <= i < n ==> init[..i] == entries[..i] && init[i] == entries[i];
      if r.Finished? {
        WalkMarks(env, stores, dirs, init, e.dir);
        CrashStep(env, stores, r, init, e, At(dirs, e.dir));
      }
    }
  }

  /** A walk that finishes has skipped or marked whatever it met. */
  lemma WalkReaches(env: Env, dirs: Dirs, entries: seq<Entry>, e: Entry)
    requires e in entries && Filled(env, _ => true, dirs, entries).Finished?
    ensures var before, after := At(dirs, e.dir), At(Filled(env, _ => true, dirs, entries).dirs, e.dir);
            && after == (if GetsMarker(env, before) then Marked(before, env.hash(before.oas.value.bytes)) else before)
            && Decide(env, e, after).Skip?
  {
    var i :| 0 <= i < |entries| && entries[i] == e;
    assert Meets(entries, e.dir);
    WalkMarks(env, _ => true, dirs, entries, e.dir);
    CrashesExactly(env, _ => true, dirs, entries);
    assert !BreaksBackfill(env, _ => true, entries[..i], e, At(dirs, e.dir));
  }

  /** After a backfill that stored all its markers, an unmarked directory counts
      as published exactly as its bytes are now: the startup walk takes it under
      its package name, whoever wrote them. Marked directories keep their fate. */
  lemma BackfilledIsPublished(env: Env, dirs: Dirs, entries: seq<Entry>, e: Entry)
    requires e in entries && Filled(env, _ => true, dirs, entries).Finished?
    ensures var before, after := At(dirs, e.dir), At(Filled(env, _ => true, dirs, entries).dirs, e.dir);
            && after.oas == before.oas
            && (before.marker.There? ==> after == before)
            && (!before.loop && before.marker.Missing? && before.oas.There? && before.oas.value.readable
                && |before.oas.value.bytes| <= MAX_OAS_BYTES ==>
                  var name := OasLabel(env.parse(before.oas.value.bytes));
                  StartupVerdict(env, e, after)
                    == if name.None? then Logged(env, e.path)
                       else if NoticePrints(env, e, name) then Mounts(name.value, env.hash(before.oas.value.bytes))
                       else Broken)
  {
    WalkReaches(env, dirs, entries, e);
  }

  lemma {:induction false} NothingLeft(env: Env, stores: nat -> bool, dirs: Dirs, entries: seq<Entry>)
    requires forall e :: e in entries ==> Decide(env, e, At(dirs, e.dir)).Skip?
    ensures Filled(env, stores, dirs, entries) == Finished(dirs, 0)
  {
    if entries != [] {
      NothingLeft(env, stores, dirs, entries[..|entries| - 1]);
    }
  }

  /** A second backfill after a complete one writes nothing. */
  lemma SecondBackfillIsIdle(env: Env, dirs: Dirs, entries: seq<Entry>, stores: nat -> bool)
    requires Filled(env, _ => true, dirs, entries).Finished?
    ensures var once := Filled(env, _ => true, dirs, entries).dirs;
            Filled(env, stores, once, entries) == Finished(once, 0)
  {
    var once := Filled(env, _ => true, dirs, entries).dirs;
    forall e | e in entries
      ensures Decide(env, e, At(once, e.dir)).Skip?
    {
      WalkReaches(env, dirs, entries, e);
    }
    NothingLeft(env, stores, once, entries);
  }
}
