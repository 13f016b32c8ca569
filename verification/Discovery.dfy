/**
 Disk discovery for the WayFlow agent loader: the published-marker gate, the
 startup walk (labels from OAS metadata) and the reload walk (labels from the
 disk path). Every file access is one observation of a disk that the host may
 rewrite between any two observations.
 See `docker/wayflow/agent_loader.py`.
 */
module Discovery {
  import opened Wrappers
  import opened ReloadSpec

  type Bytes = seq<bv8>

  const MAX_OAS_BYTES := 1_048_576

  const AT: CodePoint := 0x40
  const SLASH: CodePoint := 0x2F

  /** What asking for a file finds. `Hidden`: asking whether it exists raises, for
      want of permission, an input or output error or too long a path. */
  datatype Asked<T> = Missing | Hidden | There(value: T)

  /** What JSON parsing makes of an OAS file, as far as the loader looks at it.
      `TooDeep` is nested beyond the interpreter's recursion limit: the error that
      raises is none of those the loader catches.
      `package` and `version` are `packageName` and `packageVersion` of
      `metadata.cinatra` when they are strings (the version stripped and not empty),
      `truthy` what Python makes of metadata of another type (an empty list is
      false). */
  datatype Parsed = NotJson | TooDeep | NotObject | Object(metadata: Metadata)
  datatype Metadata = Absent | NotDict(truthy: bool) | Dict(package: Option<Name>, version: Option<Name>)

  /** `Garbled`: not UTF-8 or not JSON. `Nested`: too deep, as above. `sha` is None
      when the field `oasSha256` is not a string. */
  datatype MarkerFile = Unreadable | Garbled | Nested | NotRecord | Record(keys: set<string>, sha: Option<string>)

  /** `contained` is false when the path resolves outside the agents directory. */
  datatype OasFile = OasFile(bytes: Bytes, readable: bool, contained: bool)

  /** What `package.json` has to say: nothing, its version, or it is too deep. */
  datatype PackageFile = NoVersion | DeepPackage | Version(text: Name)

  /** `loop`: resolving the path runs into a loop of symbolic links, and nothing is
      found there. `dated`: the time of the OAS file is one a date can hold. */
  datatype Dir = Dir(
    loop: bool,
    oas: Asked<OasFile>,
    marker: Asked<MarkerFile>,
    inProgress: Asked<()>,
    package: Asked<PackageFile>,
    dated: bool)

  const NOTHING := Dir(false, Missing, Missing, Missing, Missing, true)

  /** One agent directory as the walk meets it: its vendor and slug names, the
      directory they resolve to, and the path of that, as the log names it. A vendor
      directory that cannot be listed is met as one whose OAS is hidden, and a loop
      in place of a vendor as a directory with a loop. */
  datatype Entry = Entry(vendor: Name, slug: Name, dir: nat, path: Name)

  datatype Disk = Disk(listing: seq<Entry>, dirs: map<nat, Dir>)

  /** `prints`: the log can take this text. A text with a lone surrogate has no
      UTF-8, and printing it raises what the loader mostly does not catch. */
  datatype Env = Env(hash: Bytes -> string, parse: Bytes -> Parsed, prints: Name -> bool)

  function DirAt(disk: Disk, dir: nat): Dir {
    if dir in disk.dirs then disk.dirs[dir] else NOTHING
  }

  /** What there is for whoever does not resolve the path. */
  function Seen(d: Dir): Dir {
    if d.loop then NOTHING else d
  }

  function DiskLabel(e: Entry): Name {
    e.vendor + [SLASH] + e.slug
  }

  // ------------------------------------------------------------ marker gate

  datatype MarkerStatus = Valid | NoMarker | Malformed | HashMismatch | IoError | Raises

  const REQUIRED_KEYS := {"packageName", "packageVersion", "oasSha256", "publishedAt"}

  /** A garbled marker is reported in the log, by its path. */
  function JudgeMarker(env: Env, path: Name, file: Asked<MarkerFile>, sha: string): MarkerStatus {
    match file
    case Missing => IoError
    case Hidden => IoError
    case There(Unreadable) => IoError
    case There(Garbled) => if env.prints(path) then Malformed else Raises
    case There(Nested) => Raises
    case There(NotRecord) => Malformed
    case There(Record(keys, recorded)) =>
      if !(REQUIRED_KEYS <= keys) || recorded.None? then Malformed
      else if recorded.value != sha then HashMismatch
      else Valid
  }

  /** The marker carries this hash. */
  predicate Signs(disk: Disk, dir: nat, sha: string) {
    var marker := DirAt(disk, dir).marker;
    marker.There? && marker.value.Record? && marker.value.sha == Some(sha)
  }

  /** `_inspect_published_marker` on a disk that does not move. */
  function Inspect(env: Env, path: Name, d: Dir, sha: string): MarkerStatus {
    match d.marker
    case Hidden => Raises
    case Missing => NoMarker
    case There(_) => JudgeMarker(env, path, d.marker, sha)
  }

  // -------------------------------------------------------- package name

  function FirstSlash(s: Name): (r: nat)
    ensures r <= |s|
    ensures SLASH !in s[..r]
    ensures r < |s| ==> s[r] == SLASH
  {
    if s == [] || s[0] == SLASH then 0 else 1 + FirstSlash(s[1..])
  }

  /** `@vendor/slug`, with both parts non-empty, gives the label `vendor/slug`. */
  function PackageLabel(package: Name): Option<Name> {
    if package == [] || package[0] != AT then None
    else
      var body := package[1..];
      var slash := FirstSlash(body);
      if slash == 0 || slash + 1 >= |body| then None else Some(body)
  }

  function OasLabel(p: Parsed): Option<Name> {
    if p.Object? && p.metadata.Dict? && p.metadata.package.Some? then PackageLabel(p.metadata.package.value) else None
  }

  /** What follows the `@` of the package name; the reload walk asks no more of it. */
  function Claimed(p: Parsed): Option<Name> {
    if p.Object? && p.metadata.Dict? && p.metadata.package.Some? then
      var package := p.metadata.package.value;
      if package != [] && package[0] == AT then Some(package[1..]) else None
    else
      None
  }

  /** The log takes the warning that a package name is not the disk path, or there is
      nothing to warn of. */
  predicate NoticePrints(env: Env, e: Entry, name: Option<Name>) {
    name.None? || name.value == DiskLabel(e) || (env.prints(DiskLabel(e)) && env.prints(name.value))
  }

  // ------------------------------------------------- outcome of one directory

  datatype Hint =
    | NoHint
    | DraftOverridesPublished
    | MarkerMissing
    | MarkerMalformed
    | MarkerIoError
    | InProgressDraft

  function HintFor(status: MarkerStatus, inProgress: bool): Hint {
    if inProgress then InProgressDraft
    else
      match status
      case HashMismatch => DraftOverridesPublished
      case NoMarker => MarkerMissing
      case Malformed => MarkerMalformed
      case IoError => MarkerIoError
      case _ => NoHint
  }

  /** `Raised` is an exception nothing in the walk catches. */
  datatype Verdict = Mountable(fingerprint: string) | Failed(hint: Hint) | Silent | Raised

  /** A draft of a mounted label: whether it is meant to be one is looked up. */
  function DraftVerdict(status: MarkerStatus, inProgress: Asked<()>): Verdict {
    if inProgress.Hidden? then Raised else Failed(HintFor(status, inProgress.There?))
  }

  /** The reload walk on one directory of a disk that does not move. */
  function ReloadVerdict(env: Env, e: Entry, d: Dir, mounted: bool): Verdict {
    if d.loop || d.oas.Hidden? then Raised
    else if d.oas.Missing? then Silent
    else
      var oas := d.oas.value;
      if !oas.contained || !oas.readable || |oas.bytes| > MAX_OAS_BYTES then Failed(NoHint)
      else
        var fingerprint, parsed := env.hash(oas.bytes), env.parse(oas.bytes);
        if parsed.NotJson? then Failed(NoHint)
        else if parsed.TooDeep? || (parsed.Object? && parsed.metadata.NotDict?) then Raised
        else if !NoticePrints(env, e, Claimed(parsed)) then Raised
        else
          var status := Inspect(env, e.path, d, fingerprint);
          if status.Raises? then Raised
          else if status.Valid? then Mountable(fingerprint)
          else if mounted then DraftVerdict(status, d.inProgress)
          else Silent
  }

  datatype StartVerdict = Skipped | Broken | Mounts(name: Name, fingerprint: string)

  /** The walk goes on once the log has taken the text. */
  function Logged(env: Env, text: Name): StartVerdict {
    if env.prints(text) then Skipped else Broken
  }

  /** The startup walk on one directory: the label comes from the OAS. */
  function StartupVerdict(env: Env, e: Entry, d: Dir): StartVerdict {
    if d.loop || d.oas.Hidden? then Broken
    else if d.oas.Missing? then Skipped
    else if |d.oas.value.bytes| > MAX_OAS_BYTES || !d.oas.value.readable then Logged(env, e.path)
    else
      var fingerprint, parsed := env.hash(d.oas.value.bytes), env.parse(d.oas.value.bytes);
      var name := OasLabel(parsed);
      if parsed.TooDeep? then Broken
      else if name.None? then Logged(env, e.path)
      else if !NoticePrints(env, e, name) then Broken
      else
        var status := Inspect(env, e.path, d, fingerprint);
        if status.Raises? then Broken
        else if status.Valid? then Mounts(name.value, fingerprint)
        else Logged(env, DiskLabel(e))
  }

  // ---------------------------------------------------------- whole walks

  datatype Found = Found(name: Name, dir: nat, fingerprint: string)
  datatype Unusable = Unusable(name: Name, hint: Hint)
  datatype Walk = Aborted | Walked(valid: seq<Found>, failed: seq<Unusable>)

  function Extend(walk: Walk, e: Entry, verdict: Verdict): Walk {
    if walk.Aborted? then Aborted
    else
      match verdict
      case Mountable(fp) => Walked(walk.valid + [Found(DiskLabel(e), e.dir, fp)], walk.failed)
      case Failed(hint) => Walked(walk.valid, walk.failed + [Unusable(DiskLabel(e), hint)])
      case Silent => walk
      case Raised => Aborted
  }

  function VerdictOn(env: Env, disk: Disk, e: Entry, mounted: set<Name>): Verdict {
    ReloadVerdict(env, e, DirAt(disk, e.dir), DiskLabel(e) in mounted)
  }

  function ReloadWalk(env: Env, disk: Disk, entries: seq<Entry>, mounted: set<Name>): Walk {
    if entries == [] then Walked([], [])
    else
      var n := |entries| - 1;
      Extend(ReloadWalk(env, disk, entries[..n], mounted), entries[n], VerdictOn(env, disk, entries[n], mounted))
  }

  datatype StartWalk = StartAborted | Started(found: seq<Found>)

  function ExtendStart(walk: StartWalk, e: Entry, verdict: StartVerdict): StartWalk {
    if walk.StartAborted? then walk
    else
      match verdict
      case Skipped => walk
      case Broken => StartAborted
      case Mounts(name, fp) => Started(walk.found + [Found(name, e.dir, fp)])
  }

  function StartupWalk(env: Env, disk: Disk, entries: seq<Entry>): StartWalk {
    if entries == [] then Started([])
    else
      var n := |entries| - 1;
      ExtendStart(StartupWalk(env, disk, entries[..n]), entries[n],
                  StartupVerdict(env, entries[n], DirAt(disk, entries[n].dir)))
  }

  /** Bytes the reload walk parses. */
  predicate IsParsed(d: Dir) {
    d.oas.There? && d.oas.value.contained && d.oas.value.readable && |d.oas.value.bytes| <= MAX_OAS_BYTES
  }

  /** Its OAS parses to an object whose `metadata` is present and no object. */
  predicate MetadataNotDict(env: Env, d: Dir) {
    IsParsed(d) && env.parse(d.oas.value.bytes).Object? && env.parse(d.oas.value.bytes).metadata.NotDict?
  }

  /** Looking the marker up raises, or it is nested too deep, or it is garbled and
      the log cannot say so. */
  predicate MarkerRaises(env: Env, e: Entry, d: Dir) {
    d.marker.Hidden? || d.marker == There(Nested) || (d.marker == There(Garbled) && !env.prints(e.path))
  }

  /** A whole marker that records the hash of these bytes. */
  predicate IsSigned(env: Env, d: Dir, bytes: Bytes) {
    && d.marker.There? && d.marker.value.Record?
    && REQUIRED_KEYS <= d.marker.value.keys && d.marker.value.sha == Some(env.hash(bytes))
  }

  /** What in a directory whose OAS is JSON makes the reload walk raise: metadata
      that is no object, a package name the log cannot take, the marker, or, for an
      unsigned draft of a mounted label, the lookup of the in-progress marker. */
  predicate BreaksReloadAfterParsing(env: Env, e: Entry, d: Dir, parsed: Parsed, mounted: bool)
    requires d.oas.There?
  {
    || (parsed.Object? && parsed.metadata.NotDict?)
    || !NoticePrints(env, e, Claimed(parsed))
    || MarkerRaises(env, e, d)
    || (mounted && d.inProgress.Hidden? && !IsSigned(env, d, d.oas.value.bytes))
  }

  /** What in one directory makes the reload walk raise: a loop of symbolic links, a
      hidden OAS, one nested too deep, or one of the above. */
  predicate BreaksReload(env: Env, e: Entry, d: Dir, mounted: bool) {
    || d.loop || d.oas.Hidden?
    || (IsParsed(d) &&
        var parsed := env.parse(d.oas.value.bytes);
        parsed.TooDeep? || (!parsed.NotJson? && BreaksReloadAfterParsing(env, e, d, parsed, mounted)))
  }

  lemma RaisedExactly(env: Env, e: Entry, d: Dir, mounted: bool)
    ensures ReloadVerdict(env, e, d, mounted).Raised? <==> BreaksReload(env, e, d, mounted)
  {
  }

  /** One such directory fails the reload of every agent, and nothing else does. */
  lemma {:induction false} ReloadAbortsExactly(env: Env, disk: Disk, entries: seq<Entry>, mounted: set<Name>)
    ensures ReloadWalk(env, disk, entries, mounted).Aborted?
            <==> exists e :: e in entries && BreaksReload(env, e, DirAt(disk, e.dir), DiskLabel(e) in mounted)
  {
    if entries != [] {
      var n := |entries| - 1;
      ReloadAbortsExactly(env, disk, entries[..n], mounted);
      RaisedExactly(env, entries[n], DirAt(disk, entries[n].dir), DiskLabel(entries[n]) in mounted);
      assert entries == entries[..n] + [entries[n]];
    }
  }

  /** What makes the startup walk raise under an OAS that names a package: a warning
      or a report the log cannot take, or the marker. */
  predicate BreaksNamed(env: Env, e: Entry, d: Dir, name: Name)
    requires d.oas.There?
  {
    || !NoticePrints(env, e, Some(name))
    || MarkerRaises(env, e, d)
    || (!IsSigned(env, d, d.oas.value.bytes) && !env.prints(DiskLabel(e)))
  }

  /** What makes the startup walk raise: a loop, a hidden OAS, one nested too deep,
      one it skips under a path the log cannot take, or one of the above. */
  predicate BreaksStartup(env: Env, e: Entry, d: Dir) {
    || d.loop || d.oas.Hidden?
    || (d.oas.There? &&
        if |d.oas.value.bytes| > MAX_OAS_BYTES || !d.oas.value.readable then !env.prints(e.path)
        else
          var parsed := env.parse(d.oas.value.bytes);
          var name := OasLabel(parsed);
          parsed.TooDeep? || (if name.None? then !env.prints(e.path) else BreaksNamed(env, e, d, name.value)))
  }

  lemma BrokenExactly(env: Env, e: Entry, d: Dir)
    ensures StartupVerdict(env, e, d).Broken? <==> BreaksStartup(env, e, d)
  {
  }

  lemma {:induction false} StartupAbortsExactly(env: Env, disk: Disk, entries: seq<Entry>)
    ensures StartupWalk(env, disk, entries).StartAborted?
            <==> exists e :: e in entries && BreaksStartup(env, e, DirAt(disk, e.dir))
  {
    if entries != [] {
      var n := |entries| - 1;
      StartupAbortsExactly(env, disk, entries[..n]);
      BrokenExactly(env, entries[n], DirAt(disk, entries[n].dir));
      assert entries == entries[..n] + [entries[n]];
    }
  }

  lemma StartupSkipsBadMetadata(env: Env, e: Entry, d: Dir)
    requires MetadataNotDict(env, d) && !d.loop
    ensures StartupVerdict(env, e, d) == if env.prints(e.path) then Skipped else Broken
  {
  }

  /** Membership in the result of a completed reload walk. */
  lemma {:induction false} ReloadWalkMembers(env: Env, disk: Disk, entries: seq<Entry>, mounted: set<Name>)
    ensures var w := ReloadWalk(env, disk, entries, mounted);
            w.Walked? ==>
              && (forall f :: f in w.valid <==>
                    exists e :: e in entries && f.name == DiskLabel(e) && f.dir == e.dir
                                && VerdictOn(env, disk, e, mounted) == Mountable(f.fingerprint))
              && (forall u :: u in w.failed <==>
                    exists e :: e in entries && u.name == DiskLabel(e)
                                && VerdictOn(env, disk, e, mounted) == Failed(u.hint))
  {
    if entries != [] {
      var n := |entries| - 1;
      ReloadWalkMembers(env, disk, entries[..n], mounted);
      assert entries == entries[..n] + [entries[n]];
    }
  }

  lemma {:induction false} StartupWalkMembers(env: Env, disk: Disk, entries: seq<Entry>)
    ensures var w := StartupWalk(env, disk, entries);
            w.Started? ==>
              forall f :: f in w.found <==>
                exists e :: e in entries && f.dir == e.dir
                            && StartupVerdict(env, e, DirAt(disk, e.dir)) == Mounts(f.name, f.fingerprint)
  {
    if entries != [] {
      var n := |entries| - 1;
      StartupWalkMembers(env, disk, entries[..n]);
      assert entries == entries[..n] + [entries[n]];
    }
  }

  // ------------------------------------------------ the host and its clock

  /** The agents volume seen through single file accesses. `history` gives the
      disk at every moment; the host may have changed anything in between. */
  class Host {
    const env: Env
    const history: nat -> Disk
    var clock: nat

    constructor (env: Env, history: nat -> Disk)
      ensures this.env == env && this.history == history && clock == 0
    {
      this.env, this.history, clock := env, history, 0;
    }

    /** Nobody writes to the volume. */
    ghost predicate Still(disk: Disk) {
      forall t :: history(t) == disk
    }

    /** Some marker read between the two moments carried this hash. */
    ghost predicate SignedDuring(dir: nat, sha: string, start: nat, end: nat) {
      exists t: nat :: start <= t < end && Signs(history(t), dir, sha)
    }

    method List() returns (entries: seq<Entry>)
      modifies this`clock
      ensures clock == old(clock) + 1 && entries == history(old(clock)).listing
    {
      entries := history(clock).listing;
      clock := clock + 1;
    }

    /** One access that resolves the path. */
    method Resolve(dir: nat) returns (d: Dir)
      modifies this`clock
      ensures clock == old(clock) + 1 && d == DirAt(history(old(clock)), dir)
    {
      d := DirAt(history(clock), dir);
      clock := clock + 1;
    }

    /** One access that does not. */
    method Observe(dir: nat) returns (d: Dir)
      modifies this`clock
      ensures clock == old(clock) + 1 && d == Seen(DirAt(history(old(clock)), dir))
    {
      d := Resolve(dir);
      d := Seen(d);
    }

    /** Reads the OAS bytes; None is the error raised for a missing or
        unreadable file. */
    method ReadOas(dir: nat) returns (bytes: Option<Bytes>)
      modifies this`clock
      ensures clock == old(clock) + 1
      ensures var oas := Seen(DirAt(history(old(clock)), dir)).oas;
              bytes == if oas.There? && oas.value.readable then Some(oas.value.bytes) else None
    {
      var d := Observe(dir);
      bytes := if d.oas.There? && d.oas.value.readable then Some(d.oas.value.bytes) else None;
    }

    /** `_inspect_published_marker` with the hash already computed: the marker
        is looked up first and read afterwards. */
    method InspectMarker(e: Entry, sha: string) returns (status: MarkerStatus)
      modifies this`clock
      ensures clock >= old(clock)
      ensures status.Valid? ==> SignedDuring(e.dir, sha, old(clock), clock)
      ensures forall disk :: Still(disk) && !DirAt(disk, e.dir).loop ==>
                status == Inspect(env, e.path, DirAt(disk, e.dir), sha)
    {
      var d := Observe(e.dir);
      if d.marker.Hidden? {
        return Raises;
      }
      if d.marker.Missing? {
        return NoMarker;
      }
      d := Observe(e.dir);
      status := JudgeMarker(env, e.path, d.marker, sha);
      if status.Valid? {
        assert Signs(history(old(clock) + 1), e.dir, sha);
      }
    }

    /** What a walk may report: bytes seen in this pass, under a marker of
        this pass. */
    ghost predicate Pinned(f: Found, start: nat, end: nat) {
      SignedDuring(f.dir, f.fingerprint, start, end)
    }

    /** At some moment between the two there was no OAS in the directory. */
    ghost predicate OasMissed(dir: nat, start: nat, end: nat) {
      exists t: nat :: start <= t < end && Seen(DirAt(history(t), dir)).oas.Missing?
    }

    /** One directory of the reload walk. A mounted label is passed over in silence
        only if its OAS was seen to be missing. */
    method ReloadOne(e: Entry, mounted: set<Name>) returns (verdict: Verdict)
      modifies this`clock
      ensures clock >= old(clock)
      ensures verdict.Mountable? ==> SignedDuring(e.dir, verdict.fingerprint, old(clock), clock)
      ensures verdict.Failed? && verdict.hint != NoHint ==> DiskLabel(e) in mounted
      ensures verdict.Silent? && DiskLabel(e) in mounted ==> OasMissed(e.dir, old(clock), clock)
      ensures forall disk :: Still(disk) ==> verdict == VerdictOn(env, disk, e, mounted)
    {
      var d := Resolve(e.dir);
      if d.loop {
        return Raised;
      }
      d := Observe(e.dir);
      if d.oas.Hidden? {
        return Raised;
      }
      if d.oas.Missing? {
        assert Seen(DirAt(history(old(clock) + 1), e.dir)).oas.Missing?;
        return Silent;
      }
      d := Resolve(e.dir);
      if d.loop {
        return Raised;
      }
      if !d.oas.There? || !d.oas.value.contained {
        return Failed(NoHint);
      }
      var bytes := ReadOas(e.dir);
      if bytes.None? || |bytes.value| > MAX_OAS_BYTES {
        return Failed(NoHint);
      }
      verdict := ReloadParsed(e, bytes.value, mounted);
    }

    /** The rest of it, once the bytes are read. */
    method ReloadParsed(e: Entry, bytes: Bytes, mounted: set<Name>) returns (verdict: Verdict)
      requires |bytes| <= MAX_OAS_BYTES
      modifies this`clock
      ensures clock >= old(clock)
      ensures verdict.Mountable? ==> SignedDuring(e.dir, verdict.fingerprint, old(clock), clock)
      ensures verdict.Failed? && verdict.hint != NoHint ==> DiskLabel(e) in mounted
      ensures verdict.Silent? ==> DiskLabel(e) !in mounted
      ensures forall disk :: Still(disk) && !DirAt(disk, e.dir).loop
                             && DirAt(disk, e.dir).oas == There(OasFile(bytes, true, true)) ==>
                verdict == VerdictOn(env, disk, e, mounted)
    {
      var fingerprint, parsed := env.hash(bytes), env.parse(bytes);
      if parsed.NotJson? {
        return Failed(NoHint);
      }
      if parsed.TooDeep? || (parsed.Object? && parsed.metadata.NotDict?) {
        return Raised;
      }
      if !NoticePrints(env, e, Claimed(parsed)) {
        return Raised;
      }
      var status := InspectMarker(e, fingerprint);
      if status.Raises? {
        return Raised;
      }
      if status.Valid? {
        return Mountable(fingerprint);
      }
      if DiskLabel(e) !in mounted {
        return Silent;
      }
      var d := Observe(e.dir);
      verdict := DraftVerdict(status, d.inProgress);
    }

    /** The walk offers the label or reports it as failed. */
    ghost predicate Lists(walk: Walk, name: Name)
      requires walk.Walked?
    {
      (exists f :: f in walk.valid && f.name == name) || (exists u :: u in walk.failed && u.name == name)
    }

    lemma ListsMore(walk: Walk, e: Entry, verdict: Verdict, name: Name)
      requires walk.Walked? && Extend(walk, e, verdict).Walked?
      ensures Lists(walk, name) ==> Lists(Extend(walk, e, verdict), name)
      ensures !verdict.Silent? ==> Lists(Extend(walk, e, verdict), DiskLabel(e))
    {
      var more := Extend(walk, e, verdict);
      if verdict.Mountable? {
        assert more.valid[|walk.valid|].name == DiskLabel(e);
      } else if verdict.Failed? {
        assert more.failed[|walk.failed|].name == DiskLabel(e);
      }
      assert forall f :: f in walk.valid ==> f in more.valid;
      assert forall u :: u in walk.failed ==> u in more.failed;
    }

    lemma MissedLater(dir: nat, start: nat, middle: nat, seen: nat, end: nat)
      requires OasMissed(dir, middle, seen) && start <= middle && seen <= end
      ensures OasMissed(dir, start, end)
    {
      var t: nat :| middle <= t < seen && Seen(DirAt(history(t), dir)).oas.Missing?;
    }

    /** Whatever the host writes meanwhile, a mounted label is listed unless its OAS
        was seen to be missing. */
    ghost predicate Accounts(walk: Walk, e: Entry, mounted: set<Name>, start: nat, end: nat)
      requires walk.Walked?
    {
      DiskLabel(e) in mounted ==> Lists(walk, DiskLabel(e)) || OasMissed(e.dir, start, end)
    }

    lemma AccountsMore(walk: Walk, e: Entry, verdict: Verdict, mounted: set<Name>, start: nat, middle: nat, end: nat,
            earlier: seq<Entry>)
      requires walk.Walked? && Extend(walk, e, verdict).Walked? && start <= middle <= end
      requires forall d :: d in earlier ==> Accounts(walk, d, mounted, start, middle)
      requires verdict.Silent? && DiskLabel(e) in mounted ==> OasMissed(e.dir, middle, end)
      ensures forall d :: d in earlier + [e] ==> Accounts(Extend(walk, e, verdict), d, mounted, start, end)
    {
      var more := Extend(walk, e, verdict);
      forall d | d in earlier
        ensures Accounts(more, d, mounted, start, end)
      {
        ListsMore(walk, e, verdict, DiskLabel(d));
        if OasMissed(d.dir, start, middle) {
          MissedLater(d.dir, start, start, middle, end);
        }
      }
      ListsMore(walk, e, verdict, DiskLabel(e));
      if verdict.Silent? && DiskLabel(e) in mounted {
        MissedLater(e.dir, start, middle, end, end);
      }
    }

    method DiscoverForReload(mounted: set<Name>) returns (walk: Walk)
      modifies this`clock
      ensures clock >= old(clock)
      ensures walk.Walked? ==> forall f :: f in walk.valid ==> Pinned(f, old(clock), clock)
      ensures walk.Walked? ==> forall u :: u in walk.failed && u.hint != NoHint ==> u.name in mounted
      ensures walk.Walked? ==>
                forall e :: e in history(old(clock)).listing ==> Accounts(walk, e, mounted, old(clock), clock)
      ensures forall disk :: Still(disk) ==> walk == ReloadWalk(env, disk, disk.listing, mounted)
    {
      var entries := List();
      walk := Walked([], []);
      for i := 0 to |entries|
        invariant clock >= old(clock)
        invariant walk.Walked?
        invariant forall f :: f in walk.valid ==> Pinned(f, old(clock), clock)
        invariant forall u :: u in walk.failed && u.hint != NoHint ==> u.name in mounted
        invariant forall e :: e in entries[..i] ==> Accounts(walk, e, mounted, old(clock), clock)
        invariant forall disk :: Still(disk) ==> walk == ReloadWalk(env, disk, entries[..i], mounted)
      {
        ghost var before, middle := walk, clock;
        var verdict := ReloadOne(entries[i], mounted);
        assert entries[..i + 1][..i] == entries[..i];
        walk := Extend(walk, entries[i], verdict);
        if walk.Aborted? {
          forall disk | Still(disk)
            ensures ReloadWalk(env, disk, disk.listing, mounted).Aborted?
          {
            ReloadAbortsExactly(env, disk, entries[..i + 1], mounted);
            ReloadAbortsExactly(env, disk, entries, mounted);
          }
          return;
        }
        AccountsMore(before, entries[i], verdict, mounted, old(clock), middle, clock, entries[..i]);
        assert entries[..i + 1] == entries[..i] + [entries[i]];
      }
      assert entries[..|entries|] == entries;
    }

    /** One directory of the startup walk. */
    method StartupOne(e: Entry) returns (verdict: StartVerdict)
      modifies this`clock
      ensures clock >= old(clock)
      ensures verdict.Mounts? ==> Pinned(Found(verdict.name, e.dir, verdict.fingerprint), old(clock), clock)
      ensures forall disk :: Still(disk) ==> verdict == StartupVerdict(env, e, DirAt(disk, e.dir))
    {
      var d := Resolve(e.dir);
      if d.loop {
        return Broken;
      }
      d := Observe(e.dir);
      if d.oas.Hidden? {
        return Broken;
      }
      if d.oas.Missing? {
        return Skipped;
      }
      d := Observe(e.dir);
      if !d.oas.There? {
        return Skipped;
      }
      if |d.oas.value.bytes| > MAX_OAS_BYTES {
        return Logged(env, e.path);
      }
      var bytes := ReadOas(e.dir);
      if bytes.None? {
        return Logged(env, e.path);
      }
      var fingerprint, parsed := env.hash(bytes.value), env.parse(bytes.value);
      if parsed.TooDeep? {
        return Broken;
      }
      var name := OasLabel(parsed);
      if name.None? {
        return Logged(env, e.path);
      }
      if !NoticePrints(env, e, name) {
        return Broken;
      }
      var status := InspectMarker(e, fingerprint);
      if status.Raises? {
        return Broken;
      }
      verdict := if status.Valid? then Mounts(name.value, fingerprint) else Logged(env, DiskLabel(e));
    }

    method DiscoverAgents() returns (walk: StartWalk)
      modifies this`clock
      ensures clock >= old(clock)
      ensures walk.Started? ==> forall f :: f in walk.found ==> Pinned(f, old(clock), clock)
      ensures forall disk :: Still(disk) ==> walk == StartupWalk(env, disk, disk.listing)
    {
      var entries := List();
      walk := Started([]);
      for i := 0 to |entries|
        invariant clock >= old(clock) && walk.Started?
        invariant forall f :: f in walk.found ==> Pinned(f, old(clock), clock)
        invariant forall disk :: Still(disk) ==> walk == StartupWalk(env, disk, entries[..i])
      {
        var verdict := StartupOne(entries[i]);
        assert entries[..i + 1][..i] == entries[..i];
        walk := ExtendStart(walk, entries[i], verdict);
        if walk.StartAborted? {
          forall disk | Still(disk)
            ensures StartupWalk(env, disk, disk.listing).StartAborted?
          {
            StartupAbortsExactly(env, disk, entries[..i + 1]);
            StartupAbortsExactly(env, disk, entries);
          }
          return;
        }
      }
      assert entries[..|entries|] == entries;
    }

    /** The directory still holds the bytes that were found. */
    predicate Holds(d: Dir, f: Found) {
      !d.loop && d.oas.There? && d.oas.value.readable && env.hash(d.oas.value.bytes) == f.fingerprint
    }

    /** `_mount_one_sync`, up to building the server: the bytes are read again
        and must still have the validated hash. `builds` says whether the
        loader accepts them. */
    method ReadForMount(f: Found, builds: bool) returns (source: Option<Bytes>)
      modifies this`clock
      ensures clock == old(clock) + 1
      ensures source.Some? ==>
                && builds
                && env.hash(source.value) == f.fingerprint
                && DirAt(history(old(clock)), f.dir).oas.There?
                && source.value == DirAt(history(old(clock)), f.dir).oas.value.bytes
      ensures builds && Holds(DirAt(history(old(clock)), f.dir), f) ==> source.Some?
    {
      source := ReadOas(f.dir);
      if source.Some? && (env.hash(source.value) != f.fingerprint || !builds) {
        source := None;
      }
    }
  }
}
