/**
 What the two walks of `docker/wayflow/agent_loader.py` make of a directory, told
 from the directory alone: its OAS, its marker and what is written in them.
 */
module WalkRules {
  import opened Wrappers
  import opened ReloadSpec
  import opened Discovery
  import opened StartupReload

  // ------------------------------------------------------------- package names

  /** `@vendor/slug`: at least one character before the first slash and after it. */
  predicate IsPackage(package: Name, vendor: Name, slug: Name) {
    vendor != [] && 0x2F !in vendor && slug != [] && package == [0x40] + vendor + [0x2F] + slug
  }

  lemma {:induction false} FirstSlashOf(vendor: Name, slug: Name)
    requires 0x2F !in vendor
    ensures FirstSlash(vendor + [0x2F] + slug) == |vendor|
  {
    if vendor != [] {
      FirstSlashOf(vendor[1..], slug);
      assert (vendor + [0x2F] + slug)[1..] == vendor[1..] + [0x2F] + slug;
    }
  }

  lemma PackageHasLabel(package: Name, vendor: Name, slug: Name)
    requires IsPackage(package, vendor, slug)
    ensures PackageLabel(package) == Some(vendor + [0x2F] + slug)
  {
    FirstSlashOf(vendor, slug);
    assert package[1..] == vendor + [0x2F] + slug;
  }

  lemma LabelHasPackage(package: Name)
    requires PackageLabel(package).Some?
    ensures exists vendor, slug :: IsPackage(package, vendor, slug)
  {
    var body := package[1..];
    var n := FirstSlash(body);
    assert body == body[..n] + [body[n]] + body[n + 1..];
    assert package == [0x40] + body;
    assert IsPackage(package, body[..n], body[n + 1..]);
  }

  /** The label of a package name is the name without its `@`, and only a name of
      this form has one. */
  lemma PackageLabelExactly(package: Name, name: Name)
    ensures PackageLabel(package) == Some(name)
       <==> exists vendor, slug :: IsPackage(package, vendor, slug) && name == vendor + [0x2F] + slug
  {
    if PackageLabel(package).Some? {
      LabelHasPackage(package);
    }
    forall vendor, slug | IsPackage(package, vendor, slug)
      ensures PackageLabel(package) == Some(vendor + [0x2F] + slug)
    {
      PackageHasLabel(package, vendor, slug);
    }
  }

  // ------------------------------------------------------------------- markers

  /** Its OAS is there, inside the agents directory, can be read and is no larger
      than a megabyte. */
  predicate HasOas(d: Dir) {
    d.oas.There? && d.oas.value.contained && d.oas.value.readable && |d.oas.value.bytes| <= 1_048_576
  }

  /** A marker with all four keys that records the hash of these bytes. */
  predicate SignedBy(env: Env, d: Dir, bytes: Bytes) {
    && d.marker.There? && d.marker.value.Record?
    && {"packageName", "packageVersion", "oasSha256", "publishedAt"} <= d.marker.value.keys
    && d.marker.value.sha == Some(env.hash(bytes))
  }

  /** What is wrong with the marker of an unsigned draft. */
  predicate DraftHint(env: Env, d: Dir, hint: Hint) {
    if d.inProgress.There? then hint == InProgressDraft
    else if d.marker.Missing? then hint == MarkerMissing
    else if d.marker.There? && d.marker.value.Unreadable? then hint == MarkerIoError
    else if d.marker.There? && d.marker.value.Record?
            && {"packageName", "packageVersion", "oasSha256", "publishedAt"} <= d.marker.value.keys
            && d.marker.value.sha.Some? then hint == DraftOverridesPublished
    else hint == MarkerMalformed
  }

  // -------------------------------------------------------------- the reload walk

  lemma VerdictExactly(env: Env, e: Entry, d: Dir, mounted: bool)
    requires !ReloadVerdict(env, e, d, mounted).Raised?
    ensures var v := ReloadVerdict(env, e, d, mounted);
            if !d.oas.There? then v == Silent
            else if !HasOas(d) || env.parse(d.oas.value.bytes).NotJson? then v == Failed(NoHint)
            else if SignedBy(env, d, d.oas.value.bytes) then v == Mountable(env.hash(d.oas.value.bytes))
            else if mounted then v.Failed? && DraftHint(env, d, v.hint)
            else v == Silent
  {
  }

  lemma WalkedMeansNotRaised(env: Env, disk: Disk, entries: seq<Entry>, mounted: set<Name>, e: Entry)
    requires ReloadWalk(env, disk, entries, mounted).Walked? && e in entries
    ensures !VerdictOn(env, disk, e, mounted).Raised?
  {
    ReloadAbortsExactly(env, disk, entries, mounted);
    RaisedExactly(env, e, DirAt(disk, e.dir), DiskLabel(e) in mounted);
  }

  /** This entry is mountable, under its path and with the hash of its bytes. */
  predicate Offers(env: Env, disk: Disk, e: Entry, f: Found) {
    var d := DirAt(disk, e.dir);
    && HasOas(d) && !env.parse(d.oas.value.bytes).NotJson? && SignedBy(env, d, d.oas.value.bytes)
    && f == Found(e.vendor + [0x2F] + e.slug, e.dir, env.hash(d.oas.value.bytes))
  }

  /** This entry cannot be mounted and is reported: its OAS cannot be used, or it is
      an unsigned draft of a mounted label. */
  predicate Spoils(env: Env, disk: Disk, e: Entry, mounted: set<Name>, u: Unusable) {
    var d := DirAt(disk, e.dir);
    && d.oas.There? && u.name == e.vendor + [0x2F] + e.slug
    && if !HasOas(d) || env.parse(d.oas.value.bytes).NotJson? then u.hint == NoHint
       else !SignedBy(env, d, d.oas.value.bytes) && u.name in mounted && DraftHint(env, d, u.hint)
  }

  /** What a completed walk offers and what it reports as failed: exactly that. */
  lemma ReloadWalkExactly(env: Env, disk: Disk, entries: seq<Entry>, mounted: set<Name>, f: Found, u: Unusable)
    requires ReloadWalk(env, disk, entries, mounted).Walked?
    ensures f in ReloadWalk(env, disk, entries, mounted).valid <==> exists e :: e in entries && Offers(env, disk, e, f)
    ensures u in ReloadWalk(env, disk, entries, mounted).failed
       <==> exists e :: e in entries && Spoils(env, disk, e, mounted, u)
  {
    ReloadWalkMembers(env, disk, entries, mounted);
    forall e | e in entries
      ensures Offers(env, disk, e, f)
         <==> f.name == DiskLabel(e) && f.dir == e.dir && VerdictOn(env, disk, e, mounted) == Mountable(f.fingerprint)
      ensures Spoils(env, disk, e, mounted, u)
         <==> u.name == DiskLabel(e) && VerdictOn(env, disk, e, mounted) == Failed(u.hint)
    {
      WalkedMeansNotRaised(env, disk, entries, mounted, e);
      VerdictExactly(env, e, DirAt(disk, e.dir), DiskLabel(e) in mounted);
    }
  }

  /** A mounted label whose directory holds an OAS, whatever is in it, is offered or
      reported, and so never taken for absent. */
  lemma MountedIsPresent(env: Env, disk: Disk, entries: seq<Entry>, mounted: set<Name>, e: Entry)
    requires ReloadWalk(env, disk, entries, mounted).Walked? && e in entries
    requires DirAt(disk, e.dir).oas.There? && e.vendor + [0x2F] + e.slug in mounted
    ensures var walk, name := ReloadWalk(env, disk, entries, mounted), e.vendor + [0x2F] + e.slug;
            (exists f :: f in walk.valid && f.name == name) || (exists u :: u in walk.failed && u.name == name)
  {
    var d := DirAt(disk, e.dir);
    var verdict := VerdictOn(env, disk, e, mounted);
    WalkedMeansNotRaised(env, disk, entries, mounted, e);
    VerdictExactly(env, e, d, DiskLabel(e) in mounted);
    ReloadWalkMembers(env, disk, entries, mounted);
    if verdict.Mountable? {
      assert Found(DiskLabel(e), e.dir, verdict.fingerprint) in ReloadWalk(env, disk, entries, mounted).valid;
    } else {
      assert Unusable(DiskLabel(e), verdict.hint) in ReloadWalk(env, disk, entries, mounted).failed;
    }
  }

  /** No directory with this label holds an OAS. */
  predicate IsGone(disk: Disk, name: Name) {
    forall e :: e in disk.listing && e.vendor + [0x2F] + e.slug == name ==> !DirAt(disk, e.dir).oas.There?
  }

  /** A mounted label is absent from the walk exactly if no directory holds an OAS
      for it, whatever may be wrong with one that does. */
  lemma AbsentExactly(env: Env, disk: Disk, active: Table, name: Name)
    requires ReloadWalk(env, disk, disk.listing, active.Keys).Walked?
    ensures name in RemovedLabels(active, ScanOf(ReloadWalk(env, disk, disk.listing, active.Keys)))
       <==> name in active && IsGone(disk, name)
  {
    var walk := ReloadWalk(env, disk, disk.listing, active.Keys);
    FingerprintsFrom(walk.valid, name);
    if name in active {
      forall e | e in disk.listing && e.vendor + [0x2F] + e.slug == name && DirAt(disk, e.dir).oas.There?
        ensures Present(ScanOf(walk), name)
      {
        MountedIsPresent(env, disk, disk.listing, active.Keys, e);
      }
      if f :| f in walk.valid && f.name == name {
        ReloadWalkExactly(env, disk, disk.listing, active.Keys, f, Unusable(name, NoHint));
      }
      if u :| u in walk.failed && u.name == name {
        ReloadWalkExactly(env, disk, disk.listing, active.Keys, Found(name, 0, ""), u);
      }
    }
  }

  /** The warnings about a package name that is not the path: the reload walk warns of
      any name that begins with `@`, the startup walk of one that gives a label. */
  lemma NoticesExactly(env: Env, e: Entry, p: Parsed)
    ensures !NoticePrints(env, e, Claimed(p)) <==> exists rest: Name, version: Option<Name> ::
              && p == Object(Dict(Some([0x40] + rest), version)) && rest != e.vendor + [0x2F] + e.slug
              && !(env.prints(e.vendor + [0x2F] + e.slug) && env.prints(rest))
    ensures !NoticePrints(env, e, OasLabel(p)) <==> exists name ::
              && OasLabel(p) == Some(name) && name != e.vendor + [0x2F] + e.slug
              && !(env.prints(e.vendor + [0x2F] + e.slug) && env.prints(name))
  {
    if p.Object? && p.metadata.Dict? && p.metadata.package.Some? && Claimed(p).Some? {
      var package := p.metadata.package.value;
      assert package == [0x40] + package[1..];
    }
    forall rest: Name, version: Option<Name> | p == Object(Dict(Some([0x40] + rest), version))
      ensures Claimed(p) == Some(rest)
    {
      assert ([0x40] + rest)[1..] == rest;
    }
  }

  // ------------------------------------------------------------- the startup walk

  /** This entry is mounted at startup under its package name. Links that lead outside
      are followed. */
  ghost predicate Starts(env: Env, disk: Disk, e: Entry, f: Found) {
    var d := DirAt(disk, e.dir);
    && d.oas.There? && d.oas.value.readable && |d.oas.value.bytes| <= 1_048_576
    && SignedBy(env, d, d.oas.value.bytes)
    && f.dir == e.dir && f.fingerprint == env.hash(d.oas.value.bytes)
    && exists package, version, vendor, slug ::
         && env.parse(d.oas.value.bytes) == Object(Dict(Some(package), version))
         && IsPackage(package, vendor, slug) && f.name == vendor + [0x2F] + slug
  }

  lemma OasLabelExactly(p: Parsed, name: Name)
    ensures OasLabel(p) == Some(name)
       <==> exists package, version, vendor, slug ::
              && p == Object(Dict(Some(package), version)) && IsPackage(package, vendor, slug)
              && name == vendor + [0x2F] + slug
  {
    if p.Object? && p.metadata.Dict? && p.metadata.package.Some? {
      PackageLabelExactly(p.metadata.package.value, name);
      assert p == Object(Dict(Some(p.metadata.package.value), p.metadata.version));
    }
  }

  lemma StartsExactly(env: Env, disk: Disk, e: Entry, f: Found)
    requires !StartupVerdict(env, e, DirAt(disk, e.dir)).Broken?
    ensures Starts(env, disk, e, f)
       <==> f.dir == e.dir && StartupVerdict(env, e, DirAt(disk, e.dir)) == Mounts(f.name, f.fingerprint)
  {
    var d := DirAt(disk, e.dir);
    if d.oas.There? {
      OasLabelExactly(env.parse(d.oas.value.bytes), f.name);
    }
  }

  /** What a completed startup walk mounts: exactly that. */
  lemma StartupWalkExactly(env: Env, disk: Disk, entries: seq<Entry>, f: Found)
    requires StartupWalk(env, disk, entries).Started?
    ensures f in StartupWalk(env, disk, entries).found <==> exists e :: e in entries && Starts(env, disk, e, f)
  {
    StartupWalkMembers(env, disk, entries);
    StartupAbortsExactly(env, disk, entries);
    forall e | e in entries
      ensures Starts(env, disk, e, f)
         <==> f.dir == e.dir && StartupVerdict(env, e, DirAt(disk, e.dir)) == Mounts(f.name, f.fingerprint)
    {
      BrokenExactly(env, e, DirAt(disk, e.dir));
      StartsExactly(env, disk, e, f);
    }
  }
}
