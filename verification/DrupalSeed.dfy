/**
 The Drupal fixture seeder: `docker/drupal/seed-content.php`. A seeding run reads
 its provenance first and writes it last; runs are not interrupted.
 */
module DrupalSeed {

  /** What the checksum covers. */
  datatype Fields = Fields(bundle: string, title: string, body: string, summary: string, published: bool)

  /** The body's text format is written with a fixture and not in the checksum. */
  datatype Node = Node(fields: Fields, format: string)

  const BASIC_HTML := "basic_html"

  datatype Entry = Entry(nid: nat, checksum: string, rev: int)

  datatype Fixture = Fixture(id: string, fields: Fields)

  /** `checksum` is the hash of a node's fields; `saved` is what Drupal makes of a
      node when storing it. */
  datatype Cms = Cms(checksum: Fields -> string, saved: Node -> Node)

  /** `next` is the next node id; ids are not used twice. `seeded` remembers what
      was last stored for each fixture. */
  datatype Site = Site(nodes: map<nat, Node>, next: nat, provenance: map<string, Entry>, seeded: map<string, Node>)

  datatype Action = Created | Replaced | SkippedDeleted | SkippedEdited | SkippedCurrent | Error

  function Decide(cms: Cms, s: Site, f: Fixture, version: int): Action {
    if f.id == "" then Error
    else if f.id !in s.provenance then Created
    else
      var entry := s.provenance[f.id];
      if entry.nid !in s.nodes then SkippedDeleted
      else if cms.checksum(s.nodes[entry.nid].fields) != entry.checksum then SkippedEdited
      else if version <= entry.rev then SkippedCurrent
      else Replaced
  }

  /** Storing a fixture's content under a node id. */
  function Stored(cms: Cms, s: Site, nid: nat, id: string, fields: Fields, version: int): Site {
    var kept := cms.saved(Node(fields, BASIC_HTML));
    s.(nodes := s.nodes[nid := kept],
       provenance := s.provenance[id := Entry(nid, cms.checksum(kept.fields), version)],
       seeded := s.seeded[id := kept])
  }

  function SeedOne(cms: Cms, s: Site, f: Fixture, version: int): Site {
    match Decide(cms, s, f, version)
    case Created => Stored(cms, s.(next := s.next + 1), s.next, f.id, f.fields, version)
    case Replaced =>
      var nid := s.provenance[f.id].nid;
      Stored(cms, s, nid, f.id, f.fields.(bundle := s.nodes[nid].fields.bundle), version)
    case _ => s
  }

  function SeedAll(cms: Cms, s: Site, fixtures: seq<Fixture>, version: int): Site {
    if fixtures == [] then s
    else SeedOne(cms, SeedAll(cms, s, fixtures[..|fixtures| - 1], version), fixtures[|fixtures| - 1], version)
  }

  /** What was done with the fixtures of the list. */
  function Actions(cms: Cms, s: Site, fixtures: seq<Fixture>, version: int): multiset<Action> {
    if fixtures == [] then multiset{}
    else
      var init, last := fixtures[..|fixtures| - 1], fixtures[|fixtures| - 1];
      Actions(cms, s, init, version) + multiset{Decide(cms, SeedAll(cms, s, init, version), last, version)}
  }

  predicate Counts(all: multiset<Action>, created: nat, replaced: nat, skipped: nat, errors: nat) {
    && created == all[Created] && replaced == all[Replaced] && errors == all[Error]
    && skipped == all[SkippedDeleted] + all[SkippedEdited] + all[SkippedCurrent]
  }

  function Total(all: multiset<Action>): nat {
    all[Created] + all[Replaced] + all[SkippedDeleted] + all[SkippedEdited] + all[SkippedCurrent] + all[Error]
  }

  lemma OneMore(all: multiset<Action>, action: Action, created: nat, replaced: nat, skipped: nat, errors: nat)
    requires Counts(all, created, replaced, skipped, errors)
    ensures Counts(all + multiset{action}, if action.Created? then created + 1 else created,
      if action.Replaced? then replaced + 1 else replaced,
      if action.Created? || action.Replaced? || action.Error? then skipped else skipped + 1,
      if action.Error? then errors + 1 else errors)
  {
  }

  lemma AddsOne(all: multiset<Action>, action: Action)
    ensures Total(all + multiset{action}) == Total(all) + 1
    ensures (all + multiset{action})[Created] == all[Created] + (if action.Created? then 1 else 0)
    ensures (all + multiset{action})[Replaced] == all[Replaced] + (if action.Replaced? then 1 else 0)
  {
  }

  /** One action for each fixture, and a new id for each that is created. */
  lemma {:induction false} ActionsAddUp(cms: Cms, s: Site, fixtures: seq<Fixture>, version: int)
    ensures var all, t := Actions(cms, s, fixtures, version), SeedAll(cms, s, fixtures, version);
            && Total(all) == |fixtures|
            && t.next == s.next + all[Created]
            && (all[Created] + all[Replaced] == 0 ==> t == s)
  {
    if fixtures != [] {
      var n := |fixtures| - 1;
      ActionsAddUp(cms, s, fixtures[..n], version);
      NextFixture(cms, s, fixtures, version, n);
      assert fixtures[..n + 1] == fixtures;
      AddsOne(Actions(cms, s, fixtures[..n], version),
        Decide(cms, SeedAll(cms, s, fixtures[..n], version), fixtures[n], version));
      OneAdds(cms, SeedAll(cms, s, fixtures[..n], version), fixtures[n], version);
    }
  }

  lemma OneAdds(cms: Cms, s: Site, f: Fixture, version: int)
    ensures var action, t := Decide(cms, s, f, version), SeedOne(cms, s, f, version);
            && t.next == s.next + (if action.Created? then 1 else 0)
            && (!action.Created? && !action.Replaced? ==> t == s)
  {
  }

  lemma NextFixture(cms: Cms, s: Site, fixtures: seq<Fixture>, version: int, i: nat)
    requires i < |fixtures|
    ensures var before := SeedAll(cms, s, fixtures[..i], version);
            var action := Decide(cms, before, fixtures[i], version);
            && SeedAll(cms, s, fixtures[..i + 1], version) == SeedOne(cms, before, fixtures[i], version)
            && Actions(cms, s, fixtures[..i + 1], version)
               == Actions(cms, s, fixtures[..i], version) + multiset{action}
  {
    assert fixtures[..i + 1][..i] == fixtures[..i];
  }

  // ------------------------------------------------------------------ the seeder

  class Seeder {
    const cms: Cms
    var nodes: map<nat, Node>
    var next: nat
    var provenance: map<string, Entry>
    ghost var seeded: map<string, Node>

    ghost function State(): Site
      reads this
    {
      Site(nodes, next, provenance, seeded)
    }

    constructor (cms: Cms)
      ensures this.cms == cms && State() == Site(map[], 1, map[], map[])
    {
      this.cms := cms;
      nodes, next, provenance, seeded := map[], 1, map[], map[];
    }

    method SeedNode(f: Fixture, version: int) returns (action: Action)
      modifies this
      ensures action == old(Decide(cms, State(), f, version))
      ensures State() == old(SeedOne(cms, State(), f, version))
    {
      if f.id == "" {
        return Error;
      }
      if f.id !in provenance {
        var kept := cms.saved(Node(f.fields, BASIC_HTML));
        nodes := nodes[next := kept];
        provenance := provenance[f.id := Entry(next, cms.checksum(kept.fields), version)];
        seeded := seeded[f.id := kept];
        next := next + 1;
        return Created;
      }
      var entry := provenance[f.id];
      if entry.nid !in nodes {
        return SkippedDeleted;
      }
      if cms.checksum(nodes[entry.nid].fields) != entry.checksum {
        return SkippedEdited;
      }
      if version <= entry.rev {
        return SkippedCurrent;
      }
      var kept := cms.saved(Node(f.fields.(bundle := nodes[entry.nid].fields.bundle), BASIC_HTML));
      nodes := nodes[entry.nid := kept];
      provenance := provenance[f.id := Entry(entry.nid, cms.checksum(kept.fields), version)];
      seeded := seeded[f.id := kept];
      return Replaced;
    }

    /** The main loop: every fixture in order, and one count for each. */
    method Seed(fixtures: seq<Fixture>, version: int) returns (created: nat, replaced: nat, skipped: nat, errors: nat)
      modifies this
      ensures State() == old(SeedAll(cms, State(), fixtures, version))
      ensures created + replaced + skipped + errors == |fixtures|
      ensures created + replaced == 0 ==> State() == old(State())
      ensures next == old(next) + created
      ensures Counts(old(Actions(cms, State(), fixtures, version)), created, replaced, skipped, errors)
    {
      ghost var before := State();
      created, replaced, skipped, errors := 0, 0, 0, 0;
      for i := 0 to |fixtures|
        invariant State() == SeedAll(cms, before, fixtures[..i], version)
        invariant Counts(Actions(cms, before, fixtures[..i], version), created, replaced, skipped, errors)
      {
        NextFixture(cms, before, fixtures, version, i);
        ghost var all := Actions(cms, before, fixtures[..i], version);
        var action := SeedNode(fixtures[i], version);
        OneMore(all, action, created, replaced, skipped, errors);
        match action
        case Created => created := created + 1;
        case Replaced => replaced := replaced + 1;
        case Error => errors := errors + 1;
        case _ => skipped := skipped + 1;
      }
      assert fixtures[..|fixtures|] == fixtures;
      ActionsAddUp(cms, before, fixtures, version);
    }
  }

  /** What is done with a fixture, case by case. */
  lemma DecidedExactly(cms: Cms, s: Site, f: Fixture, version: int)
    ensures var action := Decide(cms, s, f, version);
            && (action.Error? <==> f.id == "")
            && (action.Created? <==> f.id != "" && f.id !in s.provenance)
            && (f.id != "" && f.id in s.provenance ==>
                  var entry := s.provenance[f.id];
                  var there := entry.nid in s.nodes;
                  var edited := there && cms.checksum(s.nodes[entry.nid].fields) != entry.checksum;
                  && (action.SkippedDeleted? <==> !there)
                  && (action.SkippedEdited? <==> edited)
                  && (action.SkippedCurrent? <==> there && !edited && version <= entry.rev)
                  && (action.Replaced? <==> there && !edited && version > entry.rev))
  {
  }

  /** What the site is afterwards: a fixture's content goes to a new node, or to its
      own node, which keeps its bundle; and nothing else changes. */
  lemma SeededExactly(cms: Cms, s: Site, f: Fixture, version: int)
    ensures var action, t := Decide(cms, s, f, version), SeedOne(cms, s, f, version);
            && (action.Created? ==>
                  var kept := cms.saved(Node(f.fields, "basic_html"));
                  && t.nodes == s.nodes[s.next := kept] && t.next == s.next + 1
                  && t.provenance == s.provenance[f.id := Entry(s.next, cms.checksum(kept.fields), version)]
                  && t.seeded == s.seeded[f.id := kept])
            && (action.Replaced? ==>
                  var nid := s.provenance[f.id].nid;
                  var fields := Fields(s.nodes[nid].fields.bundle, f.fields.title, f.fields.body, f.fields.summary,
                    f.fields.published);
                  var kept := cms.saved(Node(fields, "basic_html"));
                  && t.nodes == s.nodes[nid := kept] && t.next == s.next
                  && t.provenance == s.provenance[f.id := Entry(nid, cms.checksum(kept.fields), version)]
                  && t.seeded == s.seeded[f.id := kept])
            && (!action.Created? && !action.Replaced? ==> t == s)
  {
  }

  // ------------------------------------------------------------------------ runs

  datatype Step =
    | Run(fixtures: seq<Fixture>, version: int)
    | UserEdit(nid: nat, node: Node)
    | UserCreate(node: Node)
    | UserDelete(nid: nat)

  function Do(cms: Cms, s: Site, step: Step): Site {
    match step
    case Run(fixtures, version) => SeedAll(cms, s, fixtures, version)
    case UserEdit(nid, node) => if nid in s.nodes then s.(nodes := s.nodes[nid := cms.saved(node)]) else s
    case UserCreate(node) => s.(nodes := s.nodes[s.next := cms.saved(node)], next := s.next + 1)
    case UserDelete(nid) => s.(nodes := s.nodes - {nid})
  }

  function After(cms: Cms, s: Site, steps: seq<Step>): Site
    decreases |steps|
  {
    if steps == [] then s else After(cms, Do(cms, s, steps[0]), steps[1..])
  }

  /** Provenance names nodes that were really made, each fixture its own, with the
      checksum of what was stored. */
  ghost predicate Inv(cms: Cms, s: Site) {
    && (forall nid :: nid in s.nodes ==> nid < s.next)
    && s.provenance.Keys == s.seeded.Keys && "" !in s.provenance
    && (forall id :: id in s.provenance ==>
          s.provenance[id].nid < s.next && s.provenance[id].checksum == cms.checksum(s.seeded[id].fields))
    && (forall i, j :: i in s.provenance && j in s.provenance && i != j ==> s.provenance[i].nid != s.provenance[j].nid)
  }

  lemma OneKeeps(cms: Cms, s: Site, f: Fixture, version: int)
    requires Inv(cms, s)
    ensures Inv(cms, SeedOne(cms, s, f, version))
  {
  }

  lemma {:induction false} AllKeep(cms: Cms, s: Site, fixtures: seq<Fixture>, version: int)
    requires Inv(cms, s)
    ensures Inv(cms, SeedAll(cms, s, fixtures, version))
  {
    if fixtures != [] {
      var init := fixtures[..|fixtures| - 1];
      AllKeep(cms, s, init, version);
      OneKeeps(cms, SeedAll(cms, s, init, version), fixtures[|fixtures| - 1], version);
    }
  }

  lemma DoKeeps(cms: Cms, s: Site, step: Step)
    requires Inv(cms, s)
    ensures Inv(cms, Do(cms, s, step))
  {
    if step.Run? {
      AllKeep(cms, s, step.fixtures, step.version);
    }
  }

  lemma {:induction false} RunsKeep(cms: Cms, s: Site, steps: seq<Step>)
    requires Inv(cms, s)
    ensures Inv(cms, After(cms, s, steps))
    decreases |steps|
  {
    if steps != [] {
      DoKeeps(cms, s, steps[0]);
      RunsKeep(cms, Do(cms, s, steps[0]), steps[1..]);
    }
  }

  // --------------------------------------------------------- user work is not lost

  ghost predicate CollisionFree(cms: Cms) {
    forall a, b :: cms.checksum(a) == cms.checksum(b) ==> a == b
  }

  /** The node is what was last stored for the fixture, but for its text format. */
  ghost predicate Untouched(s: Site, id: string, nid: nat) {
    && id in s.provenance && id in s.seeded && s.provenance[id].nid == nid
    && nid in s.nodes && s.nodes[nid].fields == s.seeded[id].fields
  }

  /** A fixture's node is replaced if and only if it is there, differs from what was
      last seeded at most in its text format, and the manifest is newer. */
  lemma ReplacedExactly(cms: Cms, s: Site, f: Fixture, version: int)
    requires CollisionFree(cms) && Inv(cms, s)
    ensures Decide(cms, s, f, version) == Replaced
       <==> f.id in s.provenance && Untouched(s, f.id, s.provenance[f.id].nid) && version > s.provenance[f.id].rev
  {
  }

  lemma OneSpares(cms: Cms, s: Site, f: Fixture, version: int, nid: nat)
    requires CollisionFree(cms) && Inv(cms, s) && nid in s.nodes
    ensures var t := SeedOne(cms, s, f, version);
            && nid in t.nodes
            && (t.nodes[nid] != s.nodes[nid] ==> Untouched(s, f.id, nid) && version > s.provenance[f.id].rev)
  {
  }

  /** A fixture that is not its node's last seeded content stays so in a run. */
  lemma {:induction false} AllSpare(cms: Cms, s: Site, fixtures: seq<Fixture>, version: int, nid: nat)
    requires CollisionFree(cms) && Inv(cms, s) && nid in s.nodes
    ensures var t := SeedAll(cms, s, fixtures, version);
            && nid in t.nodes
            && ((forall id :: id in s.provenance ==> !Untouched(s, id, nid)) ==>
                  t.nodes[nid] == s.nodes[nid] && forall id :: id in t.provenance ==> !Untouched(t, id, nid))
  {
    if fixtures != [] {
      var init, f := fixtures[..|fixtures| - 1], fixtures[|fixtures| - 1];
      AllSpare(cms, s, init, version, nid);
      AllKeep(cms, s, init, version);
      OneSpares(cms, SeedAll(cms, s, init, version), f, version, nid);
    }
  }

  /** In any run, seeding changes a node only if it is the node of a fixture and
      differs from what was last seeded there at most in its text format; and it
      deletes none. */
  lemma SeedingSparesUserWork(cms: Cms, s: Site, steps: seq<Step>, fixtures: seq<Fixture>, version: int, nid: nat)
    requires CollisionFree(cms) && Inv(cms, s)
    requires nid in After(cms, s, steps).nodes
    ensures var before := After(cms, s, steps);
            var after := Do(cms, before, Run(fixtures, version));
            && nid in after.nodes
            && (after.nodes[nid] != before.nodes[nid] ==> exists id :: Untouched(before, id, nid))
  {
    RunsKeep(cms, s, steps);
    AllSpare(cms, After(cms, s, steps), fixtures, version, nid);
  }

  lemma RunOne(cms: Cms, s: Site, f: Fixture, version: int)
    ensures Do(cms, s, Run([f], version)) == SeedOne(cms, s, f, version)
  {
    assert [f][..0] == [];
    assert SeedAll(cms, s, [], version) == s;
  }

  /** A change of the text format alone is work that is lost: seeded, given another
      format by a user, seeded again from a newer manifest. */
  lemma FormatChangeIsLost(cms: Cms, f: Fixture, format: string)
    requires f.id != "" && format != BASIC_HTML && forall n :: cms.saved(n) == n
    ensures var edited := After(cms, Site(map[], 1, map[], map[]), [Run([f], 1), UserEdit(1, Node(f.fields, format))]);
            && 1 in edited.nodes && edited.nodes[1] == Node(f.fields, format)
            && 1 in Do(cms, edited, Run([f], 2)).nodes
            && Do(cms, edited, Run([f], 2)).nodes[1] == Node(f.fields, BASIC_HTML)
  {
    var empty := Site(map[], 1, map[], map[]);
    var edit := UserEdit(1, Node(f.fields, format));
    RunOne(cms, empty, f, 1);
    var seeded := SeedOne(cms, empty, f, 1);
    assert [Run([f], 1), edit][1..] == [edit] && [edit][1..] == [];
    var edited := Do(cms, seeded, edit);
    assert After(cms, empty, [Run([f], 1), edit]) == After(cms, seeded, [edit]) == edited;
    RunOne(cms, edited, f, 2);
  }

  /** The fixture's node was deleted. */
  predicate IsGone(s: Site, id: string, entry: Entry) {
    id in s.provenance && s.provenance[id] == entry && entry.nid !in s.nodes && entry.nid < s.next
  }

  lemma OneLeavesGone(cms: Cms, s: Site, f: Fixture, version: int, id: string, entry: Entry)
    requires Inv(cms, s) && IsGone(s, id, entry)
    ensures IsGone(SeedOne(cms, s, f, version), id, entry)
  {
  }

  lemma {:induction false} AllLeaveGone(cms: Cms, s: Site, fixtures: seq<Fixture>, version: int, id: string,
          entry: Entry)
    requires Inv(cms, s) && IsGone(s, id, entry)
    ensures IsGone(SeedAll(cms, s, fixtures, version), id, entry)
  {
    if fixtures != [] {
      var init := fixtures[..|fixtures| - 1];
      AllLeaveGone(cms, s, init, version, id, entry);
      AllKeep(cms, s, init, version);
      OneLeavesGone(cms, SeedAll(cms, s, init, version), fixtures[|fixtures| - 1], version, id, entry);
    }
  }

  /** A seeded node that was deleted is never made again, whatever is seeded,
      edited, created or deleted afterwards. */
  lemma {:induction false} DeletedStaysDeleted(cms: Cms, s: Site, steps: seq<Step>, id: string, entry: Entry)
    requires Inv(cms, s) && IsGone(s, id, entry)
    ensures IsGone(After(cms, s, steps), id, entry)
    decreases |steps|
  {
    if steps != [] {
      var step := steps[0];
      if step.Run? {
        AllLeaveGone(cms, s, step.fixtures, step.version, id, entry);
      }
      DoKeeps(cms, s, step);
      DeletedStaysDeleted(cms, Do(cms, s, step), steps[1..], id, entry);
    }
  }

  /** The revision of a fixture never goes back, and its node never changes. */
  ghost predicate NotBehind(s: Site, t: Site) {
    forall id :: id in s.provenance ==>
      id in t.provenance && t.provenance[id].rev >= s.provenance[id].rev && t.provenance[id].nid == s.provenance[id].nid
  }

  lemma {:induction false} AllAdvance(cms: Cms, s: Site, fixtures: seq<Fixture>, version: int)
    ensures NotBehind(s, SeedAll(cms, s, fixtures, version))
  {
    if fixtures != [] {
      AllAdvance(cms, s, fixtures[..|fixtures| - 1], version);
    }
  }

  lemma {:induction false} RevNeverDecreases(cms: Cms, s: Site, steps: seq<Step>)
    ensures NotBehind(s, After(cms, s, steps))
    decreases |steps|
  {
    if steps != [] {
      if steps[0].Run? {
        AllAdvance(cms, s, steps[0].fixtures, steps[0].version);
      }
      RevNeverDecreases(cms, Do(cms, s, steps[0]), steps[1..]);
    }
  }

  // ------------------------------------------------------------------- idempotence

  /** Nothing is left to do for this fixture at this version. */
  predicate Settled(cms: Cms, s: Site, id: string, version: int) {
    id == "" || (id in s.provenance &&
                 (var e := s.provenance[id];
                  e.nid !in s.nodes || cms.checksum(s.nodes[e.nid].fields) != e.checksum || version <= e.rev))
  }

  lemma OneSettles(cms: Cms, s: Site, f: Fixture, version: int, id: string)
    requires Inv(cms, s) && (id == f.id || Settled(cms, s, id, version))
    ensures Settled(cms, SeedOne(cms, s, f, version), id, version)
  {
  }

  lemma {:induction false} AllSettle(cms: Cms, s: Site, fixtures: seq<Fixture>, version: int)
    requires Inv(cms, s)
    ensures forall f :: f in fixtures ==> Settled(cms, SeedAll(cms, s, fixtures, version), f.id, version)
  {
    if fixtures != [] {
      var init, last := fixtures[..|fixtures| - 1], fixtures[|fixtures| - 1];
      AllSettle(cms, s, init, version);
      AllKeep(cms, s, init, version);
      forall f | f in fixtures
        ensures Settled(cms, SeedAll(cms, s, fixtures, version), f.id, version)
      {
        assert fixtures == init + [last];
        OneSettles(cms, SeedAll(cms, s, init, version), last, version, f.id);
      }
    }
  }

  lemma {:induction false} SettledIsIdle(cms: Cms, s: Site, fixtures: seq<Fixture>, version: int)
    requires forall f :: f in fixtures ==> Settled(cms, s, f.id, version)
    ensures SeedAll(cms, s, fixtures, version) == s
  {
    if fixtures != [] {
      SettledIsIdle(cms, s, fixtures[..|fixtures| - 1], version);
    }
  }

  /** Seeding the same manifest again changes nothing. */
  lemma RerunChangesNothing(cms: Cms, s: Site, fixtures: seq<Fixture>, version: int)
    requires Inv(cms, s)
    ensures var once := SeedAll(cms, s, fixtures, version); SeedAll(cms, once, fixtures, version) == once
  {
    AllSettle(cms, s, fixtures, version);
    SettledIsIdle(cms, SeedAll(cms, s, fixtures, version), fixtures, version);
  }
}
