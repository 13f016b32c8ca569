/**
 The WordPress fixture seeder: `docker/wordpress/seed-content.php`. Provenance
 lives in the post's own meta fields. WordPress may refuse to store a post.
 */
module WordPressSeed {
  import opened Wrappers

  datatype Kind = PostKind | PageKind | OtherKind(name: string)

  datatype Status = Publish | Draft | Pending | Private | Future | Trash | Unlisted(name: string)

  datatype Content = Content(kind: Kind, title: string, text: string, status: Status)

  /** The three meta fields the seeder writes. */
  datatype Mark = Mark(fixtureId: string, checksum: string, rev: int)

  datatype Post = Post(content: Content, mark: Option<Mark>)

  datatype Fixture = Fixture(id: string, content: Content)

  /** `checksum` hashes a post's own fields, `saved` is what WordPress makes of a
      post when storing it, `first` is the post a query lists first (the order is
      by post date, which stays as it was when the post was made). */
  datatype Cms = Cms(checksum: Content -> string, saved: Content -> Content, first: set<nat> -> nat)

  ghost predicate Sound(cms: Cms) {
    forall ids :: ids != {} ==> cms.first(ids) in ids
  }

  /** `next` is the next post id; ids are not used twice. `seeded` remembers what
      was last stored in each seeded post. */
  datatype Site = Site(posts: map<nat, Post>, next: nat, seeded: map<nat, Content>)

  datatype Action = Created | Replaced | SkippedDeleted | SkippedEdited | SkippedCurrent | Error

  predicate Queried(c: Content) { !c.kind.OtherKind? && !c.status.Unlisted? }

  predicate IsMarked(p: Post, id: string) { p.mark.Some? && p.mark.value.fixtureId == id }

  /** The posts `cinatra_wp_seed_find` asks for. */
  function Found(s: Site, id: string): set<nat> {
    set k | k in s.posts && IsMarked(s.posts[k], id) && Queried(s.posts[k].content)
  }

  function Find(cms: Cms, s: Site, id: string): Option<nat> {
    var ids := Found(s, id);
    if ids == {} then None else Some(cms.first(ids))
  }

  predicate IsOwned(cms: Cms, p: Post) {
    p.mark.Some? && cms.checksum(p.content) == p.mark.value.checksum
  }

  /** What the seeder does with a fixture; `stored` says whether WordPress will
      store the post. */
  function Decide(cms: Cms, s: Site, f: Fixture, version: int, stored: bool): Action {
    if f.id == "" then Error
    else
      var k := Find(cms, s, f.id);
      if k.None? then (if stored then Created else Error)
      else if k.value !in s.posts then Error
      else
        var p := s.posts[k.value];
        if p.content.status == Trash then SkippedDeleted
        else if !IsOwned(cms, p) then SkippedEdited
        else if version <= p.mark.value.rev then SkippedCurrent
        else if stored then Replaced
        else Error
  }

  function Stored(cms: Cms, s: Site, k: nat, id: string, content: Content, version: int): Site {
    var kept := cms.saved(content);
    s.(posts := s.posts[k := Post(kept, Some(Mark(id, cms.checksum(kept), version)))], seeded := s.seeded[k := kept])
  }

  function SeedOne(cms: Cms, s: Site, f: Fixture, version: int, stored: bool): Site {
    match Decide(cms, s, f, version, stored)
    case Created => Stored(cms, s.(next := s.next + 1), s.next, f.id, f.content, version)
    case Replaced =>
      var k := Find(cms, s, f.id).value;
      if k in s.posts then Stored(cms, s, k, f.id, f.content.(kind := s.posts[k].content.kind), version) else s
    case _ => s
  }

  /** `ok` gives WordPress's answer for each fixture of the list. */
  function SeedAll(cms: Cms, s: Site, fixtures: seq<Fixture>, version: int, ok: nat -> bool): Site {
    if fixtures == [] then s
    else
      var n := |fixtures| - 1;
      SeedOne(cms, SeedAll(cms, s, fixtures[..n], version, ok), fixtures[n], version, ok(n))
  }

  /** What was done with the fixtures of the list. */
  function Actions(cms: Cms, s: Site, fixtures: seq<Fixture>, version: int, ok: nat -> bool): multiset<Action> {
    if fixtures == [] then multiset{}
    else
      var n := |fixtures| - 1;
      Actions(cms, s, fixtures[..n], version, ok)
        + multiset{Decide(cms, SeedAll(cms, s, fixtures[..n], version, ok), fixtures[n], version, ok(n))}
  }

  predicate Counts(all: multiset<Action>, created: nat, replaced: nat, skipped: nat, errors: nat) {
    && created == all[Created] && replaced == all[Replaced] && errors == all[Error]
    && skipped == all[SkippedDeleted] + all[SkippedEdited] + all[SkippedCurrent]
  }

  function Total(all: multiset<Action>): nat {
    all[Created] + all[Replaced] + all[SkippedDeleted] + all[SkippedEdited] + all[SkippedCurrent] + all[Error]
  }

  lemma OneMore(all: multiset<Action>, action: Action, created: nat, replaced: nat, skipped: nat, errors: nat)
    requires Counts(all, created, replaced, skipped, errors)
    ensures Counts(all + multiset{action}, if action.Created? then created + 1 else created,
      if action.Replaced? then replaced + 1 else replaced,
      if action.Created? || action.Replaced? || action.Error? then skipped else skipped + 1,
      if action.Error? then errors + 1 else errors)
  {
  }

  lemma AddsOne(all: multiset<Action>, action: Action)
    ensures Total(all + multiset{action}) == Total(all) + 1
    ensures (all + multiset{action})[Created] == all[Created] + (if action.Created? then 1 else 0)
    ensures (all + multiset{action})[Replaced] == all[Replaced] + (if action.Replaced? then 1 else 0)
  {
  }

  /** One action for each fixture, and a new id for each that is created. */
  lemma {:induction false} ActionsAddUp(cms: Cms, s: Site, fixtures: seq<Fixture>, version: int, ok: nat -> bool)
    ensures var all, t := Actions(cms, s, fixtures, version, ok), SeedAll(cms, s, fixtures, version, ok);
            && Total(all) == |fixtures|
            && t.next == s.next + all[Created]
            && (all[Created] + all[Replaced] == 0 ==> t == s)
  {
    if fixtures != [] {
      var n := |fixtures| - 1;
      ActionsAddUp(cms, s, fixtures[..n], version, ok);
      NextFixture(cms, s, fixtures, version, ok, n);
      assert fixtures[..n + 1] == fixtures;
      AddsOne(Actions(cms, s, fixtures[..n], version, ok),
        Decide(cms, SeedAll(cms, s, fixtures[..n], version, ok), fixtures[n], version, ok(n)));
      OneAdds(cms, SeedAll(cms, s, fixtures[..n], version, ok), fixtures[n], version, ok(n));
    }
  }

  lemma OneAdds(cms: Cms, s: Site, f: Fixture, version: int, stored: bool)
    ensures var action, t := Decide(cms, s, f, version, stored), SeedOne(cms, s, f, version, stored);
            && t.next == s.next + (if action.Created? then 1 else 0)
            && (!action.Created? && !action.Replaced? ==> t == s)
  {
  }

  lemma NextFixture(cms: Cms, s: Site, fixtures: seq<Fixture>, version: int, ok: nat -> bool, i: nat)
    requires i < |fixtures|
    ensures var before := SeedAll(cms, s, fixtures[..i], version, ok);
            var action := Decide(cms, before, fixtures[i], version, ok(i));
            && SeedAll(cms, s, fixtures[..i + 1], version, ok) == SeedOne(cms, before, fixtures[i], version, ok(i))
            && Actions(cms, s, fixtures[..i + 1], version, ok)
               == Actions(cms, s, fixtures[..i], version, ok) + multiset{action}
  {
    assert fixtures[..i + 1][..i] == fixtures[..i];
  }

  // ------------------------------------------------------------------ the seeder

  class Seeder {
    const cms: Cms
    var posts: map<nat, Post>
    var next: nat
    ghost var seeded: map<nat, Content>

    ghost function State(): Site
      reads this
    {
      Site(posts, next, seeded)
    }

    constructor (cms: Cms)
      ensures this.cms == cms && State() == Site(map[], 1, map[])
    {
      this.cms := cms;
      posts, next, seeded := map[], 1, map[];
    }

    method FindPost(id: string) returns (k: Option<nat>)
      ensures k == Find(cms, State(), id)
    {
      var ids := set k | k in posts && IsMarked(posts[k], id) && Queried(posts[k].content);
      assert ids == Found(State(), id);
      k := if ids == {} then None else Some(cms.first(ids));
    }

    /** `cinatra_wp_seed_mark`: the checksum is taken of the post as stored. */
    method MarkPost(k: nat, id: string, version: int)
      requires k in posts
      modifies this`posts, this`seeded
      ensures seeded == old(seeded)[k := old(posts)[k].content]
      ensures posts == old(posts)[k :=
          Post(old(posts)[k].content, Some(Mark(id, cms.checksum(old(posts)[k].content), version)))]
    {
      var p := posts[k];
      posts := posts[k := Post(p.content, Some(Mark(id, cms.checksum(p.content), version)))];
      seeded := seeded[k := p.content];
    }

    method SeedPost(f: Fixture, version: int, stored: bool) returns (action: Action)
      requires Sound(cms)
      modifies this
      ensures action == old(Decide(cms, State(), f, version, stored))
      ensures State() == old(SeedOne(cms, State(), f, version, stored))
    {
      if f.id == "" {
        return Error;
      }
      var k := FindPost(f.id);
      if k.None? {
        if !stored {
          return Error;
        }
        posts := posts[next := Post(cms.saved(f.content), None)];
        MarkPost(next, f.id, version);
        next := next + 1;
        return Created;
      }
      assert k.value in Found(State(), f.id);
      var p := posts[k.value];
      if p.content.status == Trash {
        return SkippedDeleted;
      }
      if cms.checksum(p.content) != p.mark.value.checksum {
        return SkippedEdited;
      }
      if version <= p.mark.value.rev {
        return SkippedCurrent;
      }
      if !stored {
        return Error;
      }
      posts := posts[k.value := Post(cms.saved(f.content.(kind := p.content.kind)), p.mark)];
      MarkPost(k.value, f.id, version);
      return Replaced;
    }

    /** The main loop: every fixture in order, and one count for each. */
    method Seed(fixtures: seq<Fixture>, version: int, ok: nat -> bool)
      returns (created: nat, replaced: nat, skipped: nat, errors: nat)
      requires Sound(cms)
      modifies this
      ensures State() == old(SeedAll(cms, State(), fixtures, version, ok))
      ensures created + replaced + skipped + errors == |fixtures|
      ensures created + replaced == 0 ==> State() == old(State())
      ensures next == old(next) + created
      ensures Counts(old(Actions(cms, State(), fixtures, version, ok)), created, replaced, skipped, errors)
    {
      ghost var before := State();
      created, replaced, skipped, errors := 0, 0, 0, 0;
      for i := 0 to |fixtures|
        invariant State() == SeedAll(cms, before, fixtures[..i], version, ok)
        invariant Counts(Actions(cms, before, fixtures[..i], version, ok), created, replaced, skipped, errors)
      {
        NextFixture(cms, before, fixtures, version, ok, i);
        ghost var all := Actions(cms, before, fixtures[..i], version, ok);
        var action := SeedPost(fixtures[i], version, ok(i));
        OneMore(all, action, created, replaced, skipped, errors);
        match action
        case Created => created := created + 1;
        case Replaced => replaced := replaced + 1;
        case Error => errors := errors + 1;
        case _ => skipped := skipped + 1;
      }
      assert fixtures[..|fixtures|] == fixtures;
      ActionsAddUp(cms, before, fixtures, version, ok);
    }
  }

  // ------------------------------------------------------------------------ runs

  /** A user changes content and never the seeder's meta fields; trashing and
      restoring a post are changes of its status. */
  datatype Step =
    | Run(fixtures: seq<Fixture>, version: int, ok: nat -> bool)
    | UserEdit(k: nat, content: Content)
    | UserCreate(content: Content)
    | UserDelete(k: nat)

  function Do(cms: Cms, s: Site, step: Step): Site {
    match step
    case Run(fixtures, version, ok) => SeedAll(cms, s, fixtures, version, ok)
    case UserEdit(k, content) =>
      if k in s.posts then s.(posts := s.posts[k := s.posts[k].(content := cms.saved(content))]) else s
    case UserCreate(content) => s.(posts := s.posts[s.next := Post(cms.saved(content), None)], next := s.next + 1)
    case UserDelete(k) => s.(posts := s.posts - {k})
  }

  function After(cms: Cms, s: Site, steps: seq<Step>): Site
    decreases |steps|
  {
    if steps == [] then s else After(cms, Do(cms, s, steps[0]), steps[1..])
  }

  ghost predicate CollisionFree(cms: Cms) {
    forall a, b :: cms.checksum(a) == cms.checksum(b) ==> a == b
  }

  /** Every mark holds the checksum of what was last stored in its post. */
  ghost predicate Inv(cms: Cms, s: Site) {
    && (forall k :: k in s.posts ==> k < s.next)
    && (forall k :: k in s.posts && s.posts[k].mark.Some? ==>
          && k in s.seeded && s.posts[k].mark.value.checksum == cms.checksum(s.seeded[k])
          && s.posts[k].mark.value.fixtureId != "")
  }

  lemma FoundIsMarked(cms: Cms, s: Site, id: string)
    requires Sound(cms) && Find(cms, s, id).Some?
    ensures var k := Find(cms, s, id).value; k in s.posts && IsMarked(s.posts[k], id) && Queried(s.posts[k].content)
  {
    assert Find(cms, s, id).value in Found(s, id);
  }

  lemma OneKeeps(cms: Cms, s: Site, f: Fixture, version: int, stored: bool)
    requires Sound(cms) && Inv(cms, s)
    ensures Inv(cms, SeedOne(cms, s, f, version, stored))
  {
    if Find(cms, s, f.id).Some? {
      FoundIsMarked(cms, s, f.id);
    }
  }

  lemma {:induction false} AllKeep(cms: Cms, s: Site, fixtures: seq<Fixture>, version: int, ok: nat -> bool)
    requires Sound(cms) && Inv(cms, s)
    ensures Inv(cms, SeedAll(cms, s, fixtures, version, ok))
  {
    if fixtures != [] {
      var n := |fixtures| - 1;
      AllKeep(cms, s, fixtures[..n], version, ok);
      OneKeeps(cms, SeedAll(cms, s, fixtures[..n], version, ok), fixtures[n], version, ok(n));
    }
  }

  lemma DoKeeps(cms: Cms, s: Site, step: Step)
    requires Sound(cms) && Inv(cms, s)
    ensures Inv(cms, Do(cms, s, step))
  {
    if step.Run? {
      AllKeep(cms, s, step.fixtures, step.version, step.ok);
    }
  }

  lemma {:induction false} RunsKeep(cms: Cms, s: Site, steps: seq<Step>)
    requires Sound(cms) && Inv(cms, s)
    ensures Inv(cms, After(cms, s, steps))
    decreases |steps|
  {
    if steps != [] {
      DoKeeps(cms, s, steps[0]);
      RunsKeep(cms, Do(cms, s, steps[0]), steps[1..]);
    }
  }

  // ------------------------------------------------------- one fixture, case by case

  /** A post of a listed type and status with the fixture's own mark. */
  predicate IsListed(p: Post, id: string) {
    && p.mark.Some? && p.mark.value.fixtureId == id
    && (p.content.kind == PostKind || p.content.kind == PageKind)
    && p.content.status in {Publish, Draft, Pending, Private, Future, Trash}
  }

  function Listed(s: Site, id: string): set<nat> {
    set k | k in s.posts && IsListed(s.posts[k], id)
  }

  /** What is done when this is the post that was found. */
  predicate IsAction(cms: Cms, p: Post, version: int, stored: bool, action: Action)
    requires p.mark.Some?
  {
    var trashed, edited := p.content.status == Trash, cms.checksum(p.content) != p.mark.value.checksum;
    var newer := version > p.mark.value.rev;
    && (action.SkippedDeleted? <==> trashed)
    && (action.SkippedEdited? <==> !trashed && edited)
    && (action.SkippedCurrent? <==> !trashed && !edited && !newer)
    && (action.Error? <==> !trashed && !edited && newer && !stored)
    && (action.Replaced? <==> !trashed && !edited && newer && stored)
  }

  /** The post found is the first one listed, and there is one unless none is listed. */
  lemma FoundExactly(cms: Cms, s: Site, id: string)
    requires Sound(cms)
    ensures Find(cms, s, id).None? <==> forall k :: k in s.posts ==> !IsListed(s.posts[k], id)
    ensures Find(cms, s, id).Some? ==>
              Find(cms, s, id).value in Listed(s, id) && Find(cms, s, id).value == cms.first(Listed(s, id))
  {
    assert forall k :: k in s.posts ==> (IsListed(s.posts[k], id) <==> k in Found(s, id));
    assert Listed(s, id) == Found(s, id);
  }

  lemma DecidedExactly(cms: Cms, s: Site, f: Fixture, version: int, stored: bool)
    requires Sound(cms)
    ensures var action, k := Decide(cms, s, f, version, stored), Find(cms, s, f.id);
            && (f.id == "" ==> action.Error?)
            && (f.id != "" && k.None? ==> action == if stored then Created else Error)
            && (f.id != "" && k.Some? ==>
                  && k.value in s.posts && s.posts[k.value].mark.Some?
                  && IsAction(cms, s.posts[k.value], version, stored, action))
  {
    FoundExactly(cms, s, f.id);
  }

  /** What the site is afterwards: a fixture's content goes to a new post, or to the
      post that was found, which keeps its type; and nothing else changes. */
  lemma SeededExactly(cms: Cms, s: Site, f: Fixture, version: int, stored: bool)
    requires Sound(cms)
    ensures var action, t := Decide(cms, s, f, version, stored), SeedOne(cms, s, f, version, stored);
            && (action.Created? ==>
                  var kept := cms.saved(f.content);
                  && t.posts == s.posts[s.next := Post(kept, Some(Mark(f.id, cms.checksum(kept), version)))]
                  && t.next == s.next + 1 && t.seeded == s.seeded[s.next := kept])
            && (action.Replaced? ==>
                  && Find(cms, s, f.id).Some? && Find(cms, s, f.id).value in s.posts
                  && var k := Find(cms, s, f.id).value;
                  var kept := cms.saved(Content(s.posts[k].content.kind, f.content.title, f.content.text,
                    f.content.status));
                  && t.posts == s.posts[k := Post(kept, Some(Mark(f.id, cms.checksum(kept), version)))]
                  && t.next == s.next && t.seeded == s.seeded[k := kept])
            && (!action.Created? && !action.Replaced? ==> t == s)
  {
    FoundExactly(cms, s, f.id);
  }

  // --------------------------------------------------------- user work is not lost

  /** The post is not the seeder's to change: unmarked, trashed, or edited. */
  predicate IsUsers(cms: Cms, p: Post) {
    p.mark.None? || p.content.status == Trash || !IsOwned(cms, p)
  }

  /** Seeding, in any site, leaves every post of the user's as it is: one that
      was never seeded, is in the trash, or differs from what was last seeded. */
  lemma {:induction false} SeedingSparesUserWork(cms: Cms, s: Site, fixtures: seq<Fixture>, version: int,
          ok: nat -> bool, k: nat)
    requires Sound(cms) && k in s.posts && k < s.next && IsUsers(cms, s.posts[k])
    ensures var t := SeedAll(cms, s, fixtures, version, ok); k in t.posts && k < t.next && t.posts[k] == s.posts[k]
  {
    if fixtures != [] {
      var n := |fixtures| - 1;
      SeedingSparesUserWork(cms, s, fixtures[..n], version, ok, k);
      var mid := SeedAll(cms, s, fixtures[..n], version, ok);
      if Find(cms, mid, fixtures[n].id).Some? {
        FoundIsMarked(cms, mid, fixtures[n].id);
      }
    }
  }

  /** In any run, seeding a fixture changes at most the post it found, and that
      one only if it holds exactly what was last seeded into it, is not in the
      trash, and the manifest is newer. No post is removed. */
  lemma ReplacedOnlyWhatWasSeeded(cms: Cms, s: Site, steps: seq<Step>, f: Fixture, version: int, stored: bool, k: nat)
    requires Sound(cms) && CollisionFree(cms) && Inv(cms, s)
    requires k in After(cms, s, steps).posts
    ensures var before := After(cms, s, steps);
            var after := SeedOne(cms, before, f, version, stored);
            && k in after.posts
            && (after.posts[k] != before.posts[k] ==>
                  && IsMarked(before.posts[k], f.id) && k in before.seeded
                    && before.posts[k].content == before.seeded[k]
                  && before.posts[k].content.status != Trash && version > before.posts[k].mark.value.rev)
  {
    RunsKeep(cms, s, steps);
    var before := After(cms, s, steps);
    if Find(cms, before, f.id).Some? {
      FoundIsMarked(cms, before, f.id);
    }
  }

  /** The fixture's only post is in the trash. */
  ghost predicate IsTrashed(s: Site, id: string, k: nat) {
    && k in s.posts && k < s.next && IsMarked(s.posts[k], id) && Queried(s.posts[k].content)
    && s.posts[k].content.status == Trash
    && forall j :: j in s.posts && IsMarked(s.posts[j], id) ==> j == k
  }

  lemma TrashedIsFound(cms: Cms, s: Site, id: string, k: nat)
    requires Sound(cms) && IsTrashed(s, id, k)
    ensures Find(cms, s, id) == Some(k)
  {
    assert k in Found(s, id);
    FoundIsMarked(cms, s, id);
  }

  lemma OneLeavesTrash(cms: Cms, s: Site, f: Fixture, version: int, stored: bool, id: string, k: nat)
    requires Sound(cms) && Inv(cms, s) && IsTrashed(s, id, k)
    ensures IsTrashed(SeedOne(cms, s, f, version, stored), id, k)
  {
    TrashedIsFound(cms, s, id, k);
    if f.id != id && Find(cms, s, f.id).Some? {
      FoundIsMarked(cms, s, f.id);
    }
  }

  lemma {:induction false} AllLeaveTrash(cms: Cms, s: Site, fixtures: seq<Fixture>, version: int, ok: nat -> bool,
          id: string, k: nat)
    requires Sound(cms) && Inv(cms, s) && IsTrashed(s, id, k)
    ensures IsTrashed(SeedAll(cms, s, fixtures, version, ok), id, k)
  {
    if fixtures != [] {
      var n := |fixtures| - 1;
      AllLeaveTrash(cms, s, fixtures[..n], version, ok, id, k);
      AllKeep(cms, s, fixtures[..n], version, ok);
      OneLeavesTrash(cms, SeedAll(cms, s, fixtures[..n], version, ok), fixtures[n], version, ok(n), id, k);
    }
  }

  predicate Touches(step: Step, k: nat) {
    (step.UserEdit? || step.UserDelete?) && step.k == k
  }

  /** A post in the trash stays there and is not made a second time, whatever is
      seeded and whatever users do to other posts. */
  lemma {:induction false} TrashedStaysTrashed(cms: Cms, s: Site, steps: seq<Step>, id: string, k: nat)
    requires Sound(cms) && Inv(cms, s) && IsTrashed(s, id, k)
    requires forall i :: 0 <= i < |steps| ==> !Touches(steps[i], k)
    ensures IsTrashed(After(cms, s, steps), id, k)
    decreases |steps|
  {
    if steps != [] {
      var step := steps[0];
      if step.Run? {
        AllLeaveTrash(cms, s, step.fixtures, step.version, step.ok, id, k);
      }
      DoKeeps(cms, s, step);
      TrashedStaysTrashed(cms, Do(cms, s, step), steps[1..], id, k);
    }
  }

  /** A fixture's post is made again exactly when none of its posts has one of the
      queried types and statuses: so also after a permanent deletion, or once a
      user gave the post a status of another plugin's. */
  lemma CreatedWhenNotFound(cms: Cms, s: Site, f: Fixture, version: int)
    requires Sound(cms) && Inv(cms, s)
    ensures s.next in SeedOne(cms, s, f, version, true).posts
       <==> f.id != "" && forall k :: k in s.posts && IsMarked(s.posts[k], f.id) ==> !Queried(s.posts[k].content)
  {
    if Find(cms, s, f.id).Some? {
      FoundIsMarked(cms, s, f.id);
    } else {
      assert forall k :: k in s.posts && IsMarked(s.posts[k], f.id) && Queried(s.posts[k].content) ==>
          k in Found(s, f.id);
    }
  }

  /** A post that is still there keeps its fixture, and its revision does not go back. */
  ghost predicate NotBehind(s: Site, t: Site) {
    && s.next <= t.next
    && forall k :: k in t.posts && k < s.next ==>
         k in s.posts && (s.posts[k].mark.Some? ==>
           && t.posts[k].mark.Some? && t.posts[k].mark.value.fixtureId == s.posts[k].mark.value.fixtureId
           && t.posts[k].mark.value.rev >= s.posts[k].mark.value.rev)
  }

  lemma {:induction false} AllAdvance(cms: Cms, s: Site, fixtures: seq<Fixture>, version: int, ok: nat -> bool)
    requires Sound(cms) && Inv(cms, s)
    ensures NotBehind(s, SeedAll(cms, s, fixtures, version, ok))
  {
    if fixtures != [] {
      var n := |fixtures| - 1;
      AllAdvance(cms, s, fixtures[..n], version, ok);
      AllKeep(cms, s, fixtures[..n], version, ok);
      OneAdvances(cms, SeedAll(cms, s, fixtures[..n], version, ok), fixtures[n], version, ok(n));
    }
  }

  lemma OneAdvances(cms: Cms, s: Site, f: Fixture, version: int, stored: bool)
    requires Sound(cms) && Inv(cms, s)
    ensures NotBehind(s, SeedOne(cms, s, f, version, stored))
  {
    if Find(cms, s, f.id).Some? {
      FoundIsMarked(cms, s, f.id);
    }
  }

  lemma {:induction false} RevNeverDecreases(cms: Cms, s: Site, steps: seq<Step>)
    requires Sound(cms) && Inv(cms, s)
    ensures NotBehind(s, After(cms, s, steps))
    decreases |steps|
  {
    if steps != [] {
      if steps[0].Run? {
        AllAdvance(cms, s, steps[0].fixtures, steps[0].version, steps[0].ok);
      }
      DoKeeps(cms, s, steps[0]);
      RevNeverDecreases(cms, Do(cms, s, steps[0]), steps[1..]);
    }
  }

  // ------------------------------------------------------------------- idempotence

  /** What is queried is still queried when stored. */
  ghost predicate KeepsListed(cms: Cms) {
    forall c :: Queried(c) ==> Queried(cms.saved(c))
  }

  /** Nothing is left to do for this fixture at this version. */
  predicate Settled(cms: Cms, s: Site, id: string, version: int) {
    id == "" ||
    (var k := Find(cms, s, id);
     && k.Some? && k.value in s.posts && s.posts[k.value].mark.Some?
     && (s.posts[k.value].content.status == Trash || !IsOwned(cms, s.posts[k.value])
       || version <= s.posts[k.value].mark.value.rev))
  }

  lemma OneFinds(cms: Cms, s: Site, f: Fixture, version: int, id: string)
    requires Sound(cms) && Inv(cms, s) && KeepsListed(cms) && Queried(f.content) && Find(cms, s, id).Some?
    ensures Find(cms, SeedOne(cms, s, f, version, true), id) == Find(cms, s, id)
  {
    FoundIsMarked(cms, s, id);
    if Find(cms, s, f.id).Some? {
      FoundIsMarked(cms, s, f.id);
    }
    assert Found(SeedOne(cms, s, f, version, true), id) == Found(s, id);
  }

  lemma OneCreates(cms: Cms, s: Site, f: Fixture, version: int)
    requires Sound(cms) && Inv(cms, s) && KeepsListed(cms) && Queried(f.content)
    requires f.id != "" && Find(cms, s, f.id).None?
    ensures Settled(cms, SeedOne(cms, s, f, version, true), f.id, version)
  {
    var t := SeedOne(cms, s, f, version, true);
    assert s.next in Found(t, f.id);
    FoundIsMarked(cms, t, f.id);
    var k := Find(cms, t, f.id).value;
    assert k != s.next ==> k in Found(s, f.id);
  }

  lemma OneSettles(cms: Cms, s: Site, f: Fixture, version: int, id: string)
    requires Sound(cms) && Inv(cms, s) && KeepsListed(cms) && Queried(f.content)
    requires id == f.id || Settled(cms, s, id, version)
    ensures Settled(cms, SeedOne(cms, s, f, version, true), id, version)
  {
    if id != "" && Find(cms, s, id).Some? {
      OneFinds(cms, s, f, version, id);
      FoundIsMarked(cms, s, id);
      if Find(cms, s, f.id).Some? {
        FoundIsMarked(cms, s, f.id);
      }
    } else if id != "" {
      OneCreates(cms, s, f, version);
    }
  }

  lemma {:induction false} AllSettle(cms: Cms, s: Site, fixtures: seq<Fixture>, version: int)
    requires Sound(cms) && Inv(cms, s) && KeepsListed(cms)
    requires forall f :: f in fixtures ==> Queried(f.content)
    ensures forall f :: f in fixtures ==> Settled(cms, SeedAll(cms, s, fixtures, version, _ => true), f.id, version)
  {
    if fixtures != [] {
      var n := |fixtures| - 1;
      var init, last := fixtures[..n], fixtures[n];
      AllSettle(cms, s, init, version);
      AllKeep(cms, s, init, version, _ => true);
      var mid := SeedAll(cms, s, init, version, _ => true);
      assert fixtures == init + [last];
      forall f | f in fixtures
        ensures Settled(cms, SeedOne(cms, mid, last, version, true), f.id, version)
      {
        OneSettles(cms, mid, last, version, f.id);
      }
    }
  }

  lemma {:induction false} SettledIsIdle(cms: Cms, s: Site, fixtures: seq<Fixture>, version: int, ok: nat -> bool)
    requires forall f :: f in fixtures ==> Settled(cms, s, f.id, version)
    ensures SeedAll(cms, s, fixtures, version, ok) == s
  {
    if fixtures != [] {
      SettledIsIdle(cms, s, fixtures[..|fixtures| - 1], version, ok);
    }
  }

  /** After a run without errors, seeding the same manifest again changes nothing,
      provided its posts are stored with a type and status that are queried. */
  lemma RerunChangesNothing(cms: Cms, s: Site, fixtures: seq<Fixture>, version: int, ok: nat -> bool)
    requires Sound(cms) && Inv(cms, s) && KeepsListed(cms)
    requires forall f :: f in fixtures ==> Queried(f.content)
    ensures var once := SeedAll(cms, s, fixtures, version, _ => true); SeedAll(cms, once, fixtures, version, ok) == once
  {
    AllSettle(cms, s, fixtures, version);
    SettledIsIdle(cms, SeedAll(cms, s, fixtures, version, _ => true), fixtures, version, ok);
  }
}
