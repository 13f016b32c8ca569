/**
 The canonical text of a snapshot: `canonicalize` and `computeSnapshotHash` of
 `src/lib/agent-creation-requests-store.ts`. Values are JSON trees without
 shared nodes; an object is the list of its own members.
 */
module CanonicalJson {
  import opened JsonString
  import opened Json
  import opened TextOrder

  // --------------------------------------------------------------- key order

  const LAST_INDEX: Text := Ascii("4294967294")

  /** An array index: own keys of this kind are enumerated first. */
  predicate IsIndex(k: Text) {
    && k != [] && (forall i :: 0 <= i < |k| ==> IsDigit(k[i]))
    && (k[0] == 0x30 ==> |k| == 1)
    && !Smaller(LAST_INDEX, k)
  }

  /** The order of the numbers two array indices stand for. */
  predicate Smaller(a: Text, b: Text) {
    |a| < |b| || (|a| == |b| && Less(a, b))
  }

  /** The order in which the canonical text lists keys. */
  predicate Precedes(a: Text, b: Text) {
    if IsIndex(a) then !IsIndex(b) || Smaller(a, b) else !IsIndex(b) && Less(a, b)
  }

  lemma OrdersAreStrict()
    ensures IsStrictOrder(Less) && IsStrictOrder(Smaller)
  {
    LessIsStrict();
  }

  lemma PrecedesIsAsymmetric(a: Text, b: Text)
    requires Precedes(a, b)
    ensures !Precedes(b, a)
  {
    OrdersAreStrict();
  }

  // ------------------------------------------------------------ canonicalize

  function Insert(before: Order, m: Member, sorted: seq<Member>): seq<Member> {
    if sorted != [] && before(sorted[0].key, m.key) then [sorted[0]] + Insert(before, m, sorted[1..])
    else [m] + sorted
  }

  function Sort(before: Order, members: seq<Member>): seq<Member> {
    if members == [] then [] else Insert(before, members[0], Sort(before, members[1..]))
  }

  function Select(index: bool, members: seq<Member>): seq<Member> {
    if members == [] then []
    else if IsIndex(members[0].key) == index then [members[0]] + Select(index, members[1..])
    else Select(index, members[1..])
  }

  /** The own keys of an object whose members were assigned in this order. */
  function Enumerated(members: seq<Member>): seq<Member> {
    Sort(Smaller, Select(true, members)) + Select(false, members)
  }

  const PROTO: Text := Ascii("__proto__")

  /** `walk`: assigning to `__proto__` sets the prototype and makes no member. */
  function Walk(v: Json): Json {
    match v
    case Arr(items) => Arr(WalkItems(items))
    case Obj(members) => Obj(Enumerated(Sort(Less, WalkMembers(members))))
    case _ => v
  }

  function WalkItems(items: seq<Json>): seq<Json> {
    if items == [] then [] else [Walk(items[0])] + WalkItems(items[1..])
  }

  function WalkMembers(members: seq<Member>): seq<Member> {
    if members == [] then []
    else if members[0].key == PROTO then WalkMembers(members[1..])
    else [Member(members[0].key, Walk(members[0].value))] + WalkMembers(members[1..])
  }

  function Canonicalize(v: Json): Text { Print(Walk(v)) }

  // ----------------------------------------------- what a JSON value stands for

  /** A JSON value up to the order of object keys: objects are finite maps. */
  datatype Content =
    | Leaf(atom: Json)
    | List(items: seq<Content>)
    | Record(members: map<Text, Content>)

  function ContentOf(v: Json): Content {
    match v
    case Arr(items) => List(ItemsOf(items))
    case Obj(members) => Record(MembersOf(members))
    case _ => Leaf(v)
  }

  function ItemsOf(items: seq<Json>): seq<Content> {
    if items == [] then [] else [ContentOf(items[0])] + ItemsOf(items[1..])
  }

  function MembersOf(members: seq<Member>): map<Text, Content> {
    if members == [] then map[]
    else MembersOf(members[1..])[members[0].key := ContentOf(members[0].value)]
  }

  /** The value without its `__proto__` members, at every depth. */
  function Strip(v: Json): Json {
    match v
    case Arr(items) => Arr(StripItems(items))
    case Obj(members) => Obj(StripMembers(members))
    case _ => v
  }

  function StripItems(items: seq<Json>): seq<Json> {
    if items == [] then [] else [Strip(items[0])] + StripItems(items[1..])
  }

  function StripMembers(members: seq<Member>): seq<Member> {
    if members == [] then []
    else if members[0].key == PROTO then StripMembers(members[1..])
    else [Member(members[0].key, Strip(members[0].value))] + StripMembers(members[1..])
  }

  function Keys(members: seq<Member>): set<Text> {
    if members == [] then {} else {members[0].key} + Keys(members[1..])
  }

  predicate Distinct(members: seq<Member>) {
    members == [] || (members[0].key !in Keys(members[1..]) && Distinct(members[1..]))
  }

  /** Numbers are written as numbers and no object has a key twice. */
  predicate WellFormed(v: Json) {
    match v
    case Num(literal) => IsNumber(literal)
    case Arr(items) => forall i :: 0 <= i < |items| ==> WellFormed(items[i])
    case Obj(members) => Distinct(members) && forall i :: 0 <= i < |members| ==> WellFormed(members[i].value)
    case _ => true
  }

  // ------------------------------------------------- sorting keeps the content

  lemma {:induction false} ContentKeys(members: seq<Member>)
    ensures MembersOf(members).Keys == Keys(members)
  {
    if members != [] {
      ContentKeys(members[1..]);
    }
  }

  lemma {:induction false} InsertKeepsContent(before: Order, m: Member, sorted: seq<Member>)
    requires m.key !in Keys(sorted) && Distinct(sorted)
    ensures Keys(Insert(before, m, sorted)) == Keys(sorted) + {m.key}
    ensures MembersOf(Insert(before, m, sorted)) == MembersOf(sorted)[m.key := ContentOf(m.value)]
    ensures Distinct(Insert(before, m, sorted))
  {
    var after := Insert(before, m, sorted);
    if sorted != [] && before(sorted[0].key, m.key) {
      InsertKeepsContent(before, m, sorted[1..]);
      assert after[1..] == Insert(before, m, sorted[1..]);
    } else {
      assert after[1..] == sorted;
    }
  }

  lemma {:induction false} SortKeepsContent(before: Order, members: seq<Member>)
    requires Distinct(members)
    ensures Keys(Sort(before, members)) == Keys(members)
    ensures MembersOf(Sort(before, members)) == MembersOf(members)
    ensures Distinct(Sort(before, members))
  {
    if members != [] {
      SortKeepsContent(before, members[1..]);
      InsertKeepsContent(before, members[0], Sort(before, members[1..]));
    }
  }

  lemma {:induction false} AppendContent(a: seq<Member>, b: seq<Member>)
    ensures Keys(a + b) == Keys(a) + Keys(b)
    ensures MembersOf(a + b) == MembersOf(b) + MembersOf(a)
  {
    if a == [] {
      assert a + b == b;
    } else {
      assert (a + b)[1..] == a[1..] + b;
      AppendContent(a[1..], b);
    }
  }

  lemma {:induction false} SelectKeys(index: bool, members: seq<Member>)
    requires Distinct(members)
    ensures Distinct(Select(index, members))
    ensures forall k :: k in Keys(Select(index, members)) <==> k in Keys(members) && IsIndex(k) == index
  {
    if members != [] {
      var rest := Select(index, members[1..]);
      SelectKeys(index, members[1..]);
      assert ([members[0]] + rest)[1..] == rest;
    }
  }

  lemma {:induction false} SelectContent(members: seq<Member>)
    requires Distinct(members)
    ensures MembersOf(Select(false, members)) + MembersOf(Select(true, members)) == MembersOf(members)
  {
    if members != [] {
      var m, rest := members[0], members[1..];
      SelectContent(rest);
      SelectKeys(true, rest);
      ContentKeys(Select(true, rest));
      var index := IsIndex(m.key);
      assert ([m] + Select(index, rest))[1..] == Select(index, rest);
      PutEither(MembersOf(Select(false, rest)), MembersOf(Select(true, rest)), m.key, ContentOf(m.value));
    }
  }

  lemma PutEither(a: map<Text, Content>, b: map<Text, Content>, k: Text, c: Content)
    requires k !in b
    ensures a + b[k := c] == (a + b)[k := c]
    ensures a[k := c] + b == (a + b)[k := c]
  {
  }

  lemma EnumeratedKeepsContent(members: seq<Member>)
    requires Distinct(members)
    ensures Keys(Enumerated(members)) == Keys(members)
    ensures MembersOf(Enumerated(members)) == MembersOf(members)
  {
    SelectKeys(true, members);
    SelectKeys(false, members);
    SelectContent(members);
    SortKeepsContent(Smaller, Select(true, members));
    AppendContent(Sort(Smaller, Select(true, members)), Select(false, members));
  }

  // ------------------------------------------------- sorting orders the keys

  ghost predicate Ascending(before: Order, members: seq<Member>) {
    members == [] ||
    ((forall k :: k in Keys(members[1..]) ==> before(members[0].key, k)) && Ascending(before, members[1..]))
  }

  lemma {:induction false} InsertAscends(before: Order, m: Member, sorted: seq<Member>)
    requires IsStrictOrder(before) && Ascending(before, sorted) && Distinct(sorted) && m.key !in Keys(sorted)
    ensures Ascending(before, Insert(before, m, sorted))
  {
    var after := Insert(before, m, sorted);
    if sorted != [] && before(sorted[0].key, m.key) {
      InsertAscends(before, m, sorted[1..]);
      InsertKeepsContent(before, m, sorted[1..]);
      assert after[1..] == Insert(before, m, sorted[1..]);
    } else {
      assert after[1..] == sorted;
    }
  }

  lemma {:induction false} SortAscends(before: Order, members: seq<Member>)
    requires IsStrictOrder(before) && Distinct(members)
    ensures Ascending(before, Sort(before, members))
  {
    if members != [] {
      SortAscends(before, members[1..]);
      SortKeepsContent(before, members[1..]);
      InsertAscends(before, members[0], Sort(before, members[1..]));
    }
  }

  lemma {:induction false} SelectAscends(before: Order, index: bool, members: seq<Member>)
    requires Ascending(before, members) && Distinct(members)
    ensures Ascending(before, Select(index, members))
  {
    if members != [] {
      var rest := Select(index, members[1..]);
      SelectAscends(before, index, members[1..]);
      SelectKeys(index, members[1..]);
      assert ([members[0]] + rest)[1..] == rest;
    }
  }

  lemma {:induction false} PlainKeysAscend(b: seq<Member>)
    requires Ascending(Less, b) && forall k :: k in Keys(b) ==> !IsIndex(k)
    ensures Ascending(Precedes, b)
  {
    if b != [] {
      PlainKeysAscend(b[1..]);
    }
  }

  lemma {:induction false} IndicesFirst(a: seq<Member>, b: seq<Member>)
    requires Ascending(Smaller, a) && forall k :: k in Keys(a) ==> IsIndex(k)
    requires Ascending(Less, b) && forall k :: k in Keys(b) ==> !IsIndex(k)
    ensures Ascending(Precedes, a + b)
  {
    if a == [] {
      assert a + b == b;
      PlainKeysAscend(b);
    } else {
      assert (a + b)[1..] == a[1..] + b;
      IndicesFirst(a[1..], b);
      AppendContent(a[1..], b);
    }
  }

  lemma EnumeratedAscends(members: seq<Member>)
    requires Distinct(members) && Ascending(Less, members)
    ensures Ascending(Precedes, Enumerated(members))
  {
    OrdersAreStrict();
    SelectKeys(true, members);
    SelectKeys(false, members);
    SortAscends(Smaller, Select(true, members));
    SortKeepsContent(Smaller, Select(true, members));
    SelectAscends(Less, false, members);
    IndicesFirst(Sort(Smaller, Select(true, members)), Select(false, members));
  }

  lemma {:induction false} SortedMembers(before: Order, members: seq<Member>)
    ensures forall m :: m in Sort(before, members) ==> m in members
  {
    if members != [] {
      SortedMembers(before, members[1..]);
      InsertedMembers(before, members[0], Sort(before, members[1..]));
    }
  }

  lemma {:induction false} InsertedMembers(before: Order, m: Member, sorted: seq<Member>)
    ensures forall x :: x in Insert(before, m, sorted) ==> x == m || x in sorted
  {
    if sorted != [] && before(sorted[0].key, m.key) {
      InsertedMembers(before, m, sorted[1..]);
    }
  }

  lemma {:induction false} SelectedMembers(index: bool, members: seq<Member>)
    ensures forall m :: m in Select(index, members) ==> m in members
  {
    if members != [] {
      SelectedMembers(index, members[1..]);
    }
  }

  lemma EnumeratedMembers(members: seq<Member>)
    ensures forall m :: m in Enumerated(members) ==> m in members
  {
    SelectedMembers(true, members);
    SelectedMembers(false, members);
    SortedMembers(Smaller, Select(true, members));
  }

  // ------------------------------------------------------------ normal forms

  /** Keys listed in the canonical order at every depth. */
  ghost predicate Tidy(v: Json) {
    match v
    case Num(literal) => IsNumber(literal)
    case Arr(items) => forall i :: 0 <= i < |items| ==> Tidy(items[i])
    case Obj(members) => Ascending(Precedes, members) && forall i :: 0 <= i < |members| ==> Tidy(members[i].value)
    case _ => true
  }

  lemma {:induction false} TidyIsPrintable(v: Json)
    requires Tidy(v)
    ensures Printable(v)
  {
    match v
    case Arr(items) =>
      forall i | 0 <= i < |items|
        ensures Printable(items[i])
      {
        TidyIsPrintable(items[i]);
      }
    case Obj(members) =>
      forall i | 0 <= i < |members|
        ensures Printable(members[i].value)
      {
        TidyIsPrintable(members[i].value);
      }
    case _ =>
  }

  lemma {:induction false} SameHead(x: seq<Member>, y: seq<Member>)
    requires x != [] && y != [] && Ascending(Precedes, x) && Ascending(Precedes, y) && Keys(x) == Keys(y)
    ensures x[0].key == y[0].key
    ensures Keys(x[1..]) == Keys(y[1..])
    ensures x[0].key !in Keys(x[1..]) && y[0].key !in Keys(y[1..])
  {
    var p, q := x[0].key, y[0].key;
    assert p in Keys(y) && q in Keys(x);
    if p != q {
      PrecedesIsAsymmetric(p, q);
    }
    if p in Keys(x[1..]) {
      PrecedesIsAsymmetric(p, p);
    }
    if q in Keys(y[1..]) {
      PrecedesIsAsymmetric(q, q);
    }
  }

  lemma TailContent(m: Member, rest: map<Text, Content>, whole: map<Text, Content>)
    requires m.key !in rest && whole == rest[m.key := ContentOf(m.value)]
    ensures rest == whole - {m.key} && whole[m.key] == ContentOf(m.value)
  {
  }

  lemma SameTail(x: seq<Member>, y: seq<Member>)
    requires x != [] && y != [] && Ascending(Precedes, x) && Ascending(Precedes, y) && MembersOf(x) == MembersOf(y)
    ensures x[0].key == y[0].key && ContentOf(x[0].value) == ContentOf(y[0].value)
    ensures MembersOf(x[1..]) == MembersOf(y[1..])
  {
    ContentKeys(x);
    ContentKeys(y);
    SameHead(x, y);
    ContentKeys(x[1..]);
    ContentKeys(y[1..]);
    TailContent(x[0], MembersOf(x[1..]), MembersOf(x));
    TailContent(y[0], MembersOf(y[1..]), MembersOf(y));
  }

  /** Member lists in canonical order are determined by their content. */
  lemma {:induction false} MembersAreUnique(x: seq<Member>, y: seq<Member>)
    requires Ascending(Precedes, x) && Ascending(Precedes, y) && MembersOf(x) == MembersOf(y)
    requires forall i :: 0 <= i < |x| ==> Tidy(x[i].value)
    requires forall i :: 0 <= i < |y| ==> Tidy(y[i].value)
    ensures x == y
    decreases x, 0
  {
    if x != [] && y != [] {
      SameTail(x, y);
      TidyIsUnique(x[0].value, y[0].value);
      MembersAreUnique(x[1..], y[1..]);
      assert x == [x[0]] + x[1..] && y == [y[0]] + y[1..];
    } else {
      ContentKeys(x);
      ContentKeys(y);
    }
  }

  lemma {:induction false} ItemsAreUnique(x: seq<Json>, y: seq<Json>)
    requires ItemsOf(x) == ItemsOf(y)
    requires forall i :: 0 <= i < |x| ==> Tidy(x[i])
    requires forall i :: 0 <= i < |y| ==> Tidy(y[i])
    ensures x == y
    decreases x, 0
  {
    if x != [] && y != [] {
      assert ItemsOf(x)[0] == ItemsOf(y)[0] && ItemsOf(x)[1..] == ItemsOf(y)[1..];
      TidyIsUnique(x[0], y[0]);
      ItemsAreUnique(x[1..], y[1..]);
      assert x == [x[0]] + x[1..] && y == [y[0]] + y[1..];
    }
  }

  lemma {:induction false} TidyIsUnique(x: Json, y: Json)
    requires Tidy(x) && Tidy(y) && ContentOf(x) == ContentOf(y)
    ensures x == y
    decreases x, 1
  {
    match x
    case Arr(items) => ItemsAreUnique(items, y.items);
    case Obj(members) => MembersAreUnique(members, y.members);
    case _ =>
  }

  // ---------------------------------------------------- what walking preserves

  lemma {:induction false} WalkedItems(items: seq<Json>)
    requires forall i :: 0 <= i < |items| ==> WellFormed(items[i])
    ensures ItemsOf(WalkItems(items)) == ItemsOf(StripItems(items))
    ensures forall i :: 0 <= i < |WalkItems(items)| ==> Tidy(WalkItems(items)[i])
    decreases items, 0
  {
    if items != [] {
      WalkedItems(items[1..]);
      WalkKeepsContent(items[0]);
      assert WalkItems(items)[1..] == WalkItems(items[1..]);
      assert StripItems(items)[1..] == StripItems(items[1..]);
    }
  }

  lemma {:induction false} WalkedMembers(members: seq<Member>)
    requires Distinct(members) && forall i :: 0 <= i < |members| ==> WellFormed(members[i].value)
    ensures MembersOf(WalkMembers(members)) == MembersOf(StripMembers(members))
    ensures Keys(WalkMembers(members)) == Keys(members) - {PROTO} && Distinct(WalkMembers(members))
    ensures forall m :: m in WalkMembers(members) ==> Tidy(m.value)
    decreases members, 0
  {
    if members != [] {
      var rest := members[1..];
      WalkedMembers(rest);
      WalkKeepsContent(members[0].value);
      var m := Member(members[0].key, Walk(members[0].value));
      assert ([m] + WalkMembers(rest))[1..] == WalkMembers(rest);
      var n := Member(members[0].key, Strip(members[0].value));
      assert ([n] + StripMembers(rest))[1..] == StripMembers(rest);
    }
  }

  lemma OrderedMembers(members: seq<Member>)
    requires Distinct(members) && forall m :: m in members ==> Tidy(m.value)
    ensures var ordered := Enumerated(Sort(Less, members));
            && Tidy(Obj(ordered)) && MembersOf(ordered) == MembersOf(members)
  {
    OrdersAreStrict();
    var sorted := Sort(Less, members);
    SortKeepsContent(Less, members);
    SortAscends(Less, members);
    SortedMembers(Less, members);
    EnumeratedKeepsContent(sorted);
    EnumeratedAscends(sorted);
    EnumeratedMembers(sorted);
    var ordered := Enumerated(sorted);
    forall i | 0 <= i < |ordered|
      ensures Tidy(ordered[i].value)
    {
      assert ordered[i] in ordered;
    }
  }

  /** Walking orders every object's keys and changes nothing else but the
      `__proto__` members, which it drops. */
  lemma {:induction false} WalkKeepsContent(v: Json)
    requires WellFormed(v)
    ensures Tidy(Walk(v)) && ContentOf(Walk(v)) == ContentOf(Strip(v))
    decreases v, 1
  {
    match v
    case Arr(items) => WalkedItems(items);
    case Obj(members) =>
      WalkedMembers(members);
      OrderedMembers(WalkMembers(members));
    case _ =>
  }

  // --------------------------------------------------------------- main results

  /** `canonicalize` is a canonical form: two values print to the same text
      exactly when, `__proto__` members aside, they differ only in the order of
      object keys. */
  lemma CanonicalForm(a: Json, b: Json)
    requires WellFormed(a) && WellFormed(b)
    ensures Canonicalize(a) == Canonicalize(b) <==> ContentOf(Strip(a)) == ContentOf(Strip(b))
  {
    WalkKeepsContent(a);
    WalkKeepsContent(b);
    TidyIsPrintable(Walk(a));
    TidyIsPrintable(Walk(b));
    if Canonicalize(a) == Canonicalize(b) {
      PrintIsInjective(Walk(a), Walk(b));
    }
    if ContentOf(Walk(a)) == ContentOf(Walk(b)) {
      TidyIsUnique(Walk(a), Walk(b));
    }
  }

  /** No object in the value has a `__proto__` member. */
  predicate NoProto(v: Json) {
    match v
    case Arr(items) => forall i :: 0 <= i < |items| ==> NoProto(items[i])
    case Obj(members) => forall i :: 0 <= i < |members| ==> members[i].key != PROTO && NoProto(members[i].value)
    case _ => true
  }

  lemma {:induction false} NothingToStrip(v: Json)
    requires NoProto(v)
    ensures Strip(v) == v
    decreases v, 1
  {
    match v
    case Arr(items) => NoItemToStrip(items);
    case Obj(members) => NoMemberToStrip(members);
    case _ =>
  }

  lemma {:induction false} NoItemToStrip(items: seq<Json>)
    requires forall i :: 0 <= i < |items| ==> NoProto(items[i])
    ensures StripItems(items) == items
    decreases items, 0
  {
    if items != [] {
      NothingToStrip(items[0]);
      NoItemToStrip(items[1..]);
    }
  }

  lemma {:induction false} NoMemberToStrip(members: seq<Member>)
    requires forall i :: 0 <= i < |members| ==> members[i].key != PROTO && NoProto(members[i].value)
    ensures StripMembers(members) == members
    decreases members, 0
  {
    if members != [] {
      NothingToStrip(members[0].value);
      NoMemberToStrip(members[1..]);
    }
  }

  type Digest = Text

  /** `computeSnapshotHash`, over whatever sha256 is. */
  function SnapshotHash(sha: Text -> Digest, snapshot: Json): Digest {
    sha(Canonicalize(snapshot))
  }

  ghost predicate CollisionFree(sha: Text -> Digest) {
    forall a, b :: sha(a) == sha(b) ==> a == b
  }

  /** With a collision-free digest, equal hashes are exactly equal snapshots up
      to key order, for snapshots without `__proto__` members. */
  lemma HashIsContent(sha: Text -> Digest, a: Json, b: Json)
    requires CollisionFree(sha)
    requires WellFormed(a) && WellFormed(b) && NoProto(a) && NoProto(b)
    ensures SnapshotHash(sha, a) == SnapshotHash(sha, b) <==> ContentOf(a) == ContentOf(b)
  {
    CanonicalForm(a, b);
    NothingToStrip(a);
    NothingToStrip(b);
  }

  /** Snapshots that differ only in `__proto__` members, at whatever depth, share
      one hash. */
  lemma StrippedAlike(sha: Text -> Digest, a: Json, b: Json)
    requires WellFormed(a) && WellFormed(b) && ContentOf(Strip(a)) == ContentOf(Strip(b))
    ensures SnapshotHash(sha, a) == SnapshotHash(sha, b)
  {
    CanonicalForm(a, b);
  }

  lemma {:induction false} WalkSkipsProto(before: seq<Member>, value: Json, after: seq<Member>)
    ensures WalkMembers(before + [Member(PROTO, value)] + after) == WalkMembers(before + after)
  {
    var long := before + [Member(PROTO, value)] + after;
    if before == [] {
      assert long[1..] == after && before + after == after;
    } else {
      assert long[1..] == before[1..] + [Member(PROTO, value)] + after;
      assert (before + after)[1..] == before[1..] + after;
      WalkSkipsProto(before[1..], value, after);
    }
  }

  /** A `__proto__` member anywhere in an object is part of the snapshot and no
      part of its hash. */
  lemma ProtoIsNotHashed(sha: Text -> Digest, before: seq<Member>, value: Json, after: seq<Member>)
    requires PROTO !in Keys(before + after)
    ensures var long := before + [Member(PROTO, value)] + after;
            && SnapshotHash(sha, Obj(long)) == SnapshotHash(sha, Obj(before + after))
            && ContentOf(Obj(long)) != ContentOf(Obj(before + after))
  {
    WalkSkipsProto(before, value, after);
    AppendContent(before + [Member(PROTO, value)], after);
    AppendContent(before, [Member(PROTO, value)]);
    assert Keys([Member(PROTO, value)]) == {PROTO} by {
      assert [Member(PROTO, value)][1..] == [];
    }
    ContentKeys(before + [Member(PROTO, value)] + after);
    ContentKeys(before + after);
  }
}
