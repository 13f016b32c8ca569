/**
 The sync table of uploaded skills and its staleness marks:
 `src/lib/anthropic-skill-sync-dao.ts`. Every operation works in one namespace
 and is one SQL statement.
 */
module SkillSync {
  import opened Wrappers

  /** An API key fingerprint and an environment. */
  datatype Namespace = Namespace(fingerprint: string, environment: string)

  datatype Key = Key(ns: Namespace, catalogId: string)

  datatype Row = Row(skillId: string, version: string, contentHash: string, stale: bool, staleAt: Option<int>)

  type Table = map<Key, Row>

  // ---------------------------------------------------------------- statements

  /** INSERT … ON CONFLICT DO UPDATE: an existing row is live again, but its
      `stale_at` is left as it was. */
  function Upserted(t: Table, k: Key, skillId: string, version: string, contentHash: string): Table {
    t[k := Row(skillId, version, contentHash, false, if k in t then t[k].staleAt else None)]
  }

  /** `coalesce(stale_at, now())`. */
  function Stale(r: Row, now: int): Row {
    r.(stale := true, staleAt := if r.staleAt.Some? then r.staleAt else Some(now))
  }

  function Marked(t: Table, k: Key, now: int): Table {
    if k in t then t[k := Stale(t[k], now)] else t
  }

  predicate IsRemoved(k: Key, ns: Namespace, current: set<string>) {
    k.ns == ns && k.catalogId !in current
  }

  function MarkedRemoved(t: Table, ns: Namespace, current: set<string>, now: int): Table {
    map k | k in t :: if IsRemoved(k, ns, current) then Stale(t[k], now) else t[k]
  }

  function Deleted(t: Table, ns: Namespace, skillId: string): Table {
    map k | k in t && !(k.ns == ns && t[k].skillId == skillId) :: t[k]
  }

  // --------------------------------------------------------------- the objects

  class SyncTable {
    var rows: Table

    constructor ()
      ensures rows == map[]
    {
      rows := map[];
    }

    method Upsert(k: Key, skillId: string, version: string, contentHash: string)
      modifies this
      ensures rows == Upserted(old(rows), k, skillId, version, contentHash)
      ensures rows.Keys == old(rows).Keys + {k} && forall j :: j in old(rows) && j != k ==> rows[j] == old(rows)[j]
      ensures rows[k].skillId == skillId && rows[k].version == version && rows[k].contentHash == contentHash
      ensures !rows[k].stale && rows[k].staleAt == if k in old(rows) then old(rows)[k].staleAt else None
    {
      if k in rows {
        rows := rows[k := rows[k].(skillId := skillId, version := version, contentHash := contentHash, stale := false)];
      } else {
        rows := rows[k := Row(skillId, version, contentHash, false, None)];
      }
    }

    method MarkStale(k: Key, now: int)
      modifies this
      ensures rows == Marked(old(rows), k, now)
      ensures rows.Keys == old(rows).Keys && forall j :: j in rows && j != k ==> rows[j] == old(rows)[j]
      ensures k in rows ==> rows[k].stale && rows[k].staleAt.Some?
      ensures k in rows ==> rows[k].staleAt == if old(rows)[k].staleAt.Some? then old(rows)[k].staleAt else Some(now)
    {
      if k in rows {
        var row := rows[k];
        rows := rows[k := row.(stale := true, staleAt := if row.staleAt.Some? then row.staleAt else Some(now))];
      }
    }

    /** The empty catalog takes the statement without the id condition. */
    method MarkStaleForRemoved(ns: Namespace, current: seq<string>, now: int)
      modifies this
      ensures rows == MarkedRemoved(old(rows), ns, (set c | c in current), now)
      ensures rows.Keys == old(rows).Keys
      ensures forall k :: k in rows && k.ns == ns && k.catalogId !in current ==>
                && rows[k].stale
                && rows[k].staleAt == (if old(rows)[k].staleAt.Some? then old(rows)[k].staleAt else Some(now))
                && rows[k].(stale := false, staleAt := None) == old(rows)[k].(stale := false, staleAt := None)
      ensures forall k :: k in rows && !(k.ns == ns && k.catalogId !in current) ==> rows[k] == old(rows)[k]
    {
      if |current| == 0 {
        rows := map k | k in rows :: if k.ns == ns then Stale(rows[k], now) else rows[k];
      } else {
        rows := map k | k in rows :: if k.ns == ns && k.catalogId !in current then Stale(rows[k], now) else rows[k];
      }
    }

    /** No row of the namespace refers to the skill any more; every other row,
        of this namespace or another, is as it was. */
    method DeleteForSkill(ns: Namespace, skillId: string)
      modifies this
      ensures rows == Deleted(old(rows), ns, skillId)
      ensures forall k :: k in rows && k.ns == ns ==> rows[k].skillId != skillId
      ensures forall k :: k in old(rows) && (k.ns != ns || old(rows)[k].skillId != skillId) ==> k in rows
      ensures forall k :: k in rows ==> k in old(rows) && rows[k] == old(rows)[k]
    {
      rows := rows - set k | k in rows && k.ns == ns && rows[k].skillId == skillId;
    }
  }

  // ------------------------------------------------ the bulk mark as single marks

  function MarkEach(t: Table, keys: seq<Key>, now: int): Table {
    if keys == [] then t else MarkEach(Marked(t, keys[0], now), keys[1..], now)
  }

  lemma {:induction false} MarkEachMarks(t: Table, keys: seq<Key>, now: int)
    ensures MarkEach(t, keys, now).Keys == t.Keys
    ensures forall k :: k in t ==> MarkEach(t, keys, now)[k] == if k in keys then Stale(t[k], now) else t[k]
    decreases keys
  {
    if keys != [] {
      MarkEachMarks(Marked(t, keys[0], now), keys[1..], now);
    }
  }

  /** Marking the removed skills at once is marking, one by one and in any order,
      exactly the rows of the namespace that are not in the catalog. */
  lemma BulkIsEachRemoved(t: Table, ns: Namespace, current: set<string>, keys: seq<Key>, now: int)
    requires forall k :: k in keys <==> k in t && k.ns == ns && k.catalogId !in current
    ensures MarkedRemoved(t, ns, current, now) == MarkEach(t, keys, now)
  {
    MarkEachMarks(t, keys, now);
  }

  // ------------------------------------------------------- runs of the operations

  datatype Op =
    | Upsert(key: Key, skillId: string, version: string, contentHash: string)
    | Mark(key: Key, now: int)
    | MarkRemoved(ns: Namespace, current: set<string>, now: int)
    | Delete(ns: Namespace, skillId: string)

  function Do(t: Table, op: Op): Table {
    match op
    case Upsert(k, skillId, version, contentHash) => Upserted(t, k, skillId, version, contentHash)
    case Mark(k, now) => Marked(t, k, now)
    case MarkRemoved(ns, current, now) => MarkedRemoved(t, ns, current, now)
    case Delete(ns, skillId) => Deleted(t, ns, skillId)
  }

  function After(ops: seq<Op>): Table {
    if ops == [] then map[] else Do(After(ops[..|ops| - 1]), ops[|ops| - 1])
  }

  /** The operation marks a row with this key, if there is one. */
  predicate Marks(op: Op, k: Key) {
    match op
    case Mark(key, _) => key == k
    case MarkRemoved(ns, current, _) => k.ns == ns && k.catalogId !in current
    case _ => false
  }

  function NamespaceOf(op: Op): Namespace {
    match op
    case Upsert(k, _, _, _) => k.ns
    case Mark(k, _) => k.ns
    case MarkRemoved(ns, _, _) => ns
    case Delete(ns, _) => ns
  }

  /** Nothing done in one namespace shows in another. */
  lemma OtherNamespaceUntouched(t: Table, op: Op, k: Key)
    requires k.ns != NamespaceOf(op)
    ensures k in Do(t, op) <==> k in t
    ensures k in t ==> Do(t, op)[k] == t[k]
  {
  }

  /** The row with key `k` was inserted by operation `i` and is there ever since. */
  ghost predicate InsertedAt(ops: seq<Op>, k: Key, i: nat) {
    && i < |ops|
    && k !in After(ops[..i])
    && forall j :: i < j <= |ops| ==> k in After(ops[..j])
  }

  /** No operation from `i` up to but excluding `j` marks `k`. */
  predicate Unmarked(ops: seq<Op>, k: Key, i: nat, j: nat)
    requires j <= |ops|
  {
    forall m :: i <= m < j ==> !Marks(ops[m], k)
  }

  /** The clock of a row that was inserted by operation `i`: the time of the
      first mark since, or nothing. */
  ghost predicate IsFirstMark(ops: seq<Op>, k: Key, i: nat, clock: Option<int>) {
    if clock.None? then Unmarked(ops, k, i, |ops|)
    else exists j: nat :: i < j < |ops| && Marks(ops[j], k) && ops[j].now == clock.value && Unmarked(ops, k, i, j)
  }

  lemma StillInserted(ops: seq<Op>, op: Op, k: Key, i: nat)
    requires InsertedAt(ops, k, i) && k in After(ops + [op])
    ensures InsertedAt(ops + [op], k, i)
  {
    var more := ops + [op];
    assert more[..i] == ops[..i];
    forall j | i < j <= |more|
      ensures k in After(more[..j])
    {
      if j <= |ops| {
        assert more[..j] == ops[..j];
      } else {
        assert more[..j] == more;
      }
    }
  }

  lemma ClockAfterOne(ops: seq<Op>, op: Op, k: Key, i: nat)
    requires InsertedAt(ops, k, i) && k in After(ops) && IsFirstMark(ops, k, i, After(ops)[k].staleAt)
    requires After(ops + [op]) == Do(After(ops), op) && k in After(ops + [op])
    ensures IsFirstMark(ops + [op], k, i, After(ops + [op])[k].staleAt)
  {
    var more := ops + [op];
    var clock := After(ops)[k].staleAt;
    if clock.Some? {
      var j: nat :| i < j < |ops| && Marks(ops[j], k) && ops[j].now == clock.value && Unmarked(ops, k, i, j);
      assert more[j] == ops[j] && Unmarked(more, k, i, j);
    } else if Marks(op, k) {
      assert more[|ops|] == op && Unmarked(more, k, i, |ops|);
    } else {
      assert Unmarked(more, k, i, |more|);
    }
  }

  /** Over any sequence of operations, the clock of every row is the time of its
      first mark since the row was inserted, and nothing ever moves it. */
  lemma {:induction false} StaleAtIsFirstMark(ops: seq<Op>, k: Key)
    requires k in After(ops)
    ensures exists i: nat :: InsertedAt(ops, k, i) && IsFirstMark(ops, k, i, After(ops)[k].staleAt)
    decreases |ops|
  {
    var n := |ops| - 1;
    var init, op := ops[..n], ops[n];
    assert ops == init + [op];
    if k in After(init) {
      StaleAtIsFirstMark(init, k);
      var i: nat :| InsertedAt(init, k, i) && IsFirstMark(init, k, i, After(init)[k].staleAt);
      StillInserted(init, op, k, i);
      ClockAfterOne(init, op, k, i);
    } else {
      assert ops[..n] == init && ops[..|ops|] == ops;
      assert InsertedAt(ops, k, n);
      assert Unmarked(ops, k, n, |ops|);
    }
  }
}
