/**
 The ledger of skills a run used: `src/lib/agent-run-skills-used.ts`. Each write
 is one SQL statement.
 */
module SkillLedger {
  import opened Wrappers

  datatype Kind = Custom | Installed | Builtin

  datatype Key = Key(runId: string, skillId: string)

  datatype Row = Row(kind: Kind, count: nat)

  type Table = map<Key, Row>

  datatype Resolved = Resolved(skillId: string, kind: Kind)

  // ------------------------------------------------------------------ statements

  datatype Param = TextParam(text: string) | KindParam(kind: Kind)

  /** One VALUES row: the numbers of its three parameters, counted from 1. */
  datatype Placeholders = Placeholders(run: nat, skill: nat, kind: nat)

  /** INSERT of one row with count 0, ON CONFLICT DO NOTHING. */
  function Inserted(t: Table, k: Key, kind: Kind): Table {
    if k in t then t else t[k := Row(kind, 0)]
  }

  function ParamAt(params: seq<Param>, n: nat): Param {
    if 1 <= n <= |params| then params[n - 1] else TextParam("")
  }

  /** What a VALUES row stands for under its parameters. */
  function Denoted(v: Placeholders, params: seq<Param>): Option<(Key, Kind)> {
    var run, skill, kind := ParamAt(params, v.run), ParamAt(params, v.skill), ParamAt(params, v.kind);
    if run.TextParam? && skill.TextParam? && kind.KindParam? then Some((Key(run.text, skill.text), kind.kind)) else None
  }

  /** The multi-row INSERT, row by row. */
  function Execute(t: Table, values: seq<Placeholders>, params: seq<Param>): Table {
    if values == [] then t
    else
      var before := Execute(t, values[..|values| - 1], params);
      var row := Denoted(values[|values| - 1], params);
      if row.None? then before else Inserted(before, row.value.0, row.value.1)
  }

  /** What a snapshot is meant to do: every skill of the run, in order. */
  function Snapshotted(t: Table, runId: string, skills: seq<Resolved>): Table {
    if skills == [] then t
    else
      var last := skills[|skills| - 1];
      Inserted(Snapshotted(t, runId, skills[..|skills| - 1]), Key(runId, last.skillId), last.kind)
  }

  function Incremented(t: Table, k: Key, kind: Kind): Table {
    t[k := if k in t then t[k].(count := t[k].count + 1) else Row(kind, 1)]
  }

  class Ledger {
    var rows: Table

    constructor ()
      ensures rows == map[]
    {
      rows := map[];
    }

    /** Numbers the parameters of one multi-row INSERT. */
    method BuildInsert(runId: string, skills: seq<Resolved>) returns (values: seq<Placeholders>, params: seq<Param>)
      ensures |values| == |skills|
      ensures forall i :: 0 <= i < |skills| ==>
          Denoted(values[i], params) == Some((Key(runId, skills[i].skillId), skills[i].kind))
    {
      values, params := [], [];
      var p: nat := 1;
      for i := 0 to |skills|
        invariant |values| == i && p == |params| + 1
        invariant forall j :: 0 <= j < i ==> StandsFor(values[j], params, runId, skills[j])
      {
        ghost var before := params;
        params := params + [TextParam(runId), TextParam(skills[i].skillId), KindParam(skills[i].kind)];
        forall j | 0 <= j < i
          ensures StandsFor(values[j], params, runId, skills[j])
        {
          StillStands(values[j], before, params, runId, skills[j]);
        }
        values := values + [Placeholders(p, p + 1, p + 2)];
        p := p + 3;
      }
    }

    method SnapshotSkillsAtRunStart(runId: string, skills: seq<Resolved>)
      modifies this
      ensures rows == Snapshotted(old(rows), runId, skills)
    {
      if |skills| == 0 {
        return;
      }
      var values, params := BuildInsert(runId, skills);
      ExecuteSnapshots(rows, runId, skills, values, params);
      rows := Execute(rows, values, params);
    }

    method IncrementSkillInvocation(runId: string, skillId: string, kind: Kind)
      modifies this
      ensures rows == Incremented(old(rows), Key(runId, skillId), kind)
      ensures Key(runId, skillId) in rows
      ensures rows[Key(runId, skillId)].count
          == 1 + (if Key(runId, skillId) in old(rows) then old(rows)[Key(runId, skillId)].count else 0)
      ensures Key(runId, skillId) in old(rows) ==> rows[Key(runId, skillId)].kind == old(rows)[Key(runId, skillId)].kind
      ensures rows - {Key(runId, skillId)} == old(rows) - {Key(runId, skillId)}
    {
      var k := Key(runId, skillId);
      if k in rows {
        rows := rows[k := Row(rows[k].kind, rows[k].count + 1)];
      } else {
        rows := rows[k := Row(kind, 1)];
      }
    }
  }

  /** The row has its parameters, and they are those of the skill. */
  predicate StandsFor(v: Placeholders, params: seq<Param>, runId: string, r: Resolved) {
    && 1 <= v.run <= |params| && 1 <= v.skill <= |params| && 1 <= v.kind <= |params|
    && Denoted(v, params) == Some((Key(runId, r.skillId), r.kind))
  }

  lemma StillStands(v: Placeholders, before: seq<Param>, after: seq<Param>, runId: string, r: Resolved)
    requires before <= after && StandsFor(v, before, runId, r)
    ensures StandsFor(v, after, runId, r)
  {
  }

  lemma {:induction false} ExecuteSnapshots(t: Table, runId: string, skills: seq<Resolved>, values: seq<Placeholders>,
          params: seq<Param>)
    requires |values| == |skills|
    requires forall i :: 0 <= i < |skills| ==>
        Denoted(values[i], params) == Some((Key(runId, skills[i].skillId), skills[i].kind))
    ensures Execute(t, values, params) == Snapshotted(t, runId, skills)
  {
    if values != [] {
      var n := |values| - 1;
      ExecuteSnapshots(t, runId, skills[..n], values[..n], params);
    }
  }

  // ------------------------------------------------------------------- histories

  datatype Op =
    | Snapshot(runId: string, skills: seq<Resolved>)
    | Increment(key: Key, kind: Kind)

  function After(ops: seq<Op>): Table {
    if ops == [] then map[]
    else
      var t := After(ops[..|ops| - 1]);
      match ops[|ops| - 1]
      case Snapshot(runId, skills) => Snapshotted(t, runId, skills)
      case Increment(k, kind) => Incremented(t, k, kind)
  }

  function Increments(ops: seq<Op>, k: Key): nat {
    if ops == [] then 0
    else
      var last := ops[|ops| - 1];
      Increments(ops[..|ops| - 1], k) + (if last.Increment? && last.key == k then 1 else 0)
  }

  /** The first kind a list of skills gives for a skill. */
  function KindIn(skills: seq<Resolved>, skillId: string): Option<Kind> {
    if skills == [] then None
    else if skills[0].skillId == skillId then Some(skills[0].kind)
    else KindIn(skills[1..], skillId)
  }

  /** The kind one operation names for the key. */
  function KindNamed(op: Op, k: Key): Option<Kind> {
    match op
    case Snapshot(runId, skills) => if runId == k.runId then KindIn(skills, k.skillId) else None
    case Increment(key, kind) => if key == k then Some(kind) else None
  }

  /** The kind the first operation to name the key gave it. */
  function FirstKind(ops: seq<Op>, k: Key): Option<Kind> {
    if ops == [] then None
    else if KindNamed(ops[0], k).Some? then KindNamed(ops[0], k)
    else FirstKind(ops[1..], k)
  }

  function RowOf(t: Table, k: Key): Option<Row> {
    if k in t then Some(t[k]) else None
  }

  lemma {:induction false} KindInAppend(skills: seq<Resolved>, last: Resolved, skillId: string)
    ensures KindIn(skills + [last], skillId)
         == if KindIn(skills, skillId).Some? then KindIn(skills, skillId)
            else if last.skillId == skillId then Some(last.kind) else None
  {
    if skills != [] {
      assert (skills + [last])[1..] == skills[1..] + [last];
      KindInAppend(skills[1..], last, skillId);
    }
  }

  lemma {:induction false} SnapshotRow(t: Table, runId: string, skills: seq<Resolved>, k: Key)
    ensures RowOf(Snapshotted(t, runId, skills), k)
         == if k in t then Some(t[k])
            else if KindNamed(Snapshot(runId, skills), k).Some? then
              Some(Row(KindNamed(Snapshot(runId, skills), k).value, 0))
            else None
  {
    if skills != [] {
      var n := |skills| - 1;
      SnapshotRow(t, runId, skills[..n], k);
      KindInAppend(skills[..n], skills[n], k.skillId);
      assert skills[..n] + [skills[n]] == skills;
    }
  }

  lemma {:induction false} FirstKindAppend(ops: seq<Op>, op: Op, k: Key)
    ensures FirstKind(ops + [op], k) == if FirstKind(ops, k).Some? then FirstKind(ops, k) else KindNamed(op, k)
  {
    if ops != [] {
      assert (ops + [op])[1..] == ops[1..] + [op];
      FirstKindAppend(ops[1..], op, k);
    } else {
      assert FirstKind([op][1..], k) == None;
    }
  }

  /** After any interleaving of snapshots and increments there is a row for a run
      and a skill exactly when one of them named it; its kind is the first one
      named and its count is the number of increments. */
  lemma {:induction false} LedgerCounts(ops: seq<Op>, k: Key)
    ensures RowOf(After(ops), k)
         == if FirstKind(ops, k).Some? then Some(Row(FirstKind(ops, k).value, Increments(ops, k))) else None
    ensures FirstKind(ops, k).None? ==> Increments(ops, k) == 0
  {
    if ops != [] {
      var init, op := ops[..|ops| - 1], ops[|ops| - 1];
      assert ops == init + [op];
      LedgerCounts(init, k);
      FirstKindAppend(init, op, k);
      if op.Snapshot? {
        SnapshotRow(After(init), op.runId, op.skills, k);
      }
    }
  }

  /** Repeating a snapshot, at any later time, changes nothing. */
  lemma SnapshotIsIdempotent(ops: seq<Op>, more: seq<Op>, runId: string, skills: seq<Resolved>)
    ensures var t := After(ops + [Snapshot(runId, skills)] + more); Snapshotted(t, runId, skills) == t
  {
    var all := ops + [Snapshot(runId, skills)] + more;
    var t := After(all);
    forall k
      ensures RowOf(Snapshotted(t, runId, skills), k) == RowOf(t, k)
    {
      SnapshotRow(t, runId, skills, k);
      LedgerCounts(all, k);
      if KindNamed(Snapshot(runId, skills), k).Some? {
        NamedStays(ops, Snapshot(runId, skills), more, k);
      }
    }
    var u := Snapshotted(t, runId, skills);
    assert forall k :: (k in u <==> RowOf(u, k).Some?) && (k in t <==> RowOf(t, k).Some?);
    assert u.Keys == t.Keys;
    forall k | k in t
      ensures u[k] == t[k]
    {
      assert RowOf(u, k) == RowOf(t, k);
    }
  }

  lemma {:induction false} NamedStays(ops: seq<Op>, op: Op, more: seq<Op>, k: Key)
    requires KindNamed(op, k).Some?
    ensures FirstKind(ops + [op] + more, k).Some?
  {
    var all := ops + [op] + more;
    if ops == [] {
      assert all[0] == op;
    } else {
      assert all[1..] == ops[1..] + [op] + more;
      NamedStays(ops[1..], op, more, k);
    }
  }
}
