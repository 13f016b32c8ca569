/**
 Runs of the creation-request store with any number of deciders, publishers,
 authors and notifiers at once. A decide call is three steps (read, UPDATE,
 read again) and a publish call two; an edit runs in one step.
 */
module RequestRuns {
  import opened Wrappers
  import opened JsonString
  import opened Json
  import opened CanonicalJson
  import opened CreationRequests

  type Caller = nat

  /** A decide UPDATE that matched: who, which cycle of which request, and what
      stood in the row at that moment. */
  datatype Win = Win(id: Id, cycle: nat, caller: Caller, ballot: Ballot, snapshot: Json, claim: Claim)

  datatype Call =
    | Deciding(ballot: Ballot)
    | Decided(ballot: Ballot, win: nat)
    | Returned(row: Row, win: nat)
    | Publishing(id: Id, orgId: Text)
    | Over(outcome: Outcome)

  /** `cycles` counts how often each request has been proposed anew; `acks` are
      the acknowledgements notifiers have made. */
  datatype State = State(
    rows: Table,
    cycles: map<Id, nat>,
    wins: seq<Win>,
    acks: set<(Id, Claim)>,
    calls: map<Caller, Call>)

  const EMPTY := State(map[], map[], [], {}, map[])

  datatype Step =
    | Create(id: Id, orgId: Text, author: Text, version: Text, snapshot: Json, review: Option<Json>)
    | EditRejected(id: Id, orgId: Text, author: Text, edit: Edit)
    | DecideRead(caller: Caller, ballot: Ballot)
    | DecideWrite(caller: Caller, now: int)
    | DecideAgain(caller: Caller)
    | Acknowledge(id: Id, orgId: Text, claim: Claim, now: int)
    | PublishRead(caller: Caller, id: Id, orgId: Text)
    | PublishWrite(caller: Caller, result: Json)

  // -------------------------------------------------------------------- steps

  function DoCreate(sha: Sha, s: State, id: Id, row: Row): State {
    if id in s.rows then s else s.(rows := s.rows[id := row], cycles := s.cycles[id := 0])
  }

  function DoEdit(sha: Sha, s: State, id: Id, org: Text, author: Text, edit: Edit): State {
    if EditRefusal(s.rows, id, org, author).Some? || id !in s.cycles then s
    else s.(rows := EditUpdate(sha, s.rows, id, org, edit), cycles := s.cycles[id := s.cycles[id] + 1])
  }

  function DoDecideRead(s: State, c: Caller, b: Ballot): State {
    if c in s.calls then s
    else
      var refusal := DecideRefusal(s.rows, b);
      s.(calls := s.calls[c := if refusal.Some? then Over(refusal.value) else Deciding(b)])
  }

  function DoDecideWrite(s: State, c: Caller, now: int): State {
    if c !in s.calls || !s.calls[c].Deciding? then s
    else
      var b := s.calls[c].ballot;
      if !DecideMatches(s.rows, b) || b.id !in s.cycles then s.(calls := s.calls[c := Over(Stale)])
      else
        var win := Win(b.id, s.cycles[b.id], c, b, s.rows[b.id].snapshot, Claim(Next(b.decision), now));
        s.(rows := DecideUpdate(s.rows, b, now), wins := s.wins + [win], calls := s.calls[c := Decided(b, |s.wins|)])
  }

  function DoDecideAgain(s: State, c: Caller): State {
    if c !in s.calls || !s.calls[c].Decided? then s
    else
      var call := s.calls[c];
      var out := DecideReread(s.rows, call.ballot);
      s.(calls := s.calls[c := if out.Done? then Returned(out.row, call.win) else Over(out)])
  }

  function DoAcknowledge(s: State, id: Id, org: Text, claim: Claim, now: int): State {
    s.(rows := MarkSent(s.rows, id, org, claim, now), acks := s.acks + {(id, claim)})
  }

  function DoPublishRead(s: State, c: Caller, id: Id, org: Text): State {
    if c in s.calls then s
    else
      var refusal := PublishRefusal(s.rows, id, org);
      s.(calls := s.calls[c := if refusal.Some? then Over(refusal.value) else Publishing(id, org)])
  }

  /** The UPDATE and the last read: the caller is given the row as it is then. */
  function DoPublishWrite(s: State, c: Caller, result: Json): State {
    if c !in s.calls || !s.calls[c].Publishing? then s
    else
      var Publishing(id, org) := s.calls[c];
      var after := PublishUpdate(s.rows, id, org, result);
      var row := Read(after, id, org);
      s.(rows := after, calls := s.calls[c := Over(if row.Some? then Done(row.value) else NotFound)])
  }

  function Apply(sha: Sha, s: State, step: Step): State {
    match step
    case Create(id, org, author, version, snapshot, review) =>
      DoCreate(sha, s, id, NewRow(sha, org, author, version, snapshot, review))
    case EditRejected(id, org, author, edit) => DoEdit(sha, s, id, org, author, edit)
    case DecideRead(c, b) => DoDecideRead(s, c, b)
    case DecideWrite(c, now) => DoDecideWrite(s, c, now)
    case DecideAgain(c) => DoDecideAgain(s, c)
    case Acknowledge(id, org, claim, now) => DoAcknowledge(s, id, org, claim, now)
    case PublishRead(c, id, org) => DoPublishRead(s, c, id, org)
    case PublishWrite(c, result) => DoPublishWrite(s, c, result)
  }

  function Run(sha: Sha, s: State, steps: seq<Step>): State
    decreases |steps|
  {
    if steps == [] then s else Run(sha, Apply(sha, s, steps[0]), steps[1..])
  }

  // ---------------------------------------------------------------- invariant

  function LastWin(wins: seq<Win>, id: Id): Option<Win> {
    if wins == [] then None
    else
      var w := wins[|wins| - 1];
      if w.id == id then Some(w) else LastWin(wins[..|wins| - 1], id)
  }

  /** A decided row is what its cycle's one winner decided, and a proposed row
      has no winner yet. */
  ghost predicate RowFits(sha: Sha, id: Id, row: Row, cycle: nat, last: Option<Win>, acks: set<(Id, Claim)>) {
    && row.hash == SnapshotHash(sha, row.snapshot)
    && row.status != Draft
    && (last.Some? ==> last.value.cycle <= cycle)
    && (row.status == Proposed ==> Undecided(row) && (last.Some? ==> last.value.cycle < cycle))
    && (row.status != Proposed ==> last.Some? && DecidedBy(row, cycle, last.value))
    && (row.notice.Some? && row.notice.value.sentAt.Some? ==> (id, row.notice.value.claim) in acks)
  }

  predicate DecidedBy(row: Row, cycle: nat, win: Win) {
    && win.cycle == cycle
    && win.ballot.decision == (if row.status == Rejected then Reject else Approve)
    && win.ballot.expected == row.hash
    && win.snapshot == row.snapshot
    && row.notice.Some? && row.notice.value.claim == win.claim
    && row.decidedBy == Some(win.ballot.admin) && row.decidedAt == Some(win.claim.claimedAt)
    && row.reason == (if row.status == Rejected then win.ballot.reason else None)
  }

  ghost predicate RowsFit(sha: Sha, rows: Table, cycles: map<Id, nat>, wins: seq<Win>, acks: set<(Id, Claim)>) {
    && rows.Keys == cycles.Keys
    && forall id :: id in rows ==> RowFits(sha, id, rows[id], cycles[id], LastWin(wins, id), acks)
  }

  /** The winners of one request are in the order of its cycles, no cycle twice. */
  ghost predicate InOrder(wins: seq<Win>) {
    forall i, j :: 0 <= i < j < |wins| && wins[i].id == wins[j].id ==> wins[i].cycle < wins[j].cycle
  }

  ghost predicate WinsFit(sha: Sha, rows: Table, wins: seq<Win>) {
    && InOrder(wins)
    && forall k :: 0 <= k < |wins| ==>
         && wins[k].id in rows
         && wins[k].ballot.id == wins[k].id
         && wins[k].ballot.expected == SnapshotHash(sha, wins[k].snapshot)
         && wins[k].claim.decision == Next(wins[k].ballot.decision)
  }

  predicate CallFits(c: Caller, call: Call, wins: seq<Win>) {
    match call
    case Decided(b, k) => k < |wins| && wins[k].caller == c && wins[k].ballot == b
    case Returned(row, k) => k < |wins| && wins[k].caller == c && row.status == Next(wins[k].ballot.decision)
    case _ => true
  }

  ghost predicate CallsFit(calls: map<Caller, Call>, wins: seq<Win>) {
    forall c :: c in calls ==> CallFits(c, calls[c], wins)
  }

  ghost predicate Inv(sha: Sha, s: State) {
    && RowsFit(sha, s.rows, s.cycles, s.wins, s.acks)
    && WinsFit(sha, s.rows, s.wins)
    && CallsFit(s.calls, s.wins)
  }

  // ------------------------------------------------------- each step keeps it

  lemma {:induction false} LastWinIsLatest(wins: seq<Win>, id: Id)
    requires InOrder(wins)
    ensures forall k :: 0 <= k < |wins| && wins[k].id == id ==>
              LastWin(wins, id).Some? && wins[k].cycle <= LastWin(wins, id).value.cycle
    ensures LastWin(wins, id).Some? ==> LastWin(wins, id).value in wins && LastWin(wins, id).value.id == id
  {
    if wins != [] {
      LastWinIsLatest(wins[..|wins| - 1], id);
      assert wins[|wins| - 1] in wins;
    }
  }

  lemma OneMoreWin(wins: seq<Win>, win: Win, id: Id)
    ensures LastWin(wins + [win], id) == if win.id == id then Some(win) else LastWin(wins, id)
  {
    assert (wins + [win])[..|wins|] == wins;
  }

  lemma OneRowChanges(sha: Sha, s: State, id: Id, row: Row, cycle: nat)
    requires RowsFit(sha, s.rows, s.cycles, s.wins, s.acks)
    requires RowFits(sha, id, row, cycle, LastWin(s.wins, id), s.acks)
    ensures RowsFit(sha, s.rows[id := row], s.cycles[id := cycle], s.wins, s.acks)
  {
  }

  lemma CreateKeeps(sha: Sha, s: State, id: Id, org: Text, author: Text, version: Text, snapshot: Json,
          review: Option<Json>)
    requires Inv(sha, s)
    ensures Inv(sha, DoCreate(sha, s, id, NewRow(sha, org, author, version, snapshot, review)))
  {
    if id !in s.rows {
      LastWinIsLatest(s.wins, id);
      assert LastWin(s.wins, id).None?;
      OneRowChanges(sha, s, id, NewRow(sha, org, author, version, snapshot, review), 0);
    }
  }

  lemma ReopenedFits(sha: Sha, id: Id, row: Row, cycle: nat, last: Option<Win>, acks: set<(Id, Claim)>, edit: Edit)
    requires RowFits(sha, id, row, cycle, last, acks)
    ensures RowFits(sha, id, Reopened(sha, row, edit), cycle + 1, last, acks)
  {
  }

  lemma EditKeeps(sha: Sha, s: State, id: Id, org: Text, author: Text, edit: Edit)
    requires Inv(sha, s)
    ensures Inv(sha, DoEdit(sha, s, id, org, author, edit))
  {
    if EditRefusal(s.rows, id, org, author).None? && id in s.cycles {
      EditKeepsRows(sha, s, id, org, edit);
      WinsStay(sha, s.rows, EditUpdate(sha, s.rows, id, org, edit), s.wins);
    }
  }

  lemma EditKeepsRows(sha: Sha, s: State, id: Id, org: Text, edit: Edit)
    requires RowsFit(sha, s.rows, s.cycles, s.wins, s.acks) && Read(s.rows, id, org).Some?
    ensures EditUpdate(sha, s.rows, id, org, edit) == s.rows[id := Reopened(sha, s.rows[id], edit)]
    ensures RowsFit(sha, EditUpdate(sha, s.rows, id, org, edit), s.cycles[id := s.cycles[id] + 1], s.wins, s.acks)
  {
    ReopenedFits(sha, id, s.rows[id], s.cycles[id], LastWin(s.wins, id), s.acks, edit);
    OneRowChanges(sha, s, id, Reopened(sha, s.rows[id], edit), s.cycles[id] + 1);
  }

  lemma WinsStay(sha: Sha, before: Table, after: Table, wins: seq<Win>)
    requires WinsFit(sha, before, wins) && before.Keys <= after.Keys
    ensures WinsFit(sha, after, wins)
  {
  }

  lemma WinKeepsRows(sha: Sha, s: State, b: Ballot, win: Win, now: int)
    requires RowsFit(sha, s.rows, s.cycles, s.wins, s.acks)
    requires DecideMatches(s.rows, b) && win.id == b.id && win.cycle == s.cycles[b.id] && win.ballot == b
    requires win.snapshot == s.rows[b.id].snapshot && win.claim == Claim(Next(b.decision), now)
    ensures RowsFit(sha, DecideUpdate(s.rows, b, now), s.cycles, s.wins + [win], s.acks)
  {
    var rows := DecideUpdate(s.rows, b, now);
    assert rows.Keys == s.rows.Keys;
    forall id | id in rows
      ensures RowFits(sha, id, rows[id], s.cycles[id], LastWin(s.wins + [win], id), s.acks)
    {
      OneMoreWin(s.wins, win, id);
      assert RowFits(sha, id, s.rows[id], s.cycles[id], LastWin(s.wins, id), s.acks);
    }
  }

  lemma WinKeepsOrder(sha: Sha, s: State, win: Win)
    requires RowsFit(sha, s.rows, s.cycles, s.wins, s.acks) && InOrder(s.wins)
    requires win.id in s.rows && s.rows[win.id].status == Proposed && win.cycle == s.cycles[win.id]
    ensures InOrder(s.wins + [win])
  {
    LastWinIsLatest(s.wins, win.id);
    assert RowFits(sha, win.id, s.rows[win.id], s.cycles[win.id], LastWin(s.wins, win.id), s.acks);
  }

  lemma WinKeepsCalls(s: State, c: Caller, b: Ballot, win: Win)
    requires CallsFit(s.calls, s.wins) && win.caller == c && win.ballot == b
    ensures CallsFit(s.calls[c := Decided(b, |s.wins|)], s.wins + [win])
  {
    var calls := s.calls[c := Decided(b, |s.wins|)];
    forall d | d in calls
      ensures CallFits(d, calls[d], s.wins + [win])
    {
      if d != c {
        assert CallFits(d, s.calls[d], s.wins);
      }
    }
  }

  lemma WriteKeeps(sha: Sha, s: State, c: Caller, now: int)
    requires Inv(sha, s)
    ensures Inv(sha, DoDecideWrite(s, c, now))
  {
    if c in s.calls && s.calls[c].Deciding? && DecideMatches(s.rows, s.calls[c].ballot) {
      var b := s.calls[c].ballot;
      var win := Win(b.id, s.cycles[b.id], c, b, s.rows[b.id].snapshot, Claim(Next(b.decision), now));
      assert RowFits(sha, b.id, s.rows[b.id], s.cycles[b.id], LastWin(s.wins, b.id), s.acks);
      WinKeepsRows(sha, s, b, win, now);
      WinKeepsOrder(sha, s, win);
      WinKeepsCalls(s, c, b, win);
    }
  }

  lemma AcknowledgeKeeps(sha: Sha, s: State, id: Id, org: Text, claim: Claim, now: int)
    requires Inv(sha, s)
    ensures Inv(sha, DoAcknowledge(s, id, org, claim, now))
  {
    var t := DoAcknowledge(s, id, org, claim, now);
    assert t.rows.Keys == s.rows.Keys;
    forall k | k in t.rows
      ensures RowFits(sha, k, t.rows[k], t.cycles[k], LastWin(t.wins, k), t.acks)
    {
      assert RowFits(sha, k, s.rows[k], s.cycles[k], LastWin(s.wins, k), s.acks);
    }
  }

  lemma PublishedFits(sha: Sha, id: Id, row: Row, cycle: nat, last: Option<Win>, acks: set<(Id, Claim)>, result: Json)
    requires RowFits(sha, id, row, cycle, last, acks) && row.status == Approved
    ensures RowFits(sha, id, row.(status := Published, publishResult := Some(result)), cycle, last, acks)
  {
  }

  lemma PublishKeepsRows(sha: Sha, s: State, id: Id, org: Text, result: Json)
    requires RowsFit(sha, s.rows, s.cycles, s.wins, s.acks)
    ensures RowsFit(sha, PublishUpdate(s.rows, id, org, result), s.cycles, s.wins, s.acks)
    ensures PublishUpdate(s.rows, id, org, result).Keys == s.rows.Keys
  {
    if PublishMatches(s.rows, id, org) {
      var row := s.rows[id].(status := Published, publishResult := Some(result));
      PublishedFits(sha, id, s.rows[id], s.cycles[id], LastWin(s.wins, id), s.acks, result);
      OneRowChanges(sha, s, id, row, s.cycles[id]);
      assert s.cycles[id := s.cycles[id]] == s.cycles;
    }
  }

  lemma PublishKeeps(sha: Sha, s: State, c: Caller, result: Json)
    requires Inv(sha, s)
    ensures Inv(sha, DoPublishWrite(s, c, result))
  {
    if c in s.calls && s.calls[c].Publishing? {
      PublishKeepsRows(sha, s, s.calls[c].id, s.calls[c].orgId, result);
    }
  }

  lemma AgainKeeps(sha: Sha, s: State, c: Caller)
    requires Inv(sha, s)
    ensures Inv(sha, DoDecideAgain(s, c))
  {
    if c in s.calls && s.calls[c].Decided? {
      assert CallFits(c, s.calls[c], s.wins);
    }
  }

  lemma StepKeeps(sha: Sha, s: State, step: Step)
    requires Inv(sha, s)
    ensures Inv(sha, Apply(sha, s, step))
  {
    match step
    case Create(id, org, author, version, snapshot, review) =>
      CreateKeeps(sha, s, id, org, author, version, snapshot, review);
    case EditRejected(id, org, author, edit) => EditKeeps(sha, s, id, org, author, edit);
    case DecideRead(c, b) =>
    case DecideWrite(c, now) => WriteKeeps(sha, s, c, now);
    case DecideAgain(c) => AgainKeeps(sha, s, c);
    case Acknowledge(id, org, claim, now) => AcknowledgeKeeps(sha, s, id, org, claim, now);
    case PublishRead(c, id, org) =>
    case PublishWrite(c, result) => PublishKeeps(sha, s, c, result);
  }

  lemma {:induction false} RunKeeps(sha: Sha, s: State, steps: seq<Step>)
    requires Inv(sha, s)
    ensures Inv(sha, Run(sha, s, steps))
    decreases |steps|
  {
    if steps != [] {
      StepKeeps(sha, s, steps[0]);
      RunKeeps(sha, Apply(sha, s, steps[0]), steps[1..]);
    }
  }
}
