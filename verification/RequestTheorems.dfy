/**
 What holds over every run of the creation-request store.
 */
module RequestTheorems {
  import opened Wrappers
  import opened JsonString
  import opened Json
  import opened CanonicalJson
  import opened CreationRequests
  import opened RequestRuns

  lemma ReachableFits(sha: Sha, steps: seq<Step>)
    ensures Inv(sha, Run(sha, EMPTY, steps))
  {
    RunKeeps(sha, EMPTY, steps);
  }

  // ----------------------------------------------------------- status and edges

  predicate SameClaim(a: Row, b: Row) {
    && a.notice.Some? == b.notice.Some?
    && (a.notice.Some? ==> a.notice.value.claim == b.notice.value.claim)
  }

  predicate SameDecision(a: Row, b: Row) {
    a.decidedBy == b.decidedBy && a.decidedAt == b.decidedAt && a.reason == b.reason && SameClaim(a, b)
  }

  /** The four edges of the status machine, or no edge at all; the proposal
      changes on one edge only, which begins a new cycle. */
  predicate Moved(a: Row, b: Row, cycle: nat, cycle': nat) {
    if a.status == b.status then
      SameProposal(a, b) && SameDecision(a, b) && a.publishResult == b.publishResult && cycle' == cycle
    else if a.status == Proposed then
      (b.status == Approved || b.status == Rejected) && SameProposal(a, b) && cycle' == cycle
    else if a.status == Rejected then
      b.status == Proposed && b.orgId == a.orgId && b.authorId == a.authorId && b.notice.None? && cycle' == cycle + 1
    else
      a.status == Approved && b.status == Published && SameProposal(a, b) && SameDecision(a, b) && cycle' == cycle
  }

  lemma EditMoves(sha: Sha, s: State, id: Id, org: Text, author: Text, edit: Edit, k: Id)
    requires Inv(sha, s) && k in s.rows
    ensures var t := DoEdit(sha, s, id, org, author, edit);
            k in t.rows && k in t.cycles && Moved(s.rows[k], t.rows[k], s.cycles[k], t.cycles[k])
  {
  }

  lemma WriteMoves(sha: Sha, s: State, c: Caller, now: int, k: Id)
    requires Inv(sha, s) && k in s.rows
    ensures var t := DoDecideWrite(s, c, now);
            k in t.rows && k in t.cycles && Moved(s.rows[k], t.rows[k], s.cycles[k], t.cycles[k])
  {
  }

  lemma AcknowledgeMoves(sha: Sha, s: State, id: Id, org: Text, claim: Claim, now: int, k: Id)
    requires Inv(sha, s) && k in s.rows
    ensures var t := DoAcknowledge(s, id, org, claim, now);
            k in t.rows && k in t.cycles && Moved(s.rows[k], t.rows[k], s.cycles[k], t.cycles[k])
  {
  }

  lemma PublishMoves(sha: Sha, s: State, c: Caller, result: Json, k: Id)
    requires Inv(sha, s) && k in s.rows
    ensures var t := DoPublishWrite(s, c, result);
            k in t.rows && k in t.cycles && Moved(s.rows[k], t.rows[k], s.cycles[k], t.cycles[k])
  {
  }

  lemma OtherMoves(sha: Sha, s: State, step: Step, k: Id)
    requires Inv(sha, s) && k in s.rows
    requires step.Create? || step.DecideRead? || step.DecideAgain? || step.PublishRead?
    ensures var t := Apply(sha, s, step);
            k in t.rows && k in t.cycles && Moved(s.rows[k], t.rows[k], s.cycles[k], t.cycles[k])
  {
  }

  /** Every step moves every request along an allowed edge, or not at all. */
  lemma StatusMovesAlongEdges(sha: Sha, s: State, step: Step, k: Id)
    requires Inv(sha, s) && k in s.rows
    ensures var t := Apply(sha, s, step);
            k in t.rows && k in t.cycles && Moved(s.rows[k], t.rows[k], s.cycles[k], t.cycles[k])
  {
    match step
    case EditRejected(id, org, author, edit) => EditMoves(sha, s, id, org, author, edit, k);
    case DecideWrite(c, now) => WriteMoves(sha, s, c, now, k);
    case Acknowledge(id, org, claim, now) => AcknowledgeMoves(sha, s, id, org, claim, now, k);
    case PublishWrite(c, result) => PublishMoves(sha, s, c, result, k);
    case _ => OtherMoves(sha, s, step, k);
  }

  /** A proposal is decided only by the UPDATE of a decide call that was shown
      exactly the proposal now in the row. */
  lemma DecidedBySeenHash(sha: Sha, s: State, step: Step, k: Id)
    requires Inv(sha, s) && k in s.rows && s.rows[k].status == Proposed
    requires Apply(sha, s, step).rows[k].status != Proposed
    ensures step.DecideWrite? && step.caller in s.calls && s.calls[step.caller].Deciding?
    ensures var b := s.calls[step.caller].ballot;
            && b.id == k && b.orgId == s.rows[k].orgId && b.expected == s.rows[k].hash
            && Apply(sha, s, step).rows[k].status == Next(b.decision)
  {
  }

  /** Published is terminal: nothing about the request changes any more, except
      that its notification may be acknowledged. */
  lemma {:induction false} PublishedIsTerminal(sha: Sha, s: State, steps: seq<Step>, k: Id)
    requires Inv(sha, s) && k in s.rows && s.rows[k].status == Published
    ensures var t := Run(sha, s, steps);
            && k in t.rows && t.rows[k].status == Published && SameProposal(s.rows[k], t.rows[k])
            && SameDecision(s.rows[k], t.rows[k]) && t.rows[k].publishResult == s.rows[k].publishResult
    decreases |steps|
  {
    if steps != [] {
      StepKeeps(sha, s, steps[0]);
      StatusMovesAlongEdges(sha, s, steps[0], k);
      PublishedIsTerminal(sha, Apply(sha, s, steps[0]), steps[1..], k);
    }
  }

  // -------------------------------------------------------------------- winners

  /** In any run at most one decide call returns normally for each cycle of each
      request, and its expected hash is that of the snapshot it decided. */
  lemma OneReturnPerCycle(sha: Sha, steps: seq<Step>, c: Caller, d: Caller)
    requires var s := Run(sha, EMPTY, steps);
        c in s.calls && d in s.calls && s.calls[c].Returned? && s.calls[d].Returned?
    ensures var s := Run(sha, EMPTY, steps);
            var i, j := s.calls[c].win, s.calls[d].win;
            && i < |s.wins| && j < |s.wins|
            && s.wins[i].ballot.expected == SnapshotHash(sha, s.wins[i].snapshot)
            && (c != d ==> s.wins[i].id != s.wins[j].id || s.wins[i].cycle != s.wins[j].cycle)
  {
    ReachableFits(sha, steps);
    var s := Run(sha, EMPTY, steps);
    assert CallFits(c, s.calls[c], s.wins) && CallFits(d, s.calls[d], s.wins);
  }

  /** In any run, who decided a row, when, and why it was rejected is what the one
      winner of its cycle said; a proposed row says nothing of the kind. */
  lemma DecisionIsTheWinners(sha: Sha, steps: seq<Step>, k: Id)
    requires k in Run(sha, EMPTY, steps).rows
    ensures var s := Run(sha, EMPTY, steps);
            var row := s.rows[k];
            && k in s.cycles
            && (row.status == Proposed ==> Undecided(row))
            && (row.status != Proposed ==>
                  exists i :: 0 <= i < |s.wins| && s.wins[i].id == k && s.wins[i].cycle == s.cycles[k]
                    && row.decidedBy == Some(s.wins[i].ballot.admin)
                    && row.decidedAt == Some(s.wins[i].claim.claimedAt)
                    && row.reason == (if s.wins[i].ballot.decision == Reject then s.wins[i].ballot.reason else None))
  {
    ReachableFits(sha, steps);
    var s := Run(sha, EMPTY, steps);
    assert RowFits(sha, k, s.rows[k], s.cycles[k], LastWin(s.wins, k), s.acks);
    LastWinIsLatest(s.wins, k);
    if s.rows[k].status != Proposed {
      var i :| 0 <= i < |s.wins| && s.wins[i] == LastWin(s.wins, k).value;
    }
  }

  /** Whatever is approved or published in any run is, up to key order, the very
      snapshot an administrator was shown when approving it. */
  lemma PublishedWasApproved(sha: Sha, steps: seq<Step>, k: Id, seen: Json)
    requires CollisionFree(sha)
    requires var s := Run(sha, EMPTY, steps);
             && k in s.rows && (s.rows[k].status == Approved || s.rows[k].status == Published)
             && WellFormed(s.rows[k].snapshot) && NoProto(s.rows[k].snapshot)
    requires WellFormed(seen) && NoProto(seen)
    ensures var s := Run(sha, EMPTY, steps);
            exists i :: 0 <= i < |s.wins| && s.wins[i].id == k && k in s.cycles && s.wins[i].cycle == s.cycles[k]
                     && s.wins[i].ballot.decision == Approve
                     && ((s.wins[i].ballot.expected == SnapshotHash(sha, seen))
                       == (ContentOf(seen) == ContentOf(s.rows[k].snapshot)))
  {
    ReachableFits(sha, steps);
    var s := Run(sha, EMPTY, steps);
    assert RowFits(sha, k, s.rows[k], s.cycles[k], LastWin(s.wins, k), s.acks);
    LastWinIsLatest(s.wins, k);
    var i :| 0 <= i < |s.wins| && s.wins[i] == LastWin(s.wins, k).value;
    HashIsContent(sha, seen, s.rows[k].snapshot);
  }

  // -------------------------------------------------------------- notifications

  /** Two decisions of one request never carry the same stamp. */
  ghost predicate DistinctStamps(wins: seq<Win>) {
    forall i, j :: 0 <= i < j < |wins| && wins[i].id == wins[j].id ==> wins[i].claim != wins[j].claim
  }

  /** A notification is marked sent only if someone acknowledged that claim. */
  lemma SentWasAcknowledged(sha: Sha, steps: seq<Step>, k: Id)
    requires var s := Run(sha, EMPTY, steps);
             k in s.rows && s.rows[k].notice.Some? && s.rows[k].notice.value.sentAt.Some?
    ensures var s := Run(sha, EMPTY, steps); (k, s.rows[k].notice.value.claim) in s.acks
  {
    ReachableFits(sha, steps);
    var s := Run(sha, EMPTY, steps);
    assert RowFits(sha, k, s.rows[k], s.cycles[k], LastWin(s.wins, k), s.acks);
  }

  /** The claim on a decided row is the claim of the winner of its cycle. */
  lemma ClaimIsTheWinners(sha: Sha, s: State, i: nat)
    requires Inv(sha, s) && DistinctStamps(s.wins) && i < |s.wins|
    ensures var k := s.wins[i].id;
            && k in s.rows && k in s.cycles
            && (s.rows[k].notice.Some? <==> s.rows[k].status != Proposed)
            && (s.rows[k].notice.Some? ==>
                  (s.rows[k].notice.value.claim == s.wins[i].claim <==> s.wins[i].cycle == s.cycles[k]))
  {
    var k := s.wins[i].id;
    assert RowFits(sha, k, s.rows[k], s.cycles[k], LastWin(s.wins, k), s.acks);
    LastWinIsLatest(s.wins, k);
    if s.rows[k].status != Proposed {
      var j :| 0 <= j < |s.wins| && s.wins[j] == LastWin(s.wins, k).value;
      assert i == j || s.wins[i].claim != s.wins[j].claim;
    }
  }

  /** However late a notifier acknowledges the claim its own decision stamped, it
      marks a row exactly while that decision is still the current one: never a
      later cycle's claim, and never a request that is being proposed again. */
  lemma LateNotifierIsIdle(sha: Sha, s: State, i: nat, org: Text, now: int)
    requires Inv(sha, s) && DistinctStamps(s.wins) && i < |s.wins|
    ensures var w := s.wins[i];
            && w.id in s.rows && w.id in s.cycles
            && (SentMatches(s.rows, w.id, org, w.claim) <==>
                  s.rows[w.id].orgId == org && s.rows[w.id].status != Proposed && s.cycles[w.id] == w.cycle)
            && (!SentMatches(s.rows, w.id, org, w.claim) ==> MarkSent(s.rows, w.id, org, w.claim, now) == s.rows)
  {
    ClaimIsTheWinners(sha, s, i);
  }

  /** A decide call hands its caller the row of its last read, and with it a
      claim to acknowledge. That claim is the one the call stamped exactly when
      the request has not been proposed anew in between. */
  lemma ReturnedClaim(sha: Sha, s: State, c: Caller)
    requires Inv(sha, s) && DistinctStamps(s.wins) && c in s.calls && s.calls[c].Decided?
    requires DoDecideAgain(s, c).calls[c].Returned?
    ensures var row, win := DoDecideAgain(s, c).calls[c].row, s.calls[c].win;
            && win < |s.wins| && s.wins[win].id in s.cycles && row.notice.Some?
            && (row.notice.value.claim == s.wins[win].claim <==> s.cycles[s.wins[win].id] == s.wins[win].cycle)
  {
    assert CallFits(c, s.calls[c], s.wins);
    ClaimIsTheWinners(sha, s, s.calls[c].win);
  }

  // ------------------------------------------------------------ counterexamples

  /** Some steps lead from one state to the other. */
  ghost predicate Leads(sha: Sha, s: State, t: State) {
    exists steps :: Run(sha, s, steps) == t
  }

  lemma {:induction false} RunOn(sha: Sha, s: State, a: seq<Step>, b: seq<Step>)
    ensures Run(sha, s, a + b) == Run(sha, Run(sha, s, a), b)
    decreases |a|
  {
    if a == [] {
      assert a + b == b;
    } else {
      assert (a + b)[1..] == a[1..] + b;
      RunOn(sha, Apply(sha, s, a[0]), a[1..], b);
    }
  }

  lemma LeadsOn(sha: Sha, s: State, t: State, u: State)
    requires Leads(sha, s, t) && Leads(sha, t, u)
    ensures Leads(sha, s, u)
  {
    var a :| Run(sha, s, a) == t;
    var b :| Run(sha, t, b) == u;
    RunOn(sha, s, a, b);
  }

  lemma OneStep(sha: Sha, s: State, a: Step)
    ensures Leads(sha, s, Apply(sha, s, a))
  {
    assert [a][1..] == [];
    assert Run(sha, s, [a]) == Apply(sha, s, a);
  }

  lemma TwoSteps(sha: Sha, s: State, a: Step, b: Step)
    ensures Leads(sha, s, Apply(sha, Apply(sha, s, a), b))
  {
    OneStep(sha, s, a);
    OneStep(sha, Apply(sha, s, a), b);
    LeadsOn(sha, s, Apply(sha, s, a), Apply(sha, Apply(sha, s, a), b));
  }

  lemma Proposal(sha: Sha, id: Id, org: Text, author: Text, snapshot: Json) returns (s: State)
    ensures Leads(sha, EMPTY, s)
    ensures s == State(map[id := NewRow(sha, org, author, [], snapshot, None)], map[id := 0], [], {}, map[])
  {
    s := Apply(sha, EMPTY, Create(id, org, author, [], snapshot, None));
    OneStep(sha, EMPTY, Create(id, org, author, [], snapshot, None));
  }

  /** A decide call up to and including its UPDATE, on a proposal it was shown. */
  lemma Decides(sha: Sha, s: State, c: Caller, b: Ballot, now: int) returns (t: State)
    requires c !in s.calls && DecideMatches(s.rows, b) && b.id in s.cycles
    ensures Leads(sha, s, t)
    ensures t.rows == s.rows[b.id := DecidedRow(s.rows[b.id], b, now)] && t.cycles == s.cycles && t.acks == s.acks
    ensures t.calls == s.calls[c := Decided(b, |s.wins|)]
    ensures t.wins == s.wins + [Win(b.id, s.cycles[b.id], c, b, s.rows[b.id].snapshot, Claim(Next(b.decision), now))]
  {
    TwoSteps(sha, s, DecideRead(c, b), DecideWrite(c, now));
    var u := Apply(sha, s, DecideRead(c, b));
    assert u == s.(calls := s.calls[c := Deciding(b)]);
    t := Apply(sha, u, DecideWrite(c, now));
    assert t.calls == s.calls[c := Decided(b, |s.wins|)];
  }

  lemma Reopens(sha: Sha, s: State, id: Id, edit: Edit) returns (t: State)
    requires id in s.rows && id in s.cycles && s.rows[id].status == Rejected
    ensures Leads(sha, s, t)
    ensures t == s.(rows := s.rows[id := Reopened(sha, s.rows[id], edit)], cycles := s.cycles[id := s.cycles[id] + 1])
  {
    var row := s.rows[id];
    t := Apply(sha, s, EditRejected(id, row.orgId, row.authorId, edit));
    OneStep(sha, s, EditRejected(id, row.orgId, row.authorId, edit));
  }

  lemma Publishes(sha: Sha, s: State, c: Caller, id: Id, org: Text) returns (t: State)
    requires c !in s.calls && PublishMatches(s.rows, id, org)
    ensures Leads(sha, s, t)
    ensures id in t.rows && t.rows[id].status == Published && t.rows[id].orgId == org
  {
    TwoSteps(sha, s, PublishRead(c, id, org), PublishWrite(c, Null));
    var u := Apply(sha, s, PublishRead(c, id, org));
    assert u == s.(calls := s.calls[c := Publishing(id, org)]);
    t := Apply(sha, u, PublishWrite(c, Null));
  }

  /** The call's last read succeeds and gives it a claim it did not stamp. */
  predicate TakesForeignClaim(s: State, c: Caller) {
    && c in s.calls && s.calls[c].Decided? && s.calls[c].win < |s.wins|
    && var again := DecideReread(s.rows, s.calls[c].ballot);
    again.Done? && again.row.notice.Some? && again.row.notice.value.claim != s.wins[s.calls[c].win].claim
  }

  lemma RejectedTwice(sha: Sha, id: Id, org: Text, snapshot: Json, edit: Edit) returns (s: State, first: Ballot)
    ensures Leads(sha, EMPTY, s)
    ensures |s.wins| == 2 && s.wins[0].claim == Claim(Rejected, 1) && s.wins[1].claim == Claim(Rejected, 2)
    ensures first.id == id && first.orgId == org && first.decision == Reject
    ensures 0 in s.calls && s.calls[0] == Decided(first, 0)
    ensures id in s.rows && s.rows[id].orgId == org && s.rows[id].status == Rejected
    ensures s.rows[id].notice == Some(Notice(Claim(Rejected, 2), None))
  {
    first := Ballot(id, org, [], Reject, None, SnapshotHash(sha, snapshot));
    var second := Ballot(id, org, [], Reject, None, SnapshotHash(sha, edit.snapshot));
    var s0 := Proposal(sha, id, org, [], snapshot);
    var s1 := Decides(sha, s0, 0, first, 1);
    LeadsOn(sha, EMPTY, s0, s1);
    var s2 := Reopens(sha, s1, id, edit);
    LeadsOn(sha, EMPTY, s1, s2);
    s := Decides(sha, s2, 1, second, 2);
    LeadsOn(sha, EMPTY, s2, s);
  }

  /** Two rejections with an edit between them: the first caller, reading again
      only then, is handed the second one's claim and will acknowledge that. */
  lemma ForeignClaim(sha: Sha, id: Id, org: Text, snapshot: Json, edit: Edit)
    ensures exists s: State, c: Caller :: Leads(sha, EMPTY, s) && DistinctStamps(s.wins) && TakesForeignClaim(s, c)
  {
    var s, first := RejectedTwice(sha, id, org, snapshot, edit);
    assert TakesForeignClaim(s, 0);
  }

  predicate AllowedEdge(from: Status, to: Status) {
    || (from == Proposed && (to == Approved || to == Rejected))
    || (from == Rejected && to == Proposed)
    || (from == Approved && to == Published)
  }

  /** The UPDATE of an edit on its own, run after someone else's step: it keeps
      to the status machine exactly when the request is still rejected. */
  lemma SplitEditEdge(sha: Sha, t: Table, id: Id, org: Text, edit: Edit)
    requires Read(t, id, org).Some?
    ensures AllowedEdge(t[id].status, EditUpdate(sha, t, id, org, edit)[id].status) <==> t[id].status == Rejected
  {
  }

  /** Two processes editing the same rejected request: the slower one, which
      checked the status before the faster one's edit was approved and
      published, takes the published request back to proposed. */
  lemma SplitEditReopensPublished(sha: Sha, id: Id, org: Text, author: Text, snapshot: Json, edit: Edit, late: Edit)
    ensures exists s: State, t: State ::
              && Leads(sha, EMPTY, s) && EditRefusal(s.rows, id, org, author).None?
              && Leads(sha, s, t) && id in t.rows && t.rows[id].status == Published
              && id in EditUpdate(sha, t.rows, id, org, late)
              && EditUpdate(sha, t.rows, id, org, late)[id].status == Proposed
  {
    var s0 := Proposal(sha, id, org, author, snapshot);
    var s1 := Decides(sha, s0, 0, Ballot(id, org, [], Reject, None, SnapshotHash(sha, snapshot)), 1);
    var s2 := Reopens(sha, s1, id, edit);
    var s3 := Decides(sha, s2, 1, Ballot(id, org, [], Approve, None, SnapshotHash(sha, edit.snapshot)), 2);
    var s4 := Publishes(sha, s3, 2, id, org);
    LeadsOn(sha, EMPTY, s0, s1);
    LeadsOn(sha, s1, s2, s3);
    LeadsOn(sha, s1, s3, s4);
    assert EditRefusal(s1.rows, id, org, author).None?;
    assert EditUpdate(sha, s4.rows, id, org, late)[id].status == Proposed;
  }
}
