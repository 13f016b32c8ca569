/**
 Agent creation requests: the table of proposals and the operations of
 `src/lib/agent-creation-requests-store.ts`. Each SQL statement is one function
 on the table; the store's methods run the statements of one call in order.
 */
module CreationRequests {
  import opened Wrappers
  import opened JsonString
  import opened Json
  import opened CanonicalJson

  type Id = Text
  type Sha = Text -> Digest

  datatype Status = Draft | Proposed | Approved | Rejected | Published

  datatype Decision = Approve | Reject

  /** Which decision a notification belongs to. */
  datatype Claim = Claim(decision: Status, claimedAt: int)

  datatype Notice = Notice(claim: Claim, sentAt: Option<int>)

  datatype Row = Row(
    orgId: Text,
    authorId: Text,
    version: Text,
    status: Status,
    snapshot: Json,
    review: Option<Json>,
    hash: Digest,
    decidedBy: Option<Text>,
    decidedAt: Option<int>,
    reason: Option<Text>,
    publishResult: Option<Json>,
    notice: Option<Notice>)

  type Table = map<Id, Row>

  datatype Edit = Edit(snapshot: Json, review: Option<Json>, version: Option<Text>)

  /** One decide call as its caller wrote it. */
  datatype Ballot = Ballot(id: Id, orgId: Text, admin: Text, decision: Decision, reason: Option<Text>, expected: Digest)

  datatype Outcome =
    | Done(row: Row)
    | NotFound
    | Invalid(from: Status, to: Status)
    | NotAuthor
    | Stale

  function Next(d: Decision): Status {
    if d == Approve then Approved else Rejected
  }

  /** What was proposed: everything an approval is about. */
  predicate SameProposal(a: Row, b: Row) {
    && a.orgId == b.orgId && a.authorId == b.authorId && a.version == b.version
    && a.snapshot == b.snapshot && a.review == b.review && a.hash == b.hash
  }

  /** No trace of a decision. */
  predicate Undecided(row: Row) {
    row.decidedBy.None? && row.decidedAt.None? && row.reason.None? && row.notice.None?
  }

  // --------------------------------------------------------------- statements

  function Read(t: Table, id: Id, org: Text): Option<Row> {
    if id in t && t[id].orgId == org then Some(t[id]) else None
  }

  function NewRow(sha: Sha, org: Text, author: Text, version: Text, snapshot: Json, review: Option<Json>): Row {
    Row(org, author, version, Proposed, snapshot, review, SnapshotHash(sha, snapshot), None, None, None, None, None)
  }

  function Reopened(sha: Sha, row: Row, edit: Edit): Row {
    row.(snapshot := edit.snapshot,
         review := edit.review,
         hash := SnapshotHash(sha, edit.snapshot),
         version := if edit.version.Some? then edit.version.value else row.version,
         status := Proposed,
         decidedBy := None, decidedAt := None, reason := None, notice := None)
  }

  /** The UPDATE of an edit; it does not ask for a status. */
  function EditUpdate(sha: Sha, t: Table, id: Id, org: Text, edit: Edit): Table {
    if Read(t, id, org).Some? then t[id := Reopened(sha, t[id], edit)] else t
  }

  function DecidedRow(row: Row, b: Ballot, now: int): Row {
    row.(status := Next(b.decision),
         decidedBy := Some(b.admin), decidedAt := Some(now),
         reason := if b.decision == Reject then b.reason else None,
         notice := Some(Notice(Claim(Next(b.decision), now), None)))
  }

  /** The rows the decide UPDATE matches: its compare-and-set condition. */
  predicate DecideMatches(t: Table, b: Ballot) {
    Read(t, b.id, b.orgId).Some? && t[b.id].hash == b.expected && t[b.id].status == Proposed
  }

  function DecideUpdate(t: Table, b: Ballot, now: int): Table {
    if DecideMatches(t, b) then t[b.id := DecidedRow(t[b.id], b, now)] else t
  }

  predicate SentMatches(t: Table, id: Id, org: Text, claim: Claim) {
    Read(t, id, org).Some? && t[id].notice.Some? && t[id].notice.value.claim == claim
  }

  function MarkSent(t: Table, id: Id, org: Text, claim: Claim, now: int): Table {
    if SentMatches(t, id, org, claim)
    then t[id := t[id].(notice := Some(t[id].notice.value.(sentAt := Some(now))))]
    else t
  }

  predicate PublishMatches(t: Table, id: Id, org: Text) {
    Read(t, id, org).Some? && t[id].status == Approved
  }

  function PublishUpdate(t: Table, id: Id, org: Text, result: Json): Table {
    if PublishMatches(t, id, org)
    then t[id := t[id].(status := Published, publishResult := Some(result))]
    else t
  }

  // -------------------------------------------------------- checks before them

  /** Why a decide call stops at its first read, if it does. */
  function DecideRefusal(t: Table, b: Ballot): Option<Outcome> {
    var cur := Read(t, b.id, b.orgId);
    if cur.None? then Some(NotFound)
    else if cur.value.status != Proposed then Some(Invalid(cur.value.status, Next(b.decision)))
    else if cur.value.hash != b.expected then Some(Stale)
    else None
  }

  function PublishRefusal(t: Table, id: Id, org: Text): Option<Outcome> {
    var cur := Read(t, id, org);
    if cur.None? then Some(NotFound)
    else if cur.value.status != Approved then Some(Invalid(cur.value.status, Published))
    else None
  }

  function EditRefusal(t: Table, id: Id, org: Text, author: Text): Option<Outcome> {
    var cur := Read(t, id, org);
    if cur.None? then Some(NotFound)
    else if cur.value.status != Rejected then Some(Invalid(cur.value.status, Proposed))
    else if cur.value.authorId != author then Some(NotAuthor)
    else None
  }

  /** The first read lets a call go on exactly for a row that is there, in the right
      status, and is the one the caller has seen, or the caller's own. */
  lemma FirstReadExactly(t: Table, b: Ballot, id: Id, org: Text, author: Text)
    ensures DecideRefusal(t, b).None? <==>
              b.id in t && t[b.id].orgId == b.orgId && t[b.id].status == Proposed && t[b.id].hash == b.expected
    ensures PublishRefusal(t, id, org).None? <==> id in t && t[id].orgId == org && t[id].status == Approved
    ensures EditRefusal(t, id, org, author).None? <==>
              id in t && t[id].orgId == org && t[id].status == Rejected && t[id].authorId == author
  {
  }

  /** What the last read of a decide call makes of the row. */
  function DecideReread(t: Table, b: Ballot): Outcome {
    var after := Read(t, b.id, b.orgId);
    if after.None? || after.value.status != Next(b.decision) then Stale else Done(after.value)
  }

  // -------------------------------------------------------------- the operations

  class RequestStore {
    var rows: Table
    const sha: Sha

    constructor (sha: Sha)
      ensures rows == map[] && this.sha == sha
    {
      rows := map[];
      this.sha := sha;
    }

    /** `id` is a fresh random identifier. */
    method Create(id: Id, org: Text, author: Text, version: Text, snapshot: Json, review: Option<Json>)
      returns (row: Row)
      requires id !in rows
      modifies this`rows
      ensures row.status == Proposed && row.hash == SnapshotHash(sha, snapshot) && row.snapshot == snapshot
      ensures row.orgId == org && row.authorId == author && row.version == version && row.review == review
      ensures Undecided(row) && row.publishResult.None?
      ensures rows == old(rows)[id := row]
    {
      rows := rows[id := NewRow(sha, org, author, version, snapshot, review)];
      row := rows[id];
    }

    /** Only the author reopens, and only a rejected request; every trace of the
        decision is gone afterwards and no other request is touched. */
    method EditRejected(id: Id, org: Text, author: Text, edit: Edit) returns (out: Outcome)
      modifies this`rows
      ensures out.Done?
         <==> old(id in rows && rows[id].orgId == org && rows[id].status == Rejected && rows[id].authorId == author)
      ensures !out.Done? ==> rows == old(rows)
      ensures out.NotFound? <==> old(id !in rows || rows[id].orgId != org)
      ensures old(id in rows && rows[id].orgId == org && rows[id].status != Rejected) ==>
                out == Invalid(old(rows)[id].status, Proposed)
      ensures !out.Done? && !out.NotFound? && old(rows)[id].status == Rejected ==> out == NotAuthor
      ensures out.Done? ==> rows == old(rows)[id := out.row]
      ensures out.Done? ==> out.row.status == Proposed && Undecided(out.row)
      ensures out.Done? ==> out.row.snapshot == edit.snapshot && out.row.hash == SnapshotHash(sha, edit.snapshot)
      ensures out.Done? ==> out.row.review == edit.review
      ensures out.Done? ==>
                out.row.version == if edit.version.Some? then edit.version.value else old(rows)[id].version
      ensures out.Done? ==> out.row.orgId == old(rows)[id].orgId && out.row.authorId == old(rows)[id].authorId
      ensures out.Done? ==> out.row.publishResult == old(rows)[id].publishResult
    {
      var refusal := EditRefusal(rows, id, org, author);
      if refusal.Some? {
        return refusal.value;
      }
      rows := EditUpdate(sha, rows, id, org, edit);
      out := Done(Read(rows, id, org).value);
    }

    /** With no other call in between, a decide either changes nothing or moves
        the proposal it was shown, and claims its notification. */
    method Decide(b: Ballot, now: int) returns (out: Outcome)
      modifies this`rows
      ensures out.Done?
         <==> old(b.id in rows && rows[b.id].orgId == b.orgId
                  && rows[b.id].status == Proposed && rows[b.id].hash == b.expected)
      ensures !out.Done? ==> rows == old(rows)
      ensures out.NotFound? <==> old(b.id !in rows || rows[b.id].orgId != b.orgId)
      ensures old(b.id in rows && rows[b.id].orgId == b.orgId && rows[b.id].status != Proposed) ==>
                out == Invalid(old(rows)[b.id].status, if b.decision == Approve then Approved else Rejected)
      ensures !out.Done? && !out.NotFound? && old(rows)[b.id].status == Proposed ==> out == Stale
      ensures out.Done? ==> rows == old(rows)[b.id := out.row]
      ensures out.Done? ==> out.row.status == (if b.decision == Approve then Approved else Rejected)
      ensures out.Done? ==> out.row.decidedBy == Some(b.admin) && out.row.decidedAt == Some(now)
      ensures out.Done? ==> out.row.reason == if b.decision == Reject then b.reason else None
      ensures out.Done? ==> out.row.notice == Some(Notice(Claim(out.row.status, now), None))
      ensures out.Done? ==> out.row.hash == b.expected && SameProposal(out.row, old(rows)[b.id])
      ensures out.Done? ==> out.row.publishResult == old(rows)[b.id].publishResult
    {
      var refusal := DecideRefusal(rows, b);
      if refusal.Some? {
        return refusal.value;
      }
      var matched := DecideMatches(rows, b);
      rows := DecideUpdate(rows, b, now);
      if !matched {
        return Stale;
      }
      out := DecideReread(rows, b);
    }

    /** Delivery is recorded on the claim it was made for and on no other; the
        claim itself stays as it is. */
    method MarkNotificationSent(id: Id, org: Text, claim: Claim, now: int)
      modifies this`rows
      ensures rows.Keys == old(rows.Keys)
      ensures forall k :: k in rows && k != id ==> rows[k] == old(rows)[k]
      ensures id in rows ==> rows[id].(notice := None) == old(rows)[id].(notice := None)
      ensures var found := id in old(rows) && old(rows)[id].orgId == org
                           && old(rows)[id].notice.Some? && old(rows)[id].notice.value.claim == claim;
              && (found ==> rows[id].notice == Some(Notice(claim, Some(now))))
              && (!found ==> rows == old(rows))
    {
      rows := MarkSent(rows, id, org, claim, now);
    }

    method MarkPublished(id: Id, org: Text, result: Json) returns (out: Outcome)
      modifies this`rows
      ensures out.Done? <==> old(id in rows && rows[id].orgId == org && rows[id].status == Approved)
      ensures !out.Done? ==> rows == old(rows)
      ensures out.NotFound? <==> old(id !in rows || rows[id].orgId != org)
      ensures !out.Done? && !out.NotFound? ==> out == Invalid(old(rows)[id].status, Published)
      ensures out.Done? ==> rows == old(rows)[id := out.row]
      ensures out.Done? ==> out.row == old(rows)[id].(status := Published, publishResult := Some(result))
    {
      var refusal := PublishRefusal(rows, id, org);
      if refusal.Some? {
        return refusal.value;
      }
      rows := PublishUpdate(rows, id, org, result);
      out := Done(Read(rows, id, org).value);
    }
  }
}
