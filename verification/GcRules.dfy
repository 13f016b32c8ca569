/**
 The calls one skill's reclaim makes, as a script: which call comes when, what ends
 it, and what is reported then. See the body of the loop of `collect` in
 `packages/llm/src/tools/anthropic-skill-gc-engine.ts`.
 */
module GcRules {
  import opened Wrappers
  import opened SkillSync
  import opened SkillGc

  /** The call at each place of a reclaim in which everything goes well. */
  function Expected(skill: string, versions: seq<string>, i: nat): Call {
    var k := 2 * |versions|;
    if i == 0 then CountLeases(skill, 0)
    else if i == 1 then OptIn(true)
    else if i == 2 then CountLeases(skill, 0)
    else if i == 3 then ListVersions(skill, Some(versions))
    else if i < 4 + k && i % 2 == 0 then OptIn(true)
    else if i < 4 + k then DeleteVersion(skill, versions[(i - 4) / 2], true)
    else if i == 4 + k then OptIn(true)
    else if i == 5 + k then CountLeases(skill, 0)
    else if i == 6 + k then DeleteSkill(skill, true)
    else DropRows(skill, true)
  }

  /** The same question, whatever the answer. */
  predicate SameQuestion(c: Call, d: Call) {
    match c
    case OptIn(_) => d.OptIn?
    case CountLeases(s, _) => d.CountLeases? && d.skill == s
    case ListVersions(s, _) => d.ListVersions? && d.skill == s
    case DeleteVersion(s, v, _) => d.DeleteVersion? && d.skill == s && d.version == v
    case DeleteSkill(s, _) => d.DeleteSkill? && d.skill == s
    case DropRows(s, _) => d.DropRows? && d.skill == s
  }

  /** The answer is the one the world gives after these calls. */
  predicate WorldSays(w: World, before: Log, c: Call) {
    match c
    case OptIn(on) => on == w.optIn(before)
    case CountLeases(s, n) => n == w.leases(before, s)
    case ListVersions(s, vs) => vs == w.versions(before, s)
    case DeleteVersion(s, v, ok) => ok == w.deletesVersion(before, s, v)
    case DeleteSkill(s, ok) => ok == w.deletesSkill(before, s)
    case DropRows(s, ok) => ok == w.dropsRows(before, s)
  }

  predicate Follows(w: World, log: Log, after: Log, skill: string, versions: seq<string>, i: nat) {
    && |log| + i < |after|
    && after[|log| + i] == Expected(skill, versions, i) && WorldSays(w, after[..|log| + i], after[|log| + i])
  }

  /** The first calls of the script, all of them answered so. */
  ghost predicate Reached(w: World, log: Log, after: Log, skill: string, versions: seq<string>, n: nat) {
    && |after| == |log| + n && log <= after
    && forall i: nat :: i < n ==> Follows(w, log, after, skill, versions, i)
  }

  /** The next call of the script got another answer, and no more calls were made. */
  ghost predicate Stopped(w: World, log: Log, after: Log, skill: string, versions: seq<string>, n: nat) {
    && |after| == |log| + n + 1
    && Reached(w, log, after[..|log| + n], skill, versions, n)
    && var last := after[|log| + n];
       SameQuestion(last, Expected(skill, versions, n)) && last != Expected(skill, versions, n)
       && WorldSays(w, after[..|log| + n], last)
  }

  /** What is reported when a call gets another answer. */
  function Verdict(n: nat, last: Call): Outcome {
    match last
    case OptIn(_) => Skipped(GlobalOff)
    case CountLeases(_, _) => Skipped(if n == 0 then ActiveLease else ActiveLeaseRecheck)
    case _ => Failed
  }

  lemma OneMore(w: World, log: Log, after: Log, skill: string, versions: seq<string>, n: nat, c: Call)
    requires Reached(w, log, after, skill, versions, n)
    requires SameQuestion(c, Expected(skill, versions, n)) && WorldSays(w, after, c)
    ensures c == Expected(skill, versions, n) ==> Reached(w, log, after + [c], skill, versions, n + 1)
    ensures c != Expected(skill, versions, n) ==> Stopped(w, log, after + [c], skill, versions, n)
  {
    var more := after + [c];
    assert more[..|log| + n] == after && more[|log| + n] == c;
    forall i: nat | i < n
      ensures Follows(w, log, more, skill, versions, i)
    {
      assert Follows(w, log, after, skill, versions, i);
      assert more[|log| + i] == after[|log| + i] && more[..|log| + i] == after[..|log| + i];
    }
  }

  /** Up to the list of versions, whatever they are, the script is the same. */
  lemma CheckedByScript(w: World, log: Log, skill: string, versions: seq<string>)
    ensures var (after, reason) := Checked(w, log, skill);
            if reason.None? then Reached(w, log, after, skill, versions, 3)
            else exists n: nat :: n < 3 && Stopped(w, log, after, skill, versions, n)
                                  && Skipped(reason.value) == Verdict(n, after[|after| - 1])
  {
    var counted := log + [CountLeases(skill, w.leases(log, skill))];
    OneMore(w, log, log, skill, versions, 0, CountLeases(skill, w.leases(log, skill)));
    if w.leases(log, skill) > 0 {
      assert Stopped(w, log, counted, skill, versions, 0);
    } else {
      var switched := counted + [OptIn(w.optIn(counted))];
      OneMore(w, log, counted, skill, versions, 1, OptIn(w.optIn(counted)));
      if !w.optIn(counted) {
        assert Stopped(w, log, switched, skill, versions, 1);
      } else {
        var count := w.leases(switched, skill);
        OneMore(w, log, switched, skill, versions, 2, CountLeases(skill, count));
        if count > 0 {
          assert Stopped(w, log, switched + [CountLeases(skill, count)], skill, versions, 2);
        }
      }
    }
  }

  /** Two calls for each version, until one gets another answer. */
  lemma {:induction false} VersionsByScript(w: World, log: Log, listed: Log, skill: string, versions: seq<string>,
          n: nat)
    requires n <= |versions| && Reached(w, log, listed, skill, versions, 4)
    ensures var (after, progress) := VersionsDeleted(w, listed, skill, versions[..n]);
            if progress == AllGone then Reached(w, log, after, skill, versions, 4 + 2 * n)
            else exists i: nat :: 4 <= i < 4 + 2 * n && Stopped(w, log, after, skill, versions, i)
                                  && (progress == SwitchedOff <==> after[|after| - 1].OptIn?)
                                  && (progress == CallFailed <==> after[|after| - 1].DeleteVersion?)
  {
    if n > 0 {
      VersionsByScript(w, log, listed, skill, versions, n - 1);
      assert versions[..n][..n - 1] == versions[..n - 1];
      var before := VersionsDeleted(w, listed, skill, versions[..n - 1]);
      if before.1 == AllGone {
        NextVersion(w, log, before.0, skill, versions, n - 1);
      }
    }
  }

  lemma NextVersion(w: World, log: Log, before: Log, skill: string, versions: seq<string>, n: nat)
    requires n < |versions| && Reached(w, log, before, skill, versions, 4 + 2 * n)
    ensures var switched := before + [OptIn(w.optIn(before))];
            var deleted := DeleteVersion(skill, versions[n], w.deletesVersion(switched, skill, versions[n]));
            if !w.optIn(before) then Stopped(w, log, switched, skill, versions, 4 + 2 * n)
            else if !deleted.ok then Stopped(w, log, switched + [deleted], skill, versions, 5 + 2 * n)
            else Reached(w, log, switched + [deleted], skill, versions, 6 + 2 * n)
  {
    var switched := before + [OptIn(w.optIn(before))];
    OneMore(w, log, before, skill, versions, 4 + 2 * n, OptIn(w.optIn(before)));
    if w.optIn(before) {
      var deleted := DeleteVersion(skill, versions[n], w.deletesVersion(switched, skill, versions[n]));
      assert Expected(skill, versions, 5 + 2 * n) == DeleteVersion(skill, versions[n], true);
      OneMore(w, log, switched, skill, versions, 5 + 2 * n, deleted);
    }
  }

  lemma SkillByScript(w: World, log: Log, before: Log, skill: string, versions: seq<string>)
    requires Reached(w, log, before, skill, versions, 4 + 2 * |versions|)
    ensures var (after, outcome), k := SkillDeleted(w, before, skill), 2 * |versions|;
            if outcome == Reclaimed then Reached(w, log, after, skill, versions, 8 + k)
            else exists n: nat :: 4 + k <= n < 8 + k && Stopped(w, log, after, skill, versions, n)
                                  && outcome == Verdict(n, after[|after| - 1])
  {
    var k := 2 * |versions|;
    var switched := before + [OptIn(w.optIn(before))];
    OneMore(w, log, before, skill, versions, 4 + k, OptIn(w.optIn(before)));
    if w.optIn(before) {
      var counted := switched + [CountLeases(skill, w.leases(switched, skill))];
      OneMore(w, log, switched, skill, versions, 5 + k, CountLeases(skill, w.leases(switched, skill)));
      if w.leases(switched, skill) == 0 {
        var deleted := counted + [DeleteSkill(skill, w.deletesSkill(counted, skill))];
        OneMore(w, log, counted, skill, versions, 6 + k, DeleteSkill(skill, w.deletesSkill(counted, skill)));
        if w.deletesSkill(counted, skill) {
          OneMore(w, log, deleted, skill, versions, 7 + k, DropRows(skill, w.dropsRows(deleted, skill)));
        }
      }
    }
  }

  lemma RemoteByScript(w: World, log: Log, checked: Log, skill: string)
    requires forall versions :: Reached(w, log, checked, skill, versions, 3)
    ensures var (after, outcome) := RemoteDeleted(w, checked, skill);
            ByScript(w, log, after, skill, outcome)
  {
    var answer := w.versions(checked, skill);
    var listed := checked + [ListVersions(skill, answer)];
    if answer.None? {
      OneMore(w, log, checked, skill, [], 3, ListVersions(skill, None));
      assert EndsAt(w, log, listed, skill, [], 3, Failed);
    } else {
      var versions := answer.value;
      OneMore(w, log, checked, skill, versions, 3, ListVersions(skill, answer));
      VersionsByScript(w, log, listed, skill, versions, |versions|);
      assert versions[..|versions|] == versions;
      var (after, progress) := VersionsDeleted(w, listed, skill, versions);
      if progress == AllGone {
        SkillByScript(w, log, after, skill, versions);
        if SkillDeleted(w, after, skill).1 != Reclaimed {
          var n: nat :| Stopped(w, log, SkillDeleted(w, after, skill).0, skill, versions, n)
                        && SkillDeleted(w, after, skill).1 == Verdict(n, Last(SkillDeleted(w, after, skill).0));
          assert EndsAt(w, log, SkillDeleted(w, after, skill).0, skill, versions, n, SkillDeleted(w, after, skill).1);
        }
      } else {
        var i: nat :| 4 <= i < 4 + 2 * |versions| && Stopped(w, log, after, skill, versions, i);
        var outcome := if progress == SwitchedOff then Skipped(GlobalOff) else Failed;
        assert EndsAt(w, log, after, skill, versions, i, outcome);
      }
    }
  }

  function Last(log: Log): Call
    requires log != []
  {
    log[|log| - 1]
  }

  /** Some call of the script was the last one, and this is its report. */
  ghost predicate EndsAt(w: World, log: Log, after: Log, skill: string, versions: seq<string>, n: nat,
          outcome: Outcome) {
    Stopped(w, log, after, skill, versions, n) && outcome == Verdict(n, Last(after))
  }

  /** The calls follow the script to its end, and then the skill is reclaimed, or to
      the first unexpected answer, which decides the report. */
  ghost predicate ByScript(w: World, log: Log, after: Log, skill: string, outcome: Outcome) {
    || (outcome == Reclaimed && exists versions :: Reached(w, log, after, skill, versions, 8 + 2 * |versions|))
    || exists versions, n: nat :: n < 8 + 2 * |versions| && EndsAt(w, log, after, skill, versions, n, outcome)
  }

  /** What one skill's turn does: nothing if its rows speak against it, and else the
      calls of the script, up to the first unexpected answer. */
  lemma HandledByScript(w: World, log: Log, skill: string, rows: seq<Row>, now: int)
    ensures var (after, outcome) := Handled(w, log, skill, rows, now);
            if Judge(rows, now).Some? then after == log && outcome == Skipped(Judge(rows, now).value)
            else ByScript(w, log, after, skill, outcome)
  {
    if Judge(rows, now).None? {
      var (checked, reason) := Checked(w, log, skill);
      if reason.None? {
        forall versions
          ensures Reached(w, log, checked, skill, versions, 3)
        {
          CheckedByScript(w, log, skill, versions);
        }
        RemoteByScript(w, log, checked, skill);
      } else {
        CheckedByScript(w, log, skill, []);
        var n: nat :| n < 3 && Stopped(w, log, checked, skill, [], n)
                      && Skipped(reason.value) == Verdict(n, checked[|checked| - 1]);
        assert EndsAt(w, log, checked, skill, [], n, Skipped(reason.value));
      }
    }
  }

  /** Why rows speak against a skill: the first of the three reasons that applies. */
  lemma JudgedExactly(rows: seq<Row>, now: int)
    ensures var live := exists i :: 0 <= i < |rows| && !rows[i].stale;
            var undated := exists i :: 0 <= i < |rows| && rows[i].staleAt.None?;
            var recent := exists i :: 0 <= i < |rows| && rows[i].staleAt.Some? &&
                                     now - rows[i].staleAt.value < 1_800_000;
            && (live <==> Judge(rows, now) == Some(NonStaleRow))
            && (!live && undated <==> Judge(rows, now) == Some(MissingStaleAt))
            && (!live && !undated && recent <==> Judge(rows, now) == Some(WithinGrace))
            && (!live && !undated && !recent <==> Judge(rows, now) == None)
  {
  }
}
