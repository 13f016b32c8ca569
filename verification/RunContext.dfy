/**
 The in-process registry of run contexts: `src/lib/agent-run-context-registry.ts`.
 A read evicts an entry it finds expired.
 */
module RunContext {
  import opened Wrappers

  type Key = string
  type Context = string

  const TTL_MS := 300_000

  datatype Entry = Entry(ctx: Context, expires: int)

  type Entries = map<Key, Entry>

  function WithSet(e: Entries, k: Key, ctx: Context, now: int): Entries { e[k := Entry(ctx, now + TTL_MS)] }

  function WithCleared(e: Entries, k: Key): Entries { e - {k} }

  function Answer(e: Entries, k: Key, now: int): Option<Context> {
    if k in e && now <= e[k].expires then Some(e[k].ctx) else None
  }

  function WithRead(e: Entries, k: Key, now: int): Entries {
    if k in e && now > e[k].expires then e - {k} else e
  }

  class Registry {
    var entries: Entries

    constructor ()
      ensures entries == map[]
    {
      entries := map[];
    }

    method SetRunContext(k: Key, ctx: Context, now: int)
      modifies this
      ensures entries == WithSet(old(entries), k, ctx, now)
      ensures forall t :: Answer(entries, k, t) == if t <= now + TTL_MS then Some(ctx) else None
      ensures forall j, t :: j != k ==> Answer(entries, j, t) == Answer(old(entries), j, t)
    {
      entries := entries[k := Entry(ctx, now + TTL_MS)];
    }

    method ClearRunContext(k: Key)
      modifies this
      ensures entries == WithCleared(old(entries), k)
    {
      entries := map j | j in entries && j != k :: entries[j];
    }

    method GetRunContext(k: Key, now: int) returns (ctx: Option<Context>)
      modifies this
      ensures ctx == Answer(old(entries), k, now)
      ensures entries == WithRead(old(entries), k, now)
    {
      if k !in entries {
        return None;
      }
      var entry := entries[k];
      if now > entry.expires {
        entries := entries - {k};
        return None;
      }
      return Some(entry.ctx);
    }
  }

  // ------------------------------------------------------------------- histories

  datatype Event =
    | Set(key: Key, ctx: Context, at: int)
    | Clear(key: Key, at: int)
    | Get(key: Key, at: int)

  function After(events: seq<Event>): Entries {
    if events == [] then map[]
    else
      var e := After(events[..|events| - 1]);
      match events[|events| - 1]
      case Set(k, ctx, at) => WithSet(e, k, ctx, at)
      case Clear(k, _) => WithCleared(e, k)
      case Get(k, at) => WithRead(e, k, at)
  }

  /** Event `i` set the key, and nothing set or cleared it since. */
  predicate IsLastSet(events: seq<Event>, k: Key, i: nat) {
    && i < |events| && events[i].Set? && events[i].key == k
    && forall j :: i < j < |events| && events[j].key == k ==> events[j].Get?
  }

  /** Where the key was last set, if it was and no clear followed. */
  function LastSetAt(events: seq<Event>, k: Key): (i: Option<nat>)
    ensures i.Some? ==> IsLastSet(events, k, i.value)
    ensures i.None? ==> forall j: nat :: !IsLastSet(events, k, j)
  {
    if events == [] then None
    else
      var n := |events| - 1;
      if events[n].key == k && events[n].Set? then Some(n)
      else if events[n].key == k && events[n].Clear? then None
      else
        var before := LastSetAt(events[..n], k);
        assert forall j: nat :: IsLastSet(events, k, j) ==> IsLastSet(events[..n], k, j);
        before
  }

  predicate FindsExpired(events: seq<Event>, k: Key, i: nat, j: nat) {
    i < j < |events| && events[j].key == k && events[j].Get? && events[j].at > events[i].at + TTL_MS
  }

  /** A read since event `i` found the entry expired, by the clock of that read. */
  ghost predicate ThrownAway(events: seq<Event>, k: Key, i: nat) {
    exists j: nat :: FindsExpired(events, k, i, j)
  }

  lemma OneMoreEvent(events: seq<Event>, last: Event, k: Key, i: nat)
    requires IsLastSet(events, k, i) && (last.key == k ==> last.Get?)
    ensures IsLastSet(events + [last], k, i)
    ensures ThrownAway(events + [last], k, i)
       <==> ThrownAway(events, k, i) || (last.key == k && last.at > events[i].at + TTL_MS)
  {
    var more := events + [last];
    if j: nat :| FindsExpired(events, k, i, j) {
      assert FindsExpired(more, k, i, j);
    }
    if j: nat :| FindsExpired(more, k, i, j) {
      assert j < |events| ==> FindsExpired(events, k, i, j);
    }
    if last.key == k && last.at > events[i].at + TTL_MS {
      assert FindsExpired(more, k, i, |events|);
    }
  }

  ghost predicate Reflects(e: Entries, events: seq<Event>, k: Key) {
    var i := LastSetAt(events, k);
    if i.Some? && !ThrownAway(events, k, i.value)
    then k in e && e[k] == Entry(events[i.value].ctx, events[i.value].at + TTL_MS)
    else k !in e
  }

  lemma SameLastSet(events: seq<Event>, k: Key, i: nat, j: nat)
    requires IsLastSet(events, k, i) && IsLastSet(events, k, j)
    ensures i == j
  {
  }

  lemma {:induction false} EntriesReflectHistory(events: seq<Event>, k: Key)
    ensures Reflects(After(events), events, k)
  {
    if events != [] {
      var n := |events| - 1;
      var init, last := events[..n], events[n];
      assert events == init + [last];
      EntriesReflectHistory(init, k);
      var i := LastSetAt(init, k);
      if last.key == k && last.Set? {
        assert forall j: nat :: !FindsExpired(events, k, n, j);
      } else if !(last.key == k && last.Clear?) && i.Some? {
        OneMoreEvent(init, last, k, i.value);
        SameLastSet(events, k, i.value, LastSetAt(events, k).value);
      }
    }
  }

  /** Whatever the clock does, a read returns the context last set for the key if
      and only if no clear followed that set, at most 300000 ms have passed since
      by the clock of this read, and no earlier read since found them passed. */
  lemma GetIsLastSet(events: seq<Event>, k: Key, now: int)
    ensures var i := LastSetAt(events, k);
            Answer(After(events), k, now)
              == if i.Some? && now - events[i.value].at <= TTL_MS && !ThrownAway(events, k, i.value)
                 then Some(events[i.value].ctx) else None
  {
    EntriesReflectHistory(events, k);
  }

  /** The clock has not gone back: nothing was stamped later than now. */
  predicate InOrder(events: seq<Event>, now: int) {
    forall i :: 0 <= i < |events| ==> events[i].at <= now
  }

  /** Then earlier reads never matter. */
  lemma GetUnderOrderedClock(events: seq<Event>, k: Key, now: int)
    requires InOrder(events, now)
    ensures var i := LastSetAt(events, k);
            Answer(After(events), k, now)
              == if i.Some? && now - events[i.value].at <= TTL_MS then Some(events[i.value].ctx) else None
  {
    GetIsLastSet(events, k, now);
    var i := LastSetAt(events, k);
    if i.Some? && ThrownAway(events, k, i.value) {
      var j: nat :| FindsExpired(events, k, i.value, j);
      assert events[j].at <= now;
    }
  }

  /** Under a clock that goes back an early read can throw away an entry that a
      later read, by its own clock, should still be given. */
  lemma ClockGoingBackLosesEntry(k: Key, ctx: Context)
    ensures var events := [Set(k, ctx, 0), Get(k, TTL_MS + 1)];
            LastSetAt(events, k) == Some(0) && Answer(After(events), k, 0) == None
  {
    var events := [Set(k, ctx, 0), Get(k, TTL_MS + 1)];
    assert IsLastSet(events, k, 0);
    SameLastSet(events, k, 0, LastSetAt(events, k).value);
    assert FindsExpired(events, k, 0, 1);
    GetIsLastSet(events, k, 0);
  }
}
