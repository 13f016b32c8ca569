/**
 The effect of one hot reload, as a function of one label at a time.

 `docker/wayflow/agent_loader.py` computes a reload with four loops that edit
 the live table in place. This module says what those loops must add up to:
 `Outcome` looks at a single label and at nothing else.
 */
module ReloadSpec {
  import opened Wrappers

  /** A mounted agent. `id` is object identity: two agents for the same label
      (the previous and the replacement) have different ids. */
  datatype Agent = Agent(id: nat, name: Name, fingerprint: string)

  type Table = map<Name, Agent>

  /** What the discovery pass reports: the fingerprint of every label that may
      be mounted, and the labels that are on disk but must not be touched. */
  datatype Scan = Scan(valid: map<Name, string>, parseFailed: set<Name>)

  /** The result of building an agent and entering its lifespan, for every
      label for which the reload tried to. */
  type Attempts = map<Name, Option<Agent>>

  predicate Present(scan: Scan, name: Name) {
    name in scan.valid || name in scan.parseFailed
  }

  /** The reload mounts a label that is new, or whose bytes changed. */
  predicate NeedsMount(active: Table, scan: Scan, name: Name) {
    name in scan.valid && (name in active ==> active[name].fingerprint != scan.valid[name])
  }

  function Lookup(active: Table, name: Name): Option<Agent> {
    if name in active then Some(active[name]) else None
  }

  function Outcome(active: Table, scan: Scan, attempts: Attempts, name: Name): Option<Agent> {
    if NeedsMount(active, scan, name) && name in attempts && attempts[name].Some? then
      attempts[name]
    else if Present(scan, name) then
      Lookup(active, name)
    else
      None
  }

  function Reloaded(active: Table, scan: Scan, attempts: Attempts): Table {
    map name | name in active.Keys + scan.valid.Keys && Outcome(active, scan, attempts, name).Some?
      :: Outcome(active, scan, attempts, name).value
  }

  /** Every attempt of this reload is one the reload had to make, and what it
      built carries the fingerprint discovery validated. */
  ghost predicate Honest(active: Table, scan: Scan, attempts: Attempts) {
    forall name :: name in attempts ==>
      && NeedsMount(active, scan, name)
      && (attempts[name].Some? ==>
            attempts[name].value.name == name && attempts[name].value.fingerprint == scan.valid[name])
  }

  /** Every label that had to be mounted was attempted. */
  ghost predicate Complete(active: Table, scan: Scan, attempts: Attempts) {
    forall name :: NeedsMount(active, scan, name) ==> name in attempts
  }

  // The three report lists, as sets of labels.

  function AddedLabels(active: Table, scan: Scan, attempts: Attempts): set<Name> {
    set name | name in attempts && attempts[name].Some? && name !in active
  }

  function ChangedLabels(active: Table, scan: Scan, attempts: Attempts): set<Name> {
    set name | name in attempts && attempts[name].Some? && name in active
  }

  function RemovedLabels(active: Table, scan: Scan): set<Name> {
    set name | name in active && !Present(scan, name)
  }

  /** An agent that was serving stops serving under its label in exactly two
      ways: the name left the disk, or a replacement was mounted. In the first
      case nothing serves the name afterwards, in the second the replacement does. */
  lemma LiveAgentLeaves(active: Table, scan: Scan, attempts: Attempts, name: Name)
    requires name in active && Honest(active, scan, attempts)
    requires forall l :: l in attempts && attempts[l].Some? && l in active ==> attempts[l].value.id != active[l].id
    ensures var after := Reloaded(active, scan, attempts);
            && (name !in after <==> name in RemovedLabels(active, scan))
            && (name in after && after[name] != active[name] <==> name in ChangedLabels(active, scan, attempts))
            && (name in ChangedLabels(active, scan, attempts) ==> after[name].fingerprint == scan.valid[name])
  {
    var after := Reloaded(active, scan, attempts);
    if name in after {
      assert Outcome(active, scan, attempts, name) == Some(after[name]);
    }
  }

  /** The report lists never overlap, and together with the untouched labels
      they account for the whole table after the reload. */
  lemma ReportPartitions(active: Table, scan: Scan, attempts: Attempts)
    requires Honest(active, scan, attempts)
    ensures var a, c, r := AddedLabels(active, scan, attempts), ChangedLabels(active, scan, attempts),
        RemovedLabels(active, scan);
            && a !! c !! r
            && a !! active.Keys && c <= active.Keys && r <= active.Keys
            && Reloaded(active, scan, attempts).Keys == (active.Keys - r) + a
  {
    var after := Reloaded(active, scan, attempts);
    var a, r := AddedLabels(active, scan, attempts), RemovedLabels(active, scan);
    forall name
      ensures name in after.Keys <==> name in (active.Keys - r) + a
    {
      assert name in after <==> name in active.Keys + scan.valid.Keys && Outcome(active, scan, attempts, name).Some?;
    }
  }

  /** When every mount succeeds, the live fingerprints are those on disk. */
  lemma Converges(active: Table, scan: Scan, attempts: Attempts, name: Name)
    requires Honest(active, scan, attempts) && Complete(active, scan, attempts)
    requires forall l :: l in attempts ==> attempts[l].Some?
    requires name in scan.valid
    ensures var after := Reloaded(active, scan, attempts);
            name in after && after[name].fingerprint == scan.valid[name]
  {
    var after := Reloaded(active, scan, attempts);
    assert Outcome(active, scan, attempts, name).Some?;
    assert name in after;
  }
}
