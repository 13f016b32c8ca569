# Cinatra core protocols in Dafny

A model of the parts of the Cinatra repository whose correctness is a matter of
histories rather than of single calls, with proofs of what those parts promise.
`dafny verify dfyconfig.toml` checks everything.

## What is modelled

**Hot reload of agents** (`docker/wayflow/agent_loader.py`). `Reload.dfy` says what one
reload must do to one label. `Lane.dfy` is the task that opens and closes child
lifespans. `Lifecycle.dfy` interleaves startup, the turns of the reload loops, the lane,
the deferred closes and `stop` at every await; `LifecycleInvariant.dfy`,
`LifecycleParts.dfy` and `LifecycleSteps.dfy` carry its invariant,
`LifecycleTheorems.dfy` what follows, `LifecycleAnswers.dfy` which ops are ever
answered, and `LifecycleProgress.dfy` what can always still be finished. `Discovery.dfy`
and `Backfill.dfy` walk a volume which the host may rewrite between any two file
accesses, `Registry.dfy` is the registry object with its in-place loops, and
`StartupReload.dfy` compares the labels of startup with those of reload; `WalkRules.dfy`
tells from a directory alone what both walks make of it. `Placeholders.dfy` is the
substitution of environment values into OAS text.

**Agent creation requests** (`src/lib/agent-creation-requests-store.ts`).
`CanonicalJson.dfy` is the canonical text and the snapshot hash, on top of
`JsonString.dfy`, `Json.dfy` and `TextOrder.dfy`; `TextRules.dfy` says unit by unit what
these texts look like. `CreationRequests.dfy` holds the SQL statements and the store;
`RequestRuns.dfy` and `RequestTheorems.dfy` interleave any number of deciders,
publishers, authors and notifiers.

**Skills.** `SkillResolution.dfy` and `SkillProjection.dfy` are the five-tier union and
the match projection of `src/lib/agents-store.ts`, `ReadOrder.dfy` says when the order
of the reads shows and `ResolutionRules.dfy` which ids are resolved, rule by rule, and
in which order. `SkillSync.dfy`, `SkillGrace.dfy` and `SkillGc.dfy` are the sync table,
the timed argument between leases and the grace window, and the engine that deletes
remote skills; `GcRules.dfy` is the script of calls which that engine follows.

**Smaller cores with a history.** `ActorToken.dfy` (with `Base64Url.dfy` and
`PairedText.dfy`) is the delegated actor token and `TokenRules.dfy` which headers are
accepted, `DrupalSeed.dfy` and `WordPressSeed.dfy` the fixture seeders,
`SkillLedger.dfy` the skills-used ledger, `RunContext.dfy` the expiring registry of run
contexts.

## What the code does otherwise than one would expect

Each of these is a theorem with the exact condition, or a reachable counterexample.

- One directory can make every reload raise: a loop of symbolic links, one the process
  may not look into, an OAS or marker nested beyond the recursion limit (a 100 KB file
  will do; the handlers do not catch that error), a `metadata` that is present and no
  object, or a package name with a lone surrogate, even in an unpublished draft, because
  the warning about it cannot be printed (`Discovery.ReloadAbortsExactly`). The startup
  walk and the backfill have lists of their own (`Discovery.StartupAbortsExactly`,
  `Backfill.CrashesExactly`); a version that cannot be printed stops the process after
  its marker was written.
- Startup labels come from the package name and reload labels from the disk path, so
  the first reload remounts every agent whose names differ
  (`StartupReload.FirstReloadIsIdle`).
- An op is answered exactly if no shutdown stands before it, and then in its turn
  (`LifecycleAnswers.EnterAnsweredInTurn`, `LifecycleAnswers.ExitAnsweredInTurn`). A
  reload behind one holds the registry lock for good
  (`LifecycleAnswers.ReloadAnsweredExactly`, `LifecycleAnswers.ReloadAfterStopIsStuck`),
  a deferred close waits for good (`LifecycleAnswers.CloserAnsweredExactly`,
  `LifecycleAnswers.CloserAfterStopIsStuck`).
- `_json_escape` as a function on all strings does not round-trip one with a high
  surrogate directly before a low one (`Placeholders.EscapeRoundTrip`). It is called on
  values of the environment only, and no such value has one: those all round-trip
  (`Placeholders.EnvironmentRoundTrip`).
- A `__proto__` member is in the stored snapshot and not in its hash
  (`CanonicalJson.ProtoIsNotHashed`).
- A decide call returns the row of its last read. With two processes that row may
  belong to a later cycle, and then the caller acknowledges a claim that is not its
  own (`RequestTheorems.ForeignClaim`), against the comment at lines 318-320 of
  `packages/agents/src/mcp/agent-creation-request-handlers.ts`.
- The UPDATE of an edit has no status guard; split over two processes it reopens a
  published request (`RequestTheorems.SplitEditReopensPublished`).
- Resolved skills depend on the order of the catalog exactly if it has two entries of
  one id with different visibility that can make a difference
  (`ReadOrder.OrderShowsExactly`); when the catalog cannot be read, on the order of the
  system-global list exactly if that has two different ids and there is an actor
  (`ReadOrder.FallbackShowsOrder`).
- Uploading a stale skill anew clears `stale` and keeps `stale_at`, so its next removal
  may find the grace window over at once. An upload keeps the leases of its row safe
  exactly if it does not hit a stale row (`SkillGrace.UploadIsSafeExactly`,
  `SkillGrace.RevivedRowHasOldClock`); no other row is affected
  (`SkillGrace.GraceMarginIsExact`).
- A token is accepted in the second named by `exp` (`ActorToken.AcceptedAtExpiry`).
- The Drupal seeder sets the text format of a node back with each new version, because
  the checksum that detects a user's edit does not cover it
  (`DrupalSeed.ReplacedExactly`, `DrupalSeed.FormatChangeIsLost`).
- A run context can be lost to a read whose clock was ahead
  (`RunContext.GetIsLastSet`, `RunContext.ClockGoingBackLosesEntry`).
- A permanently deleted WordPress post is made again, a trashed one is not
  (`WordPressSeed.CreatedWhenNotFound`).

## Model

| member | source | states |
|---|---|---|
| `ReloadSpec.LiveAgentLeaves` | docker/wayflow/agent_loader.py:2790-2838 | A live agent leaves its label exactly when the label is in neither discovery bucket or a replacement was mounted; a failed change and a failed parse keep the agent object. |
| `ReloadSpec.ReportPartitions` | docker/wayflow/agent_loader.py:2759-2838 | `added`, `changed` and `removed` are pairwise disjoint, and the labels after a reload are the labels before, less the removed, plus the added. |
| `Lane.ServeKeepsBalance` | docker/wayflow/agent_loader.py:2551-2606 | Serving any op keeps: stacks are distinct, and what was entered is what was closed plus what is open. |
| `Lane.DrainClosesEverything` | docker/wayflow/agent_loader.py:2552-2568 | The shutdown branch closes every open stack once, and ops queued behind it stay unserved. |
| `Lane.LifecycleLane.StartWorker` | docker/wayflow/agent_loader.py:2516-2522 | Starting twice is starting once. |
| `Lane.LifecycleLane.Dispatch` | docker/wayflow/agent_loader.py:2540-2545 | An op is queued last, or the error is raised when there is no queue. |
| `Lane.LifecycleLane.ServeNext` | docker/wayflow/agent_loader.py:2547-2606 | One turn of the worker is one step of the lane specification, or the whole shutdown. |
| `Lane.LifecycleLane.CloseRemaining` | docker/wayflow/agent_loader.py:2552-2568 | Stacks are closed in reverse insertion order, all of them. |
| `Lane.LifecycleLane.Dispose` | docker/wayflow/agent_loader.py:2524-2532 | After the shutdown was answered the queue is gone. |
| `LifecycleSteps.StepKeeps` | docker/wayflow/agent_loader.py:2483-2867 | Every interleaved step (lane, startup, reload turn, route swap, deferred close, stop) keeps the invariant of lives, stacks, queue, routes and reload progress; in it every queued op has exactly one waiting sender. |
| `LifecycleSteps.RunInv` | docker/wayflow/agent_loader.py:2483-2867 | So the invariant holds in every state of every run. |
| `LifecycleTheorems.LifespansAreConserved` | docker/wayflow/agent_loader.py:2540-2858 | Before `stop` the open stacks are, disjointly, the active agents, the replaced or removed agents awaiting close, and at most one agent just entered. |
| `LifecycleTheorems.EnteredOnceClosedOnce` | docker/wayflow/agent_loader.py:2547-2606 | In every run nothing is entered twice or closed unopened, and once the shutdown returned what was entered is exactly what was closed. |
| `LifecycleTheorems.NoDeadRoutes` | docker/wayflow/agent_loader.py:2697-2719 | From startup to `stop` every mounted route leads to an agent with an open lifespan, except startup failures before the first reload. |
| `LifecycleTheorems.RoutesAreTheTable` | docker/wayflow/agent_loader.py:2840-2844 | From the first reload on, the routes are exactly the active mounts; during a reload, those it started from. |
| `LifecycleTheorems.ReloadIsAtomic` | docker/wayflow/agent_loader.py:2744-2858 | However a reload interleaves with the lane, closers and stop, it leaves the pure per-label outcome of the table it found. |
| `LifecycleTheorems.ReloadStartsFromTheTable` | docker/wayflow/agent_loader.py:2744-2760 | The table a reload works from is the one it found when it took the lock. |
| `LifecycleTheorems.LateReloadWaitsForever` | docker/wayflow/agent_loader.py:2540-2568 | An enter still waited for after `stop` is never answered: that reload keeps the lock in every later state. |
| `LifecycleAnswers.StepKeepsAwaited` | docker/wayflow/agent_loader.py:2540-2606 | The converse of the queue invariant: every step keeps that a startup or reload waiting for an enter, and a closer waiting for an exit, has that op in the queue as long as there is one. |
| `LifecycleAnswers.RunAwaited` | docker/wayflow/agent_loader.py:2540-2606 | So no op is lost in any run. |
| `LifecycleAnswers.ReloadAnsweredExactly` | docker/wayflow/agent_loader.py:2540-2568 | In every reachable state, some interleaving answers the enter the lock holder waits for if and only if the worker runs and no shutdown stands before that enter. |
| `LifecycleAnswers.CloserAnsweredExactly` | docker/wayflow/agent_loader.py:2552-2606 | The same for the exit of a deferred close. |
| `LifecycleAnswers.AnsweredBeforeStop` | docker/wayflow/agent_loader.py:2540-2606 | Before `stop` every waiting op can be answered. |
| `LifecycleAnswers.EnterAnsweredInTurn` | docker/wayflow/agent_loader.py:2540-2606 | In every path, however the rest interleaves: an enter at place k with no shutdown before it is answered in the turn number k + 1 of the worker. |
| `LifecycleAnswers.ExitAnsweredInTurn` | docker/wayflow/agent_loader.py:2540-2606 | The same for the exit of a deferred close. |
| `LifecycleAnswers.ReloadAfterStopIsStuck` | docker/wayflow/agent_loader.py:2540-2568 | A reachable state in which a reload begun after `stop` waits for an enter that nothing can answer. |
| `LifecycleAnswers.CloserAfterStopIsStuck` | docker/wayflow/agent_loader.py:2552-2568 | A reachable state in which a deferred close that asked after `stop` waits for an exit that nothing can answer. |
| `LifecycleTheorems.LateCloserWaitsForever` | docker/wayflow/agent_loader.py:2552-2568 | An exit still queued when the shutdown ran keeps its deferred close waiting in every later state. |
| `LifecycleProgress.ReloadCanConverge` | docker/wayflow/agent_loader.py:2731-2867 | From every reachable state before `stop` with the lock free, whatever is then found on disk, some interleaving of the reload leaves exactly that: valid labels at the fingerprint on disk, by the same agent if it already had it; unusable labels with the agent they had; no other label. |
| `LifecycleProgress.ReloadCanFinish` | docker/wayflow/agent_loader.py:2731-2867 | In every reachable state before `stop` a running reload, wherever it stands, can be brought to its end. |
| `LifecycleProgress.StartupCanServeAll` | docker/wayflow/agent_loader.py:2697-2719 | From every initial state a startup can end with every agent entered and serving. |
| `LifecycleProgress.CloserCanFinish` | docker/wayflow/agent_loader.py:2646-2651 | Before `stop` every deferred close can come to the end of its list. |
| `LifecycleProgress.ShutdownCanFinish` | docker/wayflow/agent_loader.py:2524-2568 | A shutdown that was asked for can be completed, with every lifespan that was entered closed. |
| `Discovery.ReloadAbortsExactly` | docker/wayflow/agent_loader.py:2224-2383 | The reload walk raises if and only if some entry is a loop of symbolic links or has an OAS whose lookup raises, or holds an OAS that is read and is nested too deep, or is JSON with a `metadata` that is present and no object, a package name that differs from the path and cannot be printed with it, a marker whose lookup raises, that is nested too deep, or that is garbled under a path that cannot be printed, or, unsigned under a mounted label, an in-progress marker whose lookup raises; then no agent is reloaded. |
| `Discovery.StartupAbortsExactly` | docker/wayflow/agent_loader.py:1966-2069 | The startup walk raises if and only if some entry is such a loop or has such an OAS lookup, an OAS nested too deep, one it skips under a path that cannot be printed, or one that names a package with an unprintable warning, such a marker, or no signature under a label that cannot be printed. |
| `Discovery.StartupSkipsBadMetadata` | docker/wayflow/agent_loader.py:2080-2086 | A directory whose metadata is no object, which makes the reload walk raise, is only skipped by the startup walk, if its path can be printed. |
| `Discovery.ReloadWalkMembers` | docker/wayflow/agent_loader.py:2258-2383 | Which directories are valid and which are reported as failed, both directions, by the verdict on each; the verdict itself is pinned by `WalkRules.VerdictExactly`. |
| `WalkRules.VerdictExactly` | docker/wayflow/agent_loader.py:2258-2382 | The verdict of the reload walk from the directory alone: no OAS is silent; an OAS that is not contained, not readable, over a megabyte or not JSON is a failure without a hint, mounted or not; signed is mountable; unsigned is a hinted failure under a mounted label and silent otherwise. |
| `WalkRules.ReloadWalkExactly` | docker/wayflow/agent_loader.py:2258-2383 | What a walk that does not raise offers and what it reports as failed, both if and only if, over the directory, the marker and the parser alone. |
| `WalkRules.MountedIsPresent` | docker/wayflow/agent_loader.py:2306-2318 | A mounted label whose directory holds an OAS, whatever is in it, is offered or reported as failed. |
| `WalkRules.AbsentExactly` | docker/wayflow/agent_loader.py:2814-2838 | A mounted label is up for removal if and only if no directory holds an OAS for it. |
| `WalkRules.NoticesExactly` | docker/wayflow/agent_loader.py:2048-2056 | Which differing package names are warned about, at reload and at startup, when such a warning cannot be printed. |
| `Discovery.StartupWalkMembers` | docker/wayflow/agent_loader.py:2004-2069 | Which directories are mounted at startup, both directions, by the verdict on each; said without it in `WalkRules.StartupWalkExactly`. |
| `WalkRules.PackageLabelExactly` | docker/wayflow/agent_loader.py:2088-2098 | A package name gives a label if and only if it is `@vendor/slug` with a character before the first slash and one after it, and the label is `vendor/slug`. |
| `WalkRules.StartupWalkExactly` | docker/wayflow/agent_loader.py:2004-2069 | A startup walk that does not raise mounts an entry if and only if its OAS can be read, is within the limit, is named so and is signed; under that name, with the hash of its bytes. |
| `Discovery.Host.InspectMarker` | docker/wayflow/agent_loader.py:1731-1807 | A valid verdict means a marker read in this call recorded the hash; on a still disk the verdict is the marker specification. |
| `Discovery.Host.ReloadOne` | docker/wayflow/agent_loader.py:2258-2382 | One directory of the reload walk: a mountable fingerprint was signed during the call; gate hints only for mounted labels; a mounted label is silent only if its OAS was seen missing in the call, whatever the host writes. |
| `Discovery.Host.DiscoverForReload` | docker/wayflow/agent_loader.py:2224-2383 | Under arbitrary host writes between file accesses, path resolutions among them, every reported fingerprint was signed during this walk, and a mounted label that is in neither bucket was seen without an OAS in every directory of it; on a still disk the result is the walk specification, every exception included. |
| `Discovery.Host.StartupOne` | docker/wayflow/agent_loader.py:2004-2068 | One directory of the startup walk, likewise; on a still disk it is the verdict that `WalkRules.StartupWalkExactly` spells out. |
| `Discovery.Host.DiscoverAgents` | docker/wayflow/agent_loader.py:1966-2069 | The startup walk, likewise, with its exceptions; on a still disk its members are those of `WalkRules.StartupWalkExactly`. |
| `Discovery.Host.ReadForMount` | docker/wayflow/agent_loader.py:2439-2461 | What is mounted is built from bytes read now whose hash is the validated fingerprint. |
| `Backfill.Volume.BackfillMissingMarkers` | docker/wayflow/agent_loader.py:1855-1929 | The loop writes what the walk specification says and counts it, up to the directory that makes it raise, whose marker may already be written. |
| `Backfill.CrashesExactly` | docker/wayflow/agent_loader.py:1855-1929 | The backfill (and with it process start) raises if and only if some directory hides its OAS or its marker, or some unmarked one has an OAS nested too deep, metadata that is true and no object, a `package.json` that is nested too deep or whose lookup raises, a time no date can hold, or a line the log cannot print: its path when it is skipped or its marker not stored, its label or version when the marker was written where it is first met. |
| `Backfill.WritesExactly` | docker/wayflow/agent_loader.py:1880-1918 | Which directories get a marker, and with what in it, told from the directory alone. |
| `Backfill.WritingPrintsExactly` | docker/wayflow/agent_loader.py:1880-1918 | Which log line of a directory can fail to print. |
| `Backfill.WalkOnlyMarks` | docker/wayflow/agent_loader.py:1880-1918 | Nothing but missing markers is ever written, each with the hash of that directory's own bytes. |
| `Backfill.BackfilledIsPublished` | docker/wayflow/agent_loader.py:1855-1929 | Afterwards an unmarked directory is taken by the startup walk under its package name with its present bytes; a marked one keeps its marker. |
| `Backfill.SecondBackfillIsIdle` | docker/wayflow/agent_loader.py:1859-1862 | A second backfill writes nothing. |
| `StartupReload.NothingToDoIsIdentity` | docker/wayflow/agent_loader.py:2770-2838 | Having nothing to mount or remove is the same as a reload being the identity. |
| `StartupReload.AlignedStartup` | docker/wayflow/agent_loader.py:2048-2068 | Where package names are disk paths, startup and reload see the same labels and fingerprints. |
| `StartupReload.FirstReloadIsIdle` | docker/wayflow/agent_loader.py:2048-2068 | The first reload after a full startup changes nothing if and only if every mountable agent's package name is its disk path. |
| `StartupReload.SecondWalkFindsNothing` | docker/wayflow/agent_loader.py:2224-2383 | On an untouched volume, after a reload whose mounts all succeeded, the walk of the next reload (over the labels mounted then) leaves nothing to mount and nothing to remove; it raises if and only if an unsigned draft under a label now mounted has an in-progress marker whose lookup raises. |
| `StartupReload.SecondWalkSucceeds` | docker/wayflow/agent_loader.py:2224-2383 | Where no two directories share a label it never raises. |
| `Registry.LoopsAreFaithful` | docker/wayflow/agent_loader.py:2770-2838 | The in-place loops together are the per-label outcome, with exact report lists and exact list of agents to close. |
| `Registry.ReportParseFailures` | docker/wayflow/agent_loader.py:2824-2829 | One failure for each failed label, in the order the labels first failed, each with its last hint or else its kind by membership: the list exactly. |
| `Registry.ReportedExactly` | docker/wayflow/agent_loader.py:2824-2829 | A label is reported if and only if it failed, with its last hint, or else as a failure of a live agent or of one that is not mounted. |
| `Registry.ReportedInOrder` | docker/wayflow/agent_loader.py:2824-2829 | The failures stand in the order in which their labels first failed. |
| `Registry.MountedAgentRegistry.MountInitial` | docker/wayflow/agent_loader.py:3017-3035 | Startup mounts each label once, a later directory replacing an earlier one, from bytes of the validated hash; it raises if and only if some label cannot be printed; on an untouched volume with nothing failing the pending table is that of the walk. |
| `Registry.MountedAgentRegistry.EnterInitial` | docker/wayflow/agent_loader.py:2705-2719 | Exactly the pending agents whose lifespan entered become active, each with an open stack. |
| `Registry.MountedAgentRegistry.Startup` | docker/wayflow/agent_loader.py:2705-2719 | From discovery to entered lifespans: every serving agent was built from bytes whose hash a marker of its own directory, read in this pass, recorded; on an untouched volume it crashes exactly when the walk does or a label cannot be printed, and otherwise, with nothing failing, the table is that of the startup walk, which is where the first reload starts. |
| `Registry.MountedAgentRegistry.MountAndEnter` | docker/wayflow/agent_loader.py:2775-2778 | A mounted agent has the validated fingerprint, was built from bytes of that hash, and its lifespan is open; and the mount succeeds whenever the directory still holds those bytes, they build, and the lifespan enters. |
| `Registry.MountedAgentRegistry.MountLoop` | docker/wayflow/agent_loader.py:2771-2813 | The added and the changed loop, each turn by turn; on an untouched volume with nothing failing every mount tried succeeds. |
| `Registry.MountedAgentRegistry.RemoveAbsent` | docker/wayflow/agent_loader.py:2833-2838 | Exactly the labels absent from both buckets are popped. |
| `Registry.MountedAgentRegistry.RunLoops` | docker/wayflow/agent_loader.py:2770-2838 | All four loops over one walk, against the per-label outcome. |
| `Registry.MountedAgentRegistry.Reload` | docker/wayflow/agent_loader.py:2731-2867 | A whole reload: outcome, routes, reports, untouched state on an exception. A removed label was mounted, and every directory of it was seen without an OAS in this reload, whatever the host writes; on an untouched volume a mounted label is removed if and only if no directory holds an OAS for it. Every mounted agent was built from bytes whose hash a marker of its own directory, read in this reload, recorded; on an untouched volume with nothing failing every mount it had to make succeeds. |
| `Registry.MountedAgentRegistry.ReloadTwice` | docker/wayflow/agent_loader.py:2731-2867 | Two reloads in a row on an untouched volume with nothing failing: after the first every valid label serves the fingerprint on disk, and the second keeps every agent object and reports nothing added, changed, removed or to close; it raises exactly where its walk does. |
| `Registry.MountedAgentRegistry.CloseRetired` | docker/wayflow/agent_loader.py:2646-2651 | The deferred close closes exactly the lifespans of its agents. |
| `JsonString.BodyIsRead` | docker/wayflow/agent_loader.py:311-319 | A string body spelled unit by unit in any of the ways of RFC 8259 section 7 (itself, the eight short escapes, four hexadecimal digits of either case) reads back as its string, up to its closing quote. |
| `Placeholders.EscapeRoundTrip` | docker/wayflow/agent_loader.py:311-319 | For any string of Python at all, the quoted output of `_json_escape` is one complete literal, and reads back as the string if and only if no high surrogate stands directly before a low one. |
| `Placeholders.EnvironmentRoundTrip` | docker/wayflow/agent_loader.py:311-319 | Every string the environment can hold (its only surrogates are U+DC80-U+DCFF) reads back as itself. |
| `TextRules.EnvironmentExactly` | docker/wayflow/agent_loader.py:351 | Those strings are the ones whose surrogates are all escapes of bytes from 0x80 on. |
| `Placeholders.PiecesAreValid` | docker/wayflow/agent_loader.py:311-319 | The output has no bare quote, no control character and no cut escape. |
| `TextRules.PyWritesExactly` | docker/wayflow/agent_loader.py:319 | `json.dumps` writes the seven short escapes, printable ASCII as itself, and every other unit by four lower-case hexadecimal digits. |
| `Placeholders.RewriteSplits` | docker/wayflow/agent_loader.py:347-356 | A quote separates: substitution works on both sides of it independently. |
| `Placeholders.LiteralsStayClosed` | docker/wayflow/agent_loader.py:344-356 | Substituting any document, second pass included, never moves the end of a string literal. |
| `Placeholders.PlaceholderIsReplaced` | docker/wayflow/agent_loader.py:349-356 | The first environment placeholder is replaced by the escaped value, or kept if undefined. |
| `Placeholders.BaseIsReplaced` | docker/wayflow/agent_loader.py:344-347 | The first base URL placeholder is replaced by the escaped base URL. |
| `Placeholders.TemplateIsFilled` | docker/wayflow/agent_loader.py:344-356 | Both passes over a document with any number of placeholders: each becomes the escaped base URL or the escaped value, or stays if undefined; everything else is as it was. |
| `TextRules.LooseExactly` | docker/wayflow/agent_loader.py:344-356 | Its condition on the text between: no two opening braces in a row and none at the end. |
| `Placeholders.ValuesAreInserted` | docker/wayflow/agent_loader.py:344-356 | A string literal with any number of placeholders stands, after both passes, for its own text with the base URL and the values of the variables inserted exactly. |
| `TextRules.PlaceholderExactly` | docker/wayflow/agent_loader.py:356 | The pattern matches, and takes so much, if and only if the text begins with `{{NAME}}`, the name of capitals, figures and `_` and not beginning with a figure. |
| `TextRules.BasePlaceholder` | docker/wayflow/agent_loader.py:347 | The base URL placeholder is that of `CINATRA_BASE_URL`. |
| `TextRules.EscapesAreRead` | src/lib/agent-creation-requests-store.ts:91 | The reader of string literals takes hexadecimal digits of either case, the seven short escapes and the escaped slash, and no other escape. |
| `JsonString.JsRoundTrip` | src/lib/agent-creation-requests-store.ts:91 | `JSON.stringify` of a string, lone surrogates escaped, reads back as the string. |
| `TextRules.JsWritesExactly` | src/lib/agent-creation-requests-store.ts:91 | `JSON.stringify` writes the seven short escapes, other control characters and unpaired surrogates by four lower-case hexadecimal digits, and every other unit as itself. |
| `TextRules.PrintedExactly` | src/lib/agent-creation-requests-store.ts:91 | A printed value is its members or items, in order, with single commas and colons and no spaces between its brackets. |
| `Json.ValueIsRead` | src/lib/agent-creation-requests-store.ts:91 | Printing and reading a JSON value are inverse, whatever follows it. |
| `Json.PrintIsInjective` | src/lib/agent-creation-requests-store.ts:91 | Different values print differently. |
| `TextRules.NumberExactly` | src/lib/agent-creation-requests-store.ts:91 | A number is written as the grammar of section 6 of RFC 8259 says: sign, whole part without leading zero, fraction, exponent, and nothing else is a number. |
| `TextRules.InsideExactly` | src/lib/agent-creation-requests-store.ts:78-97 | The two conditions on snapshots, without recursion: every number in the value is one and no object in it has a key twice; no object in it has a `__proto__` member. |
| `CanonicalJson.WalkKeepsContent` | src/lib/agent-creation-requests-store.ts:80-90 | Walking orders the keys at every depth (array indices first, then by UTF-16 unit) and changes nothing but dropping `__proto__`. |
| `TextRules.IndexExactly` | src/lib/agent-creation-requests-store.ts:88-89 | A key is enumerated as an array index if and only if it is the decimal text of a whole number below 2^32 - 1. |
| `TextRules.KeyOrder` | src/lib/agent-creation-requests-store.ts:88-89 | Canonical keys stand by number as far as they are indices, then the others by their first differing unit. |
| `CanonicalJson.CanonicalForm` | src/lib/agent-creation-requests-store.ts:78-92 | Two values have the same canonical text if and only if they are equal up to key order once `__proto__` members are left out. |
| `CanonicalJson.HashIsContent` | src/lib/agent-creation-requests-store.ts:95-97 | With a collision-free digest, equal snapshot hashes are equal snapshots up to key order, without `__proto__` members. |
| `CanonicalJson.StrippedAlike` | src/lib/agent-creation-requests-store.ts:78-97 | Snapshots that differ only in `__proto__` members, at whatever depth, have one hash. |
| `CanonicalJson.ProtoIsNotHashed` | src/lib/agent-creation-requests-store.ts:89 | A `__proto__` member anywhere in an object, with any value, changes the snapshot and not its hash. |
| `CreationRequests.RequestStore.Create` | src/lib/agent-creation-requests-store.ts:167-204 | A new request is proposed, under the hash of its snapshot; no other row changes. |
| `CreationRequests.RequestStore.EditRejected` | src/lib/agent-creation-requests-store.ts:264-311 | Only the author, only a rejected request; the new snapshot, its hash, the new review and version go in, decider, time, reason and notification are cleared, and the rest and all other rows stay, each field said on its own. |
| `CreationRequests.RequestStore.Decide` | src/lib/agent-creation-requests-store.ts:327-388 | Uninterleaved, field by field: it is refused exactly under the stated conditions and then changes nothing; otherwise the row gets the status, the caller, `now`, the reason of a rejection (none for an approval) and a claim of its notification, and keeps every other field, as do all other rows. |
| `CreationRequests.RequestStore.MarkNotificationSent` | src/lib/agent-creation-requests-store.ts:398-426 | Only `sentAt` changes, only under the same claim, and the claim stays. |
| `CreationRequests.RequestStore.MarkPublished` | src/lib/agent-creation-requests-store.ts:430-454 | Only an approved request is published. |
| `CreationRequests.FirstReadExactly` | src/lib/agent-creation-requests-store.ts:335-347 | The first read of a decide, a publish or an edit lets it go on exactly for a row of that organization in the right status, and with the hash the decider has seen, or by its author. |
| `RequestRuns.StepKeeps` | src/lib/agent-creation-requests-store.ts:264-454 | Every step of interleaved deciders, publishers, authors and notifiers keeps: a decided row is what its cycle's one winner decided. |
| `RequestTheorems.StatusMovesAlongEdges` | src/lib/agent-creation-requests-store.ts:264-454 | Status moves only along the four edges; the proposal itself changes only when a rejected request is reopened. |
| `RequestTheorems.DecidedBySeenHash` | src/lib/agent-creation-requests-store.ts:357-378 | A proposal is decided only by an UPDATE whose expected hash is the row's hash at that moment. |
| `RequestTheorems.DecisionIsTheWinners` | src/lib/agent-creation-requests-store.ts:357-378 | In every run a decided row has the decider, the time and the reason of its cycle's one winner: the reason of a rejection, none for an approval. |
| `RequestTheorems.PublishedIsTerminal` | src/lib/agent-creation-requests-store.ts:445-448 | Nothing about a published request changes any more but the acknowledgement. |
| `RequestTheorems.OneReturnPerCycle` | src/lib/agent-creation-requests-store.ts:379-388 | Over every run at most one decide call returns normally per proposal cycle. |
| `RequestTheorems.PublishedWasApproved` | src/lib/agent-creation-requests-store.ts:327-448 | Whatever is approved or published is, up to key order, the snapshot whose hash the approving call carried. |
| `RequestTheorems.SentWasAcknowledged` | src/lib/agent-creation-requests-store.ts:409-424 | `sentAt` is on a claim only if someone acknowledged that very claim. |
| `RequestTheorems.LateNotifierIsIdle` | src/lib/agent-creation-requests-store.ts:409-424 | Given distinct stamps, an acknowledgement of a call's own claim takes effect if and only if its decision is still the current one. |
| `RequestTheorems.ReturnedClaim` | packages/agents/src/mcp/agent-creation-request-handlers.ts:313-353 | The claim a caller is handed to acknowledge is its own if and only if the request was not proposed anew before its last read. |
| `RequestTheorems.ForeignClaim` | packages/agents/src/mcp/agent-creation-request-handlers.ts:318-353 | A reachable run in which a caller is handed another decision's claim. |
| `RequestTheorems.SplitEditEdge` | src/lib/agent-creation-requests-store.ts:284-308 | The UPDATE of an edit alone keeps to the status machine if and only if the row is still rejected. |
| `RequestTheorems.SplitEditReopensPublished` | src/lib/agent-creation-requests-store.ts:284-308 | A reachable run in which an edit split across two processes takes a published request back to proposed. |
| `TextOrder.SortForgetsOrder` | src/lib/agents-store.ts:1053-1079 | Sorting by string order gives the same list for every order of the input. |
| `TextOrder.LessExactly` | src/lib/agents-store.ts:1053-1056 | A text is before another if and only if it is smaller at the first unit in which they differ, or ends there. |
| `SkillResolution.Union` | src/lib/agents-store.ts:1087-1101 | The `seen`/`result` loop keeps first occurrences. |
| `SkillResolution.DedupedIsUnion` | src/lib/agents-store.ts:1081-1101 | No repeats, the same elements, in the order of first occurrence. |
| `SkillResolution.GetAssignedSkillIds` | src/lib/agents-store.ts:897-1101 | The whole call is the resolution that `ResolutionRules` describes rule by rule, the fallback included. |
| `SkillResolution.ResolutionIsTieredUnion` | src/lib/agents-store.ts:1053-1101 | Duplicate-free, as a set the union of the five tiers, an id never after one of a later tier; what each tier holds is `ResolutionRules.TierIsRule`. |
| `ResolutionRules.CanonicalIsFirstNamed` | src/lib/agents-store.ts:980-989 | An agent id stands for the package of the first agent whose id, identifier or package it is, and for itself if there is none. |
| `ResolutionRules.AfterSlashIsLastPart` | src/lib/agents-store.ts:983-985 | The short name of an agent is what stands behind its last slash. |
| `ResolutionRules.VisibleExactly` | packages/skills/src/llm-matching/visibility.ts:75-118 | An id may be seen by an administrator, or by whoever holds the scope of its last catalog entry. |
| `ResolutionRules.TierIsRule` | src/lib/agents-store.ts:980-1081 | Each of the five tiers holds exactly the ids its rule gives, said over the reads alone. |
| `ResolutionRules.ResolvedExactly` | src/lib/agents-store.ts:895-1101 | An id is resolved, once only, if and only if it is bundled with the agent, is matched and ok and visible for the agent's package, is a system skill, is system-global for the agent, or is assigned by hand to the actor. |
| `ResolutionRules.ResolvedInOrder` | src/lib/agents-store.ts:1081-1101 | What a rule gives stands behind nothing that only weaker rules give. |
| `ResolutionRules.SortedWithinRule` | src/lib/agents-store.ts:1053-1079 | Bundled, system and system-global ids stand in the order of their texts. |
| `ResolutionRules.MatchedInOrder` | src/lib/agents-store.ts:1004-1042 | Recommended ids stand in the order of the match rows. |
| `ResolutionRules.AssignedInOrder` | src/lib/agents-store.ts:919-934 | Assigned ids stand in the order of the assignment rows. |
| `ResolutionRules.FallbackExactly` | src/lib/agents-store.ts:973-979 | Without catalog or agents: nothing without an actor, else exactly the system-global and the assigned ids, those first. |
| `SkillResolution.ResolutionForgetsReadOrder` | src/lib/agents-store.ts:1043-1101 | With unique catalog ids the result is the same for every order of the catalog and of the system-global list. |
| `ReadOrder.OrderDoesNotShow` | src/lib/agents-store.ts:1009-1101 | With repeated ids too the result is the same for every order of the catalog and the system-global list, for every actor, agent and match table, unless the catalog conflicts. |
| `ReadOrder.OrderShowsExactly` | src/lib/agents-store.ts:1009-1101 | The order of a catalog shows in some call if and only if it conflicts: two entries of one id which not the same actors may see, and if one of that id is a system skill, an entry of another id that some actor may see without one of them. |
| `ReadOrder.AgreeingEntriesDoNotConflict` | packages/skills/src/llm-matching/visibility.ts:75-118 | A catalog in which entries of one id may be seen by the same actors never conflicts. |
| `ReadOrder.FallbackShowsOrder` | src/lib/agents-store.ts:973-979 | On the fallback path (catalog or agents unreadable) another order of the system-global list gives another result if and only if there is an actor and the list has two different ids. |
| `SkillResolution.NobodySeesNoScopedSkill` | packages/skills/src/llm-matching/visibility.ts:75-118 | Without an actor no personal, team, organization, workspace or project skill is resolved. |
| `SkillResolution.ScopedOnlyToHolders` | packages/skills/src/llm-matching/visibility.ts:75-118 | A non-admin is resolved a scoped skill only as a holder of its scope, system-global and hand-assigned ids aside. |
| `SkillResolution.AssignedToOwners` | src/lib/agents-store.ts:919-934 | A skill is hand-assigned to an actor exactly by a row for the actor, a team, project or organization of the actor's, or the workspace. |
| `SkillProjection.ReadAgents` | src/lib/agents-store.ts:671-680 | The insertion-ordered map built by the two loops. |
| `SkillProjection.DatabaseWins` | src/lib/agents-store.ts:671-680 | Each package once; the last database row wins, else the first on disk. |
| `SkillProjection.MatchAgentsToSkills` | src/lib/agents-store.ts:694-768 | The projection of the matched rows and the latest evaluation among those shown; `SkillProjection.RowIsProjected` says what is shown. |
| `SkillProjection.RowIsProjected` | src/lib/agents-store.ts:739-751 | A row of an installed agent and a live skill is shown, at its place among those, with the agent's short id and its score as a whole number; any other row is not. |
| `SkillProjection.ScaledIsNearest` | src/lib/agents-store.ts:742-749 | The score shown is the whole number nearest to a hundred times the score, the larger one of two, and 0 for none. |
| `SkillProjection.LastOfIsLast` | src/lib/agents-store.ts:718-721 | Of several agents of one package the last one is meant. |
| `SkillSync.SyncTable.Upsert` | src/lib/anthropic-skill-sync-dao.ts:52-88 | The row is live with the new content; an existing row keeps its `stale_at`. |
| `SkillSync.SyncTable.MarkStale` | src/lib/anthropic-skill-sync-dao.ts:90-112 | The row is stale, with the `stale_at` it had or else now; no other row changes. |
| `SkillSync.SyncTable.MarkStaleForRemoved` | src/lib/anthropic-skill-sync-dao.ts:118-150 | Field by field: every row of the namespace whose id is not listed is stale, with the `stale_at` it had or else now, the empty list included; every other row is as it was and no key is added or lost. |
| `SkillSync.SyncTable.DeleteForSkill` | src/lib/anthropic-skill-sync-dao.ts:213-227 | No row of the namespace has that skill any more; every other row is still there, and every row there is as it was. |
| `SkillSync.BulkIsEachRemoved` | src/lib/anthropic-skill-sync-dao.ts:118-150 | The bulk mark is the single mark folded, in any order, over the rows of the namespace whose ids are not in the catalog, each named in its hypothesis. |
| `SkillSync.OtherNamespaceUntouched` | src/lib/anthropic-skill-sync-dao.ts:11-16 | No operation shows in another namespace. |
| `SkillSync.StaleAtIsFirstMark` | src/lib/anthropic-skill-sync-dao.ts:97-102 | Over every sequence of operations `stale_at` is the time of the first mark since the row was inserted. |
| `SkillGrace.LeasesExactly` | src/lib/anthropic-skill-lease-dao.ts:30-115 | A lease goes exactly by its release, or by housekeeping of its own namespace at or after its expiry, and comes exactly by being acquired, for ten minutes. |
| `SkillGrace.StepKeeps` | src/lib/anthropic-skill-lease-dao.ts:30-52 | Every step, revival included, keeps that leases are for reads and run out within gap, skew and their time after them. |
| `SkillGrace.RunKeepsRow` | src/lib/anthropic-skill-lease-dao.ts:30-52 | In every run, a row not revived since it was inserted has a clock exactly while it is stale, and none older than a read of it by more than the skew, whatever became of other rows. |
| `SkillGrace.GraceOutlivesUses` | src/lib/anthropic-skill-gc-service.ts:41-55 | A row not revived since it was inserted that ages out was last read live at least GRACE less twice the skew ago, lease or no lease. |
| `SkillGrace.GraceMarginIsExact` | src/lib/anthropic-skill-gc-service.ts:41-64 | For each row on its own, other rows revived or not: no possible run that has not revived it lets it age out under an active lease, if and only if gap + 2 * skew <= GRACE - TTL. |
| `SkillGrace.InMilliseconds` | src/lib/anthropic-skill-gc-service.ts:41-64 | In milliseconds: the grace exceeds the lease, an environment with gap + 2 * skew <= 1200000 is within the margin, and a row stale for less than 1800000 is not aged out. |
| `SkillGrace.RevivedRowHasOldClock` | packages/llm/src/tools/anthropic-skill-sync-engine.ts:275-325 | From every possible run that ends with the row live and with a `stale_at`, for every skew and gap, some continuation without revival ages it out under an active lease. |
| `SkillGrace.UploadIsSafeExactly` | packages/llm/src/tools/anthropic-skill-sync-engine.ts:275-325 | Within the margin, no continuation (without later revivals of the row) of an upload ages its row out under an active lease, if and only if the upload does not hit a stale row. |
| `SkillGc.JudgedByAge` | packages/llm/src/tools/anthropic-skill-gc-engine.ts:143-158 | A skill passes the age rules if and only if every row of it is aged out. |
| `GcRules.JudgedExactly` | packages/llm/src/tools/anthropic-skill-gc-engine.ts:143-158 | Which of the three reasons speaks against a skill, in milliseconds, each if and only if. |
| `GcRules.HandledByScript` | packages/llm/src/tools/anthropic-skill-gc-engine.ts:142-243 | For every world the calls made for one skill are those of a written script, in order, up to the first unexpected answer, which decides the outcome. |
| `SkillGc.AgeImpliesUnleased` | packages/llm/src/tools/anthropic-skill-gc-engine.ts:10-24 | Within the margin, passing the age rules already means no active lease on any row of the skill that was not revived since it was inserted, whatever became of other rows. |
| `SkillGc.Engine.DeleteVersions` | packages/llm/src/tools/anthropic-skill-gc-engine.ts:191-204 | The calls made are those of the specification for this world: the switch before each version, up to the first failure or the switch being off; otherwise all listed versions are gone. |
| `SkillGc.FailureIsLogged` | packages/llm/src/tools/anthropic-skill-gc-engine.ts:198-204 | It reports a failure only if its last call was a deletion of a listed version that failed. |
| `SkillGc.Engine.ReclaimOne` | packages/llm/src/tools/anthropic-skill-gc-engine.ts:142-243 | For every world the log and the outcome are those of the checks in the order of the code; a reclaimed skill ends with its rows dropped. |
| `SkillGc.Engine.Collect` | packages/llm/src/tools/anthropic-skill-gc-engine.ts:120-246 | Under any answers of the world, the log and the report are those of the specification; every delete stands under a switch last read as on, a lease count of zero and eligibility; rows go only after the skill; off means inert. |
| `SkillGc.EverySkillIsReported` | packages/llm/src/tools/anthropic-skill-gc-engine.ts:136-158 | Every skill of the namespace gets its outcome, in order, up to the first that finds the switch off. |
| `SkillGc.IneligibleIsSkipped` | packages/llm/src/tools/anthropic-skill-gc-engine.ts:143-158 | A skill whose rows speak against it is skipped with their reason, whatever else the world answers. |
| `SkillGc.FavourablePassReclaims` | packages/llm/src/tools/anthropic-skill-gc-engine.ts:120-246 | When the switch stays on, nothing is leased and every call works, exactly the eligible skills are reclaimed and every other one is reported with its reason. |
| `Base64Url.DecodeEncode` | src/lib/agent-run-mcp-actor-token.ts:103-109 | base64url decoding undoes encoding, and the text has only alphabet characters (section 5 of RFC 4648). |
| `TextRules.EncodedExactly` | src/lib/agent-run-mcp-actor-token.ts:103-109 | The letters of an encoded text carry the bits of the bytes, six at a time, the last one filled up with zeros. |
| `TextRules.LettersAre` | src/lib/agent-run-mcp-actor-token.ts:103-109 | And they are the 64 letters of section 5 of RFC 4648, in order. |
| `PairedText.PrintIsPaired` | src/lib/agent-run-mcp-actor-token.ts:103-105 | Printed JSON has no lone surrogate, so it survives UTF-8. |
| `ActorToken.SplitThree` | src/lib/agent-run-mcp-actor-token.ts:195-199 | Three dot-free parts are found again by `split(".")` (section 7.1 of RFC 7515). |
| `ActorToken.BearerIsRead` | src/lib/agent-run-mcp-actor-token.ts:148-152 | `Bearer <token>` gives back the token. |
| `TokenRules.BearerExactly` | src/lib/agent-run-mcp-actor-token.ts:148-152 | A header has a token if and only if it is the word `bearer` in any case, white space, and that token, with at most white space and no line end behind. |
| `TokenRules.WhiteExactly` | src/lib/agent-run-mcp-actor-token.ts:148-152 | White space is the 25 units of ECMAScript, and four of them end a line. |
| `ActorToken.TokenRoundTrip` | src/lib/agent-run-mcp-actor-token.ts:128-246 | An issued token verifies to exactly its actor if and only if audience and issuer are its own, no id is empty and the time is at most `iat + 1800`; otherwise null. |
| `ActorToken.AcceptedAtExpiry` | src/lib/agent-run-mcp-actor-token.ts:234 | Accepted in the second `exp`, refused in the next; section 4.1.4 of RFC 7519 asks for refusal on `exp`. |
| `ActorToken.VerifyIssuedInput` | src/lib/agent-run-mcp-actor-token.ts:200-245 | An issued header and payload with any signature part: the actor or null, by the signature and the claims alone. |
| `ActorToken.AcceptedWasIssued` | src/lib/agent-run-mcp-actor-token.ts:184-246 | Any accepted header belongs to a grant for this audience and issuer that has not expired, if signatures match only over issued input. |
| `TokenRules.ActorExactly` | src/lib/agent-run-mcp-actor-token.ts:206-241 | A payload names an actor if and only if it has each of the ten claims with the right value, the last one of a name counting. |
| `TokenRules.VerifiedExactly` | src/lib/agent-run-mcp-actor-token.ts:184-246 | A header is accepted for an actor if and only if it is a bearer header whose token has three non-empty parts, a header of the right algorithm and type, the signature over the first two parts and such a payload. |
| `TokenRules.IssuedInFull` | src/lib/agent-run-mcp-actor-token.ts:128-146 | An issued token is header, claims and the signature over both; the claims name the actor, the purpose, the audience and issuer, and expire after 1800 seconds. |
| `DrupalSeed.Seeder.SeedNode` | docker/drupal/seed-content.php:128-174 | The action and the new site are those that `DrupalSeed.DecidedExactly` and `DrupalSeed.SeededExactly` spell out. |
| `DrupalSeed.Seeder.Seed` | docker/drupal/seed-content.php:189-220 | The main loop: each fixture in order, and the four counts are the numbers of those actions. |
| `DrupalSeed.DecidedExactly` | docker/drupal/seed-content.php:130-165 | Case by case: an error without an id, created without provenance, otherwise left if deleted, edited or current, and replaced if not. |
| `DrupalSeed.SeededExactly` | docker/drupal/seed-content.php:112-174 | What the site is afterwards, field by field: the fixture's content in a new node, or in its own, which keeps its bundle, with the provenance of what was kept; nothing else changes, and nothing at all in the other cases. |
| `DrupalSeed.ActionsAddUp` | docker/drupal/seed-content.php:189-220 | One action for each fixture, a new node id for each that is created, and no change if none is created or replaced. |
| `DrupalSeed.ReplacedExactly` | docker/drupal/seed-content.php:158-173 | A node is replaced if and only if its five checksummed fields are those last seeded and the manifest is newer: its text format does not count. |
| `DrupalSeed.SeedingSparesUserWork` | docker/drupal/seed-content.php:158-173 | In every run a seeding changes a node only if it differs from what was last seeded there at most in its text format; none is deleted. |
| `DrupalSeed.FormatChangeIsLost` | docker/drupal/seed-content.php:112-118 | A run in which a user changes only the text format and the next version sets it back. |
| `DrupalSeed.DeletedStaysDeleted` | docker/drupal/seed-content.php:151-156 | A deleted seeded node is never made again. |
| `DrupalSeed.RevNeverDecreases` | docker/drupal/seed-content.php:162-173 | Over every run `rev` never decreases and a fixture keeps its node. |
| `DrupalSeed.RerunChangesNothing` | docker/drupal/seed-content.php:189-212 | Seeding the same manifest again changes nothing. |
| `WordPressSeed.Seeder.FindPost` | docker/wordpress/seed-content.php:57-67 | The post listed first among those with the fixture's meta, a queried type and a queried status. |
| `WordPressSeed.Seeder.MarkPost` | docker/wordpress/seed-content.php:70-81 | The three meta fields, with the checksum of the post as stored. |
| `WordPressSeed.Seeder.SeedPost` | docker/wordpress/seed-content.php:88-148 | The action and the new site are those that `WordPressSeed.DecidedExactly` and `WordPressSeed.SeededExactly` spell out. |
| `WordPressSeed.Seeder.Seed` | docker/wordpress/seed-content.php:154-177 | The main loop: each fixture in order, and the four counts are the numbers of those actions. |
| `WordPressSeed.FoundExactly` | docker/wordpress/seed-content.php:57-67 | A post is found if and only if one with the fixture's mark has a queried type and status, and it is the first of those. |
| `WordPressSeed.DecidedExactly` | docker/wordpress/seed-content.php:88-148 | Case by case what is done with a fixture, refusals to store included. |
| `WordPressSeed.SeededExactly` | docker/wordpress/seed-content.php:99-148 | What the site is afterwards, field by field: the fixture's content and mark in a new post, or in the one found, which keeps its type; nothing else changes. |
| `WordPressSeed.ActionsAddUp` | docker/wordpress/seed-content.php:154-177 | One action for each fixture, a new post id for each that is created, and no change if none is created or replaced. |
| `WordPressSeed.SeedingSparesUserWork` | docker/wordpress/seed-content.php:116-134 | Posts never seeded, in the trash, or differing from what was seeded are left as they are. |
| `WordPressSeed.ReplacedOnlyWhatWasSeeded` | docker/wordpress/seed-content.php:121-148 | In every run a post that seeding changes held exactly what was last seeded into it, and the manifest is newer. |
| `WordPressSeed.TrashedStaysTrashed` | docker/wordpress/seed-content.php:116-119 | A trashed post stays in the trash and is not made a second time. |
| `WordPressSeed.CreatedWhenNotFound` | docker/wordpress/seed-content.php:99-114 | A fixture's post is made if and only if none of its posts has a queried type and status: so again after a permanent deletion. |
| `WordPressSeed.RevNeverDecreases` | docker/wordpress/seed-content.php:131-147 | Over every run a post keeps its fixture and `rev` never decreases. |
| `WordPressSeed.RerunChangesNothing` | docker/wordpress/seed-content.php:154-177 | After an error-free run the same manifest changes nothing, if posts are stored with a queried type and status. |
| `SkillLedger.Ledger.BuildInsert` | src/lib/agent-run-skills-used.ts:45-50 | The numbered placeholders and the parameters denote exactly the rows (run, skill, kind). |
| `SkillLedger.Ledger.SnapshotSkillsAtRunStart` | src/lib/agent-run-skills-used.ts:35-63 | The multi-row insert adds each missing skill with count 0. |
| `SkillLedger.Ledger.IncrementSkillInvocation` | src/lib/agent-run-skills-used.ts:65-85 | The row is there and counts one more than before, from 0 if it was missing; its first kind stays, and so does every other row. |
| `SkillLedger.LedgerCounts` | src/lib/agent-run-skills-used.ts:35-85 | After any interleaving a row exists exactly when something named it, with the first kind named and the number of increments. |
| `SkillLedger.SnapshotIsIdempotent` | src/lib/agent-run-skills-used.ts:42-43 | Repeating a snapshot, at any later time, changes nothing. |
| `RunContext.Registry.SetRunContext` | src/lib/agent-run-context-registry.ts:26-28 | The context is given for this key up to 300000 ms later and never after, and what any other key is given at any time does not change. |
| `RunContext.Registry.ClearRunContext` | src/lib/agent-run-context-registry.ts:30-32 | The entry is gone. |
| `RunContext.Registry.GetRunContext` | src/lib/agent-run-context-registry.ts:34-42 | The live context; an expired entry is evicted. |
| `RunContext.GetIsLastSet` | src/lib/agent-run-context-registry.ts:24-42 | For all histories and whatever the clock does: a read returns the context last set if and only if no clear followed, at most 300000 ms have passed by its own clock, and no earlier read since was stamped later than that. |
| `RunContext.GetUnderOrderedClock` | src/lib/agent-run-context-registry.ts:24-42 | If nothing before the read is stamped later than the read, earlier reads never matter. |
| `RunContext.ClockGoingBackLosesEntry` | src/lib/agent-run-context-registry.ts:37-40 | Under one that goes back a read can lose an entry that a later read should still be given. |

## Left out

- LifecycleProgress.ReloadCanFinish: says that some interleaving finishes, not that a fair scheduler does; every mount and enter in it works.
- LifecycleAnswers.EnterAnsweredInTurn: that the worker goes on taking turns is the event loop's part.
- Lane.LifecycleLane.ServeNext: an exit always answers; an `aclose` that raises a `BaseException` which is no `Exception` ends the worker in the code, and what is queued then waits although no shutdown was asked for.
- LifecycleTheorems.LateCloserWaitsForever: a line of the lane or of a deferred close that the log cannot print is not in the interleaved model.
- LifecycleTheorems.LifespansAreConserved: taking an op off the lane queue and serving it is one step, and an agent object is a number that is never used again where the code uses the address of an object that it keeps referenced.
- LifecycleTheorems.RoutesAreTheTable: the routes are a set of mounts; their order and the two base routes are not in it.
- LifecycleTheorems.ReloadIsAtomic: a reload is not cancelled in the middle of an await, and the five seconds before a deferred close are any number of steps.
- Discovery.Host.DiscoverForReload: the directory listing, with where its symbolic links lead, is one observation; whether resolving an entry raises, and every file access after it, is its own.
- Discovery.ReloadAbortsExactly: the log takes any text without a lone surrogate, its own fixed texts and the texts of errors among them (those quote what they name); which other texts it takes, and how deep is too deep, are parameters. A log stream that is closed or fails is not modelled.
- Discovery.Host.ReadForMount: whether the agent loader accepts the substituted text, and what it builds from it, is a parameter.
- Backfill.Volume.BackfillMissingMarkers: of a written marker only the keys and the hash are kept; the version matters as far as it is printed.
- Registry.MountedAgentRegistry.ReloadTwice: is a client of the registry; the code has no method that reloads twice.
- Placeholders.TemplateIsFilled: the parts between placeholders have no opening brace directly before another one or before a placeholder, as in JSON text; a base URL with two opening braces in a row would be searched again in the second pass (`BasePass` has no such condition).
- Registry.MountedAgentRegistry.Reload: serves its own ops in the lane without other tasks in between; the interleaving is the matter of the Lifecycle files.
- Json.ValueIsRead: a number is the text it is written by, so two numbers are equal when `JSON.stringify` writes them alike; of a repeated key in a read object both members are kept and the last one is looked up.
- CanonicalJson.CanonicalForm: values are trees; the code refuses a value in which one object occurs twice, and drops `undefined` members, neither of which a parsed snapshot has.
- CreationRequests.RequestStore.Create: package slug and name, approver ids and the creation and update times are carried along unchanged and not in the model.
- CreationRequests.RequestStore.Decide: the database's `now()` in `decided_at` and the process's clock in `claimedAt` are one time.
- RequestRuns.StepKeeps: an edit runs in one step, as it does within one process.
- RequestTheorems.LateNotifierIsIdle: assumes that no two decisions of one request carry the same decision and millisecond.
- SkillResolution.GetAssignedSkillIds: the reads are parameters, with the orders their SQL gives them; the order of the agent list decides which of two packages with one slug is meant, as in the code.
- SkillProjection.MatchAgentsToSkills: scores are real numbers, without floating-point rounding; the projected rationale text is left out.
- SkillGrace.GraceMarginIsExact: time is the true time plus a bounded error of each clock reading, and a lease is written at most a fixed gap after its row was read.
- SkillGc.Engine.Collect: the rows are listed once, as in the code; that the namespace lock keeps syncs out meanwhile is not modelled, nor are error messages.
- ActorToken.TokenRoundTrip: UTF-8, HMAC and the reading of number literals are parameters with their laws assumed; base64url text is read by skipping characters outside the alphabet.
- DrupalSeed.SeedingSparesUserWork: runs are not interrupted, node ids are not used twice and the checksum is collision-free on the five fields it covers (text that is not valid UTF-8 is not modelled); the one-time cleanup of legacy nodes is a deletion by a user.
- WordPressSeed.Seeder.FindPost: among several posts of one fixture the listed first one depends on which posts they are and not on their content.
- SkillLedger.Ledger.SnapshotSkillsAtRunStart: PostgreSQL's limit on the number of parameters is not modelled.
- The audience and issuer derivation from URLs, the live membership check and the HTTP handlers around these stores.
- The compatibility patches of the agent loader, which depend on libraries outside the repository.
- User interface code, network clients, webhooks and stores that only wrap one statement: their members would be easy ones.
- SHA-256, PostgreSQL and the file systems themselves: functions, maps changed one statement at a time, and observations.
