# TaskControl: a verified model of its stateful cores

TaskControl runs operational jobs through cron, records what happened, and keeps doing so when
parts of it fail.  This project models the code that carries that promise and proves what the
code keeps.  Verify it with `dafny verify dfyconfig.toml`.

## What is modelled

* **The managed-cron text engine** (`text`, `markers`, `marker_grammar`, `regions`, `region_laws`, `block`,
  `block_laws`, `crontab`, `crontab_rewrites`, `rendering`).  A text is its lines and whether the
  last one is terminated; `Texts` proves that this is neither more nor less than a string over an
  alphabet whose only line break is `\n`.  The five marker patterns are read character by
  character, and `MarkerGrammar` says what lines they match.  The region scanner is a two-state machine, and the independent description of a
  text is a list of items: loose lines, whole regions, and at most one block.  A crontab is *in
  order* (`Crontabs.InOrder`) when both scans accept it, regions and block do not overlap, and no
  slug appears twice in either.
* **Plan, apply, roll back, verify** (`names`, `host`, `convergence`, `whole_apply`, `placement`,
  `planning`, `posing`, `drift_report`, `installed`, `disk`, `manager`, `deployment`).  `Hosts` says what planning,
  applying and verifying compute on stores that do what they are told.  `Disks.Disk` is a set of
  stores of which every call may raise, take effect or not, or leave something else behind, as an
  oracle decides; `Managers.Manager` is the adapter's loops over it, with `Disks.Snapshot` as its
  capture-once record.  `Deployments` installs manifests, applies, and uninstalls.
* **Durable claims** (`claims`, `overlap_lock`).  One row per subject, changed by four atomic
  statements; processes interleave between reading the clock, reading the row and updating it.
* **Executions and the runtime** (`vocabulary`, `process_result`, `classification`, `execution`,
  `runtime`).  Domain operations are functions; `Runtimes.RuntimeService` is the service, with a
  possible failure at every save, load, clock reading, executor call and lock call.
* **Journal reconciliation** (`reconciliation`), with crashes before the commit and between the
  commit and the truncation.
* **Layered configuration** (`configuration`) and the **interval preview** (`schedules`).

## Where the code and its descriptions differ

The model follows the code.

* A plan is described as removing everything managed and not desired.  Removals look only at
  slugs, so whatever a desired slug is held as elsewhere stays (`OtherSpotsStay`).  After a
  successful apply everything managed is desired and where it should be exactly when no desired
  slug was held anywhere else before: `InPlaceWhen`.
* A comment in the adapter (manager.py:323) says that a capability can be in one shape of a
  crontab only.  Given a region first and a place in the shared block later, it is in both, and
  cron runs it twice: `ReshapedIsHeldTwice`.
* Uniqueness on a host is checked by task id and not by slug.  A crontab entry that carries a
  capability's id under another slug, as one edited or copied by hand does, lets the capability
  be planned and makes every apply roll back: `IdElsewhereRollsBack`, and `EditedEntryBlocks` on a
  host TaskControl deployed; `SucceedsWhen` gives the exact condition.
* A written file is verified by comparing what was written with what is read, so one whose
  description or command poses as a marker is accepted, and is out of order from then on exactly
  when its artefact is not clean: `AnyFileIsWritten`.  `PoserBlocksItself` deploys one with such a
  description, after which nothing can be planned.  A crontab region with such a line is refused
  by the read-back: `PosedRegionIsRefused`.
* A renewal is described as never shortening a lease.  The store commits before it compares, so
  it can: `ShorteningIsReachable` is a history that gets there, `ShorteningLetsTwoIn` turns any
  renewal that does into two live claims, and `RunsAreExclusive` shows that every run without one
  is exclusive.  The fencing token needs no such condition.
* Releasing a lock handle is described as releasing what it acquired.  With an owner used again
  it releases a later acquisition: `ReusedOwnerReleasesAnother`.
* Beginning an attempt does not consult the transition table (`LegalUnlessBegun`); that stored
  states follow it is a property of the runtime's runs.
* A run of which no call fails can still end as an infrastructure failure: a last attempt whose
  launch error is too long to be kept cannot be finished as what it was.  `Execute` says exactly
  when, and `LaunchErrorIsNotTold` is such a run.
* A failure in the middle of a run is recorded on the execution as it was before its attempts, so
  the start time is lost while the stored attempts stay.  `Execute` says exactly when a finished
  execution with attempts has no start time; the same run shows it.
* A journal entry is checked for no length, and a sentence is added to its explanation as it is
  taken in.  One that then is too long stops its whole journal for good; nothing is lost, and
  nothing is recorded: `NothingLost`, `LegalButNeverTakenIn`.

## Model

| member | source | states |
|---|---|---|
| Texts.ContentOfSplit | src/taskcontrol/adapters/schedulers/cron/rendering.py:351-405 | Splitting a text into lines and joining them gives the text back, byte for byte |
| Texts.SplitOfContent | src/taskcontrol/adapters/schedulers/cron/rendering.py:351-405 | Joining lines and splitting gives the same lines and the same termination: lines and strings carry the same information |
| Texts.ContentOfSplice | src/taskcontrol/adapters/schedulers/cron/rendering.py:372-405 | Rewriting a span of lines is, in bytes, the kept slices around the new lines |
| Markers.BeginIsRead | src/taskcontrol/adapters/schedulers/cron/rendering.py:46-49 | A written begin marker is recognised as one and gives back its slug, id and digest |
| Markers.EndIsRead | src/taskcontrol/adapters/schedulers/cron/rendering.py:50-50 | A written end marker is recognised as one and gives back its slug |
| Markers.MemberIsRead | src/taskcontrol/adapters/schedulers/cron/rendering.py:426-428 | A written member marker is recognised as one and gives back its marks, and is no region or block marker |
| MarkerGrammar.KindMeans | src/taskcontrol/adapters/schedulers/cron/rendering.py:46-50 | A line is each of the five markers, with those marks, exactly when it is made of the parts of that pattern, with space where it allows or asks for some |
| Markers.StripMeans | src/taskcontrol/adapters/schedulers/cron/manager.py:304-309 | Two texts strip to the same exactly when they agree character for character but for space at either end |
| Regions.FindManagedRegions | src/taskcontrol/adapters/schedulers/cron/rendering.py:258-326 | The one-pass loop with its open marker computes the two-state scan followed by the uniqueness check, with the same error first |
| Regions.ScanOfItems | src/taskcontrol/adapters/schedulers/cron/rendering.py:258-326 | Composition: scanning an item list in front of any rest finds its regions, then those of the rest at the shifted index |
| Regions.ScannerIsGrammar | src/taskcontrol/adapters/schedulers/cron/rendering.py:258-326 | The scanner accepts a text exactly when it is a list of loose lines and whole regions, and every such reading gives the regions it found |
| Regions.ScanFailsWhen | src/taskcontrol/adapters/schedulers/cron/rendering.py:258-326 | The scanner fails exactly where, after whole regions and loose lines, an end has nothing to close, or a begin is followed by no end, another begin or another slug's end, and with that error |
| RegionLaws.ReplaceThenFind | src/taskcontrol/adapters/schedulers/cron/rendering.py:351-380 | After replacing, the regions are those before with that slug's rewritten in its own place or appended, later ones shifted by the length difference; refused only for a repeated id |
| RegionLaws.RemoveThenFind | src/taskcontrol/adapters/schedulers/cron/rendering.py:383-405 | After removing, the regions are those before without that slug's, later ones moved up |
| RegionLaws.ReplacementsCommute | src/taskcontrol/adapters/schedulers/cron/rendering.py:351-380 | Replacing two slugs gives the same bytes in either order exactly when at least one of them is already there |
| RegionLaws.FreshReplacementsSucceed | src/taskcontrol/adapters/schedulers/cron/rendering.py:351-380 | A second replacement goes through whenever the first one's id was nobody else's |
| RegionLaws.LastWritingWins | src/taskcontrol/adapters/schedulers/cron/rendering.py:351-380 | Writing a slug twice is writing it the second time: replacing is idempotent |
| RegionLaws.RemoveUndoesAdd | src/taskcontrol/adapters/schedulers/cron/rendering.py:351-405 | Removing what was newly added gives the text back, exactly when its last line was terminated |
| Blocks.BoundsMean | src/taskcontrol/adapters/schedulers/cron/rendering.py:545-579 | The bounds found are those of the only begin marker and the last end marker after it; None exactly when no block marker stands anywhere |
| Blocks.BoundsFailWhen | src/taskcontrol/adapters/schedulers/cron/rendering.py:545-579 | The bounds are refused exactly for the first second begin or unopened end, or for a begin no end follows, and with that error |
| BlockLaws.GatherMeans | src/taskcontrol/adapters/schedulers/cron/rendering.py:477-514 | From the first identity on, the lines are the members one after another, each with the lines up to the next identity; what comes before belongs to none |
| Blocks.FindBlockBounds | src/taskcontrol/adapters/schedulers/cron/rendering.py:545-579 | The loop computes those bounds, or the first error |
| Blocks.FindBlockMembers | src/taskcontrol/adapters/schedulers/cron/rendering.py:477-514 | The collecting loop computes the members between the bounds, then the uniqueness check |
| Blocks.UpsertBlockMember | src/taskcontrol/adapters/schedulers/cron/rendering.py:582-625 | The rebuilding loop rewrites every member of the slug in place, or adds one last |
| BlockLaws.UpsertThenGather | src/taskcontrol/adapters/schedulers/cron/rendering.py:582-625 | Finding after upserting gives the old members with that slug's replaced in its position or added last; lines around the block do not move |
| BlockLaws.RemoveThenGather | src/taskcontrol/adapters/schedulers/cron/rendering.py:628-663 | Finding after removing gives the members without that slug; the block goes with its last member; lines around it do not move |
| BlockLaws.RemoveUndoesInsert | src/taskcontrol/adapters/schedulers/cron/rendering.py:582-663 | Inserting into a text with no block and removing again is the identity exactly when the text was terminated |
| Crontabs.ItemsOfCrontab | src/taskcontrol/adapters/schedulers/cron/rendering.py:258-326 | Every crontab in order is one item list that both scanners read alike, whose loose lines are its unmanaged lines |
| CrontabRewrites.RegionWritten | src/taskcontrol/adapters/schedulers/cron/rendering.py:351-380 | Writing a region updates the region map at its slug, keeps the members and every unmanaged line, and stays in order; the next scan refuses it exactly when its id is another slug's |
| CrontabRewrites.RegionRemoved | src/taskcontrol/adapters/schedulers/cron/rendering.py:383-405 | Removing a region takes its slug from the region map and keeps everything else, always |
| CrontabRewrites.MemberWritten | src/taskcontrol/adapters/schedulers/cron/rendering.py:582-625 | The same of a member of the block |
| CrontabRewrites.MemberRemoved | src/taskcontrol/adapters/schedulers/cron/rendering.py:628-663 | The same of removing a member |
| Rendering.DescriptionStaysAComment | src/taskcontrol/adapters/schedulers/cron/rendering.py:170-179 | However a description is written, it becomes at most one comment line with no line break in it |
| Rendering.DescriptionKeepsAll | src/taskcontrol/adapters/schedulers/cron/rendering.py:170-179 | The comment keeps every character of the description but its spaces; a description of spaces only leaves no line |
| Rendering.WordsOfSpaced | src/taskcontrol/adapters/schedulers/cron/rendering.py:170-179 | Splitting at spaces gives back the words that were put together with them |
| Rendering.RendersWhen | src/taskcontrol/adapters/schedulers/cron/rendering.py:182-247 | Rendering fails exactly for an entry without a schedule and for a run-parts script with one, each with its error |
| Rendering.EntryMeans | src/taskcontrol/adapters/schedulers/cron/rendering.py:182-198 | Target by target: a user crontab entry is schedule and command; a system crontab or cron.d entry names the user in between, and root where none is given |
| Rendering.RenderedRegion | src/taskcontrol/adapters/schedulers/cron/rendering.py:201-211 | A rendered crontab region is read back as one region carrying the artefact's marks exactly when no line of its body is a region marker |
| Rendering.RenderedMember | src/taskcontrol/adapters/schedulers/cron/rendering.py:456-474 | A rendered member is read back as one member carrying the artefact's marks exactly when no line of its body is an identity or a block marker |
| Rendering.RenderedFile | src/taskcontrol/adapters/schedulers/cron/rendering.py:214-255 | A rendered file holds exactly one region, marked with the artefact's slug, id and digest, exactly when no line of its body is a region marker |
| Rendering.ActsOnItsEntry | src/taskcontrol/adapters/schedulers/cron/rendering.py:182-255 | Of all lines rendered cron acts on those of the entry, which names a user exactly where the target has a user field; a run-parts script runs its command strictly and nothing else |
| Rendering.ActsOnOneEntry | src/taskcontrol/adapters/schedulers/cron/rendering.py:182-255 | An entry on one line that is no comment is the one thing cron acts on |
| Rendering.OrdinaryIsClean | src/taskcontrol/adapters/schedulers/cron/rendering.py:170-198 | A condition on description, schedule, user and command under which no rendered line poses as a marker |
| Rendering.PoserIsNotClean | src/taskcontrol/adapters/schedulers/cron/rendering.py:182-255 | A command that ends in its own end marker never renders cleanly, for any target |
| Rendering.DescriptionPoserIsNotClean | src/taskcontrol/adapters/schedulers/cron/rendering.py:170-179 | Nor does a description that reads like the end marker of its own capability |
| Convergence.TabWriteStep | src/taskcontrol/adapters/schedulers/cron/manager.py:271-309 | Applying one crontab write succeeds exactly when its id is no other slug's there, and then changes that slug's entry alone and reads back as written |
| Convergence.RemovalStep | src/taskcontrol/adapters/schedulers/cron/manager.py:311-353 | A removal always goes through on a host in order, leaves the slug managed nowhere, and changes nothing of any other slug, unmanaged line or foreign file |
| Posing.AnyFileIsWritten | src/taskcontrol/adapters/schedulers/cron/manager.py:284-308 | A file write goes through whatever its lines say, and leaves a file in order exactly when the artefact is clean |
| Posing.PosedRegionIsRefused | src/taskcontrol/adapters/schedulers/cron/manager.py:271-309 | Writing a crontab region whose body holds a region marker always fails its read-back |
| Posing.PosedFileIsUnscanned | src/taskcontrol/adapters/schedulers/cron/rendering.py:170-179 | A file of a capability so described, and otherwise ordinary, can never be scanned |
| Posing.PoserBlocksItself | src/taskcontrol/adapters/schedulers/cron/manager.py:148-309 | A cron.d capability whose description reads like its own end marker is deployed, and planning the same estate then raises |
| WholeApply.PlanParts | src/taskcontrol/adapters/schedulers/cron/manager.py:148-161 | On a host in order planning raises exactly when one of the artefacts cannot be planned |
| Hosts.PlaceMeans | src/taskcontrol/adapters/schedulers/cron/manager.py:71-89 | An artefact goes to the crontab of its target, a file to cron.d, a script to the directory of its own classification, and nowhere exactly when that store is not configured |
| Planning.PlannedMeans | src/taskcontrol/adapters/schedulers/cron/manager.py:148-200 | The entry of an artefact is at its own place, holds what is there before and what it renders to after, and creates, updates or leaves exactly as these say |
| Planning.RefusedWhen | src/taskcontrol/adapters/schedulers/cron/manager.py:487-554 | An artefact cannot be planned exactly when it does not render, has no store, or its spot holds another capability of that slug or a file nobody marked |
| Planning.RemovalsAreEntries | src/taskcontrol/adapters/schedulers/cron/manager.py:200-240 | Of a crontab's entries each one not wanted is removed once, in order, with its own id, slug and lines |
| WholeApply.RemovalsPlanned | src/taskcontrol/adapters/schedulers/cron/manager.py:200-240 | Removals are planned for undesired managed slugs only, and at least one for each |
| WholeApply.Converges | src/taskcontrol/adapters/schedulers/cron/manager.py:148-353 | After a successful apply the host is in order, planning again finds nothing to change, no undesired slug is managed, and no unmanaged line and no unmarked file was altered |
| WholeApply.SucceedsWhen | src/taskcontrol/adapters/schedulers/cron/manager.py:244-309 | A plan goes through exactly when no task id it writes to a crontab is there under another slug of that shape |
| WholeApply.IdElsewhereRollsBack | src/taskcontrol/adapters/schedulers/cron/rendering.py:335-348 | A capability whose id the crontab gives to another slug, and which has nothing there under its own, is never applied |
| WholeApply.FirstDeployment | src/taskcontrol/adapters/schedulers/cron/manager.py:148-309 | An empty host takes every estate of clean artefacts that render and have a store: it plans and applies |
| Placement.OtherSpotsStay | src/taskcontrol/adapters/schedulers/cron/manager.py:200-240 | What a desired slug is held as at any place, or in any shape of a crontab, but its own is left exactly as it was |
| Placement.InPlaceWhen | src/taskcontrol/adapters/schedulers/cron/manager.py:148-353 | After a successful apply each desired artefact is held as rendered in the crontab, directory and shape its own deployment fields ask for, and nothing else is held exactly when no desired slug was held elsewhere before |
| Placement.ReshapedIsHeldTwice | src/taskcontrol/adapters/schedulers/cron/manager.py:322-328 | A capability deployed as a region and then as a member of the same crontab ends up as both |
| Placement.EditedEntryBlocks | src/taskcontrol/adapters/schedulers/cron/rendering.py:335-348 | A host that has a deployed entry under an edited slug takes the plan and never applies it |
| Placement.OrdinaryInstances | src/taskcontrol/adapters/schedulers/cron/manager.py:148-353 | Both happen to an ordinary capability in a user's crontab |
| DriftReports.VerifyAgrees | src/taskcontrol/adapters/schedulers/cron/manager.py:379-463 | When planning does not raise, verifying finds one finding per changing entry, in plan order, at its place and with its task id |
| DriftReports.PlansWhenUnambiguous | src/taskcontrol/adapters/schedulers/cron/manager.py:379-463 | Planning raises exactly when verifying raises or reports an ambiguity |
| Planning.InspectMeans | src/taskcontrol/adapters/schedulers/cron/manager.py:379-430 | What is found of an artefact at its place: ambiguous, missing, modified or nothing, by what is held there |
| Planning.InspectRaises | src/taskcontrol/adapters/schedulers/cron/manager.py:379-400 | Verifying raises for an artefact that does not render or has no store, and reports whatever else is wrong |
| DriftReports.MatchesWhenEmpty | src/taskcontrol/ports/scheduler_management.py:111-139 | The report matches exactly when the plan is empty, and missing, modified and unexpected count as creations, updates and removals |
| Disks.Snapshot.Restore | src/taskcontrol/adapters/schedulers/cron/manager.py:624-667 | When restoring returns, every place reads as before the apply, captured or not, but for one whose restoring write returned and did something else; when it raises, the last call was a restoring write that raised |
| Managers.Manager.ComputePlan | src/taskcontrol/adapters/schedulers/cron/manager.py:148-240 | The planning loops compute the plan of what the stores hold, or raise; every write is planned at the place its deployment asks for |
| Managers.Manager.Verify | src/taskcontrol/adapters/schedulers/cron/manager.py:379-463 | The verifying loops compute the report of what the stores hold, or raise |
| Managers.Manager.ApplyWrite | src/taskcontrol/adapters/schedulers/cron/manager.py:271-309 | On any failure the snapshot still holds the state from before; a write that succeeds was read back as rendered, character for character but for space at either end |
| Managers.Manager.ApplyRemoval | src/taskcontrol/adapters/schedulers/cron/manager.py:311-353 | The same of a removal, which succeeds only if no crontab and no directory still has the slug |
| Managers.Manager.Apply | src/taskcontrol/adapters/schedulers/cron/manager.py:244-269 | Whatever fails and whatever a failing write leaves, a result that reports a rollback means every place reads as before, but for one that was put back by a call which returned and did something else; a failure without a rollback means that putting a place back raised; stores that work give exactly the specified host; through every state the host shows installed slugs only |
| InstalledSlugs.ManagedIsInstalled | src/taskcontrol/application/deployment/service.py:166-188 | A host in order that shows installed slugs only manages installed slugs only |
| InstalledSlugs.WriteShows | src/taskcontrol/adapters/schedulers/cron/manager.py:285-301 | What a write leaves shows only what was shown before and its own slug, even where the next scan refuses it |
| Deployments.DeploymentService.DesiredArtefacts | src/taskcontrol/application/deployment/service.py:71-155 | Page after page, the estate has one artefact for each active capability whose active revision is stored, in order and no other, with its id, slug and command and its revision's deployment, schedule and digest; refused exactly for a name cron would ignore |
| Deployments.DeploymentService.InstallManifests | src/taskcontrol/application/deployment/service.py:190-220 | Every active capability whose active revision is stored has its manifest installed, nobody else gets one, and no installed one is lost on the way |
| Deployments.DesiredIsPublished | src/taskcontrol/application/deployment/service.py:71-120 | Every desired slug belongs to a capability whose manifest gets installed |
| Deployments.DeploymentService.UninstallRemoved | src/taskcontrol/application/deployment/service.py:196-204 | Uninstalling what was removed takes no manifest from anything the host still shows |
| Deployments.DeploymentService.Apply | src/taskcontrol/application/deployment/service.py:166-188 | At every change of the manifest store and after every change of the host, rolled back or half rolled back included, what the host then shows to cron is among what was then installed, and everything published is installed before the host first changes; with stores that work the host is the one the plan specifies, and after success the installed slugs are the earlier and published ones but for those removed |
| Claims.ClaimStore.TryAcquire | src/taskcontrol/adapters/persistence/claim_store.py:79-149 | One acquisition from a possibly stale clock and row: who wins, the row afterwards, and that an invalid claim changes nothing |
| Claims.ClaimStore.Renew | src/taskcontrol/adapters/persistence/claim_store.py:151-192 | Refused exactly when the claim no longer holds its row or has lapsed; otherwise the row is extended, even when the renewed claim is refused, and the claim handed back is the same acquisition with the expiry now in its row |
| Claims.ClaimStore.Release | src/taskcontrol/adapters/persistence/claim_store.py:194-217 | The row is lapsed exactly when owner and token still match |
| Claims.GrantedIsGuarded | src/taskcontrol/adapters/persistence/claim_store.py:79-149 | The claim handed out says what its row now says, with the next token of its subject |
| Claims.GuardedUntilReleased | src/taskcontrol/domain/claims/claim.py:182-213 | A claim its row guards is renewed exactly while it lasts and when that extends it, into the same acquisition with the new expiry, guarded again; its release frees the subject at once |
| Claims.InvIsKept | src/taskcontrol/adapters/persistence/claim_store.py:79-217 | Every step that ends no live promise early keeps: the row counts its grants, outlasts the last while it is live, and all earlier ones are dead |
| Claims.RunsAreExclusive | src/taskcontrol/adapters/persistence/claim_store.py:55-217 | Over every interleaving of such steps no two grants of a subject are ever both unreleased and unexpired |
| Claims.ShorteningLetsTwoIn | src/taskcontrol/adapters/persistence/claim_store.py:159-192 | Any reachable renewal that ends a live promise early is followed, in four enabled steps of another process, by two live grants |
| Claims.ShorteningIsReachable | src/taskcontrol/adapters/persistence/claim_store.py:151-192 | An acquisition and a renewal for a shorter time are such a history, reachable from an empty store by harmless steps |
| Claims.TokenCountsGrants | src/taskcontrol/adapters/persistence/claim_store.py:95-149 | Over every history, whatever its renewals, a subject's stored token is the number of acquisitions ever granted on it |
| Claims.TokensOnlyGrow | src/taskcontrol/adapters/persistence/claim_store.py:116-149 | However a history goes on, no token is lowered and no grant taken back, and every later grant has a higher token |
| Claims.SupersededForever | src/taskcontrol/adapters/persistence/claim_store.py:164-217 | Once superseded, a claim can renew and release nothing, however the history goes on and whatever its renewals |
| OverlapLocks.KeysAreInjective | src/taskcontrol/adapters/locking/durable.py:155-157 | Two handles are remembered under one key only if they are equal |
| OverlapLocks.SubjectsAreInjective | src/taskcontrol/domain/claims/claim.py:69-77 | Two tasks never share a subject |
| OverlapLocks.OverlapLock.TryAcquire | src/taskcontrol/adapters/locking/durable.py:68-100 | A handle is given exactly when the claim was, and its claim is remembered |
| OverlapLocks.OverlapLock.Release | src/taskcontrol/adapters/locking/durable.py:102-114 | Releasing a handle lapses the row its last acquisition wrote, or no row; its own acquisition when owners are never reused |
| OverlapLocks.ReusedOwnerReleasesAnother | src/taskcontrol/adapters/locking/durable.py:98-114 | With an owner used twice, the first handle lapses the second claim |
| Vocabulary.OneOutcomePerReason | src/taskcontrol/domain/execution/vocabulary.py:290-304 | A reason code belongs to one outcome only |
| Vocabulary.CodeIsValid | src/taskcontrol/domain/execution/vocabulary.py:254-284 | A code made for an outcome that permits reasons is valid and matches that outcome and no other |
| Vocabulary.CodesAre | src/taskcontrol/domain/execution/vocabulary.py:348-370 | The text of each code the runtime gives |
| ProcessResults.DelayGrows | src/taskcontrol/domain/execution/results.py:278-307 | The delay before attempts starts at zero, never shrinks, and stays between base and ceiling |
| ProcessResults.BackoffMeans | src/taskcontrol/domain/execution/results.py:278-307 | Each delay by the one before: the same, the base more, or twice as long, up to the ceiling |
| Classifications.SucceedsWhen | src/taskcontrol/domain/policies/classification.py:95-201 | Success takes an undisturbed exit with an accepted code and nothing required failing or unjudged |
| Classifications.OutcomesMean | src/taskcontrol/domain/policies/classification.py:128-201 | For every outcome an if-and-only-if on how the process ended, why, with which status, and on the evidence |
| Classifications.ReasonsMean | src/taskcontrol/domain/policies/classification.py:29-60 | Which reason code each cause of an end gives, and that there is none where the process ended by itself |
| Classifications.SentencesMean | src/taskcontrol/domain/policies/classification.py:128-201 | Which sentence is told of each result, with its own status, signal, counts or launch error |
| Classifications.ReasonsFit | src/taskcontrol/domain/policies/classification.py:128-201 | A classification has a reason where one is required, and only a valid one of its own outcome |
| Classifications.RetriesWhen | src/taskcontrol/domain/policies/classification.py:238-291 | A retry follows exactly when the outcome allows it under the policy and attempts are left; otherwise which of the reasons is given |
| Executions.HistoryHolds | src/taskcontrol/domain/execution/execution.py:209-249 | Over every history of operations: outcome and finish time exactly when finished, reasons match, attempts never fewer, and a finished execution keeps its end |
| Executions.HistoryTells | src/taskcontrol/domain/execution/execution.py:314-442 | Outcome, reason, explanation and finish time are those of one finishing operation, the start time that of one begun attempt, and every attempt was given by an operation |
| Executions.AcceptedWhen | src/taskcontrol/domain/execution/execution.py:314-442 | What each operation takes of a consistent record, and the state and attempts it leaves |
| Executions.LegalUnlessBegun | src/taskcontrol/domain/execution/execution.py:314-442 | Every accepted operation keeps the state or moves it by the table, except beginning an attempt before evaluation or after a cancellation request |
| Executions.ClassifiedFinishes | src/taskcontrol/domain/execution/execution.py:402-442 | Finishing accepts the classification of every valid result, exactly when its explanation fits |
| Runtimes.SavedContinues | src/taskcontrol/adapters/persistence/repositories.py:291-320 | Saving a record that continues the stored one stores that record, its attempts neither doubled nor lost |
| Runtimes.RuntimeService.RunAttempts | src/taskcontrol/application/runtime/service.py:258-338 | Whenever it returns, the attempts are exactly those the retry policy makes of the executor's reports, each holding its own with the times of the clock around it, and outcome and sentence are the last one's; with no failing call it fails exactly when that sentence is too long or secrets are needed; whenever it raises nothing is finished |
| Runtimes.RuntimeService.RecordFailure | src/taskcontrol/application/runtime/service.py:223-247 | A known failure ends as an infrastructure failure and is returned, any other as unknown and is raised again; stored attempts stay, and no start time is left |
| Runtimes.RuntimeService.ForceTerminal | src/taskcontrol/application/runtime/service.py:454-485 | When its calls work the stored execution is finished, as unknown and with its start time; a finished one is left alone; an interrupt of its last call escapes, and nothing else does |
| Runtimes.RuntimeService.CleanUp | src/taskcontrol/application/runtime/service.py:248-256 | A held lock is released, and what nothing has finished is loaded and finished as unknown, unless a call of these fails; a finished execution is left as it is |
| Runtimes.RuntimeService.Execute | src/taskcontrol/application/runtime/service.py:188-256 | For every placement of failures: the execution is left unfinished only when the release failed, or the cleanup loaded it and one of its own calls failed; stored states follow the table and a stored outcome stays, an acquired lock is released exactly once, before the cleanup finishes anything, and a finished execution with attempts lacks a start time exactly when a failure outside them ended it; when no call fails it is refused exactly when the lock was, ends as an infrastructure failure if it needs secrets, and otherwise stores all its attempts and tells their story exactly when the last sentence fits |
| Runtimes.LaunchErrorIsNotTold | src/taskcontrol/application/runtime/service.py:188-338 | A run with the lock granted and no failing call that is stored as an infrastructure failure with its attempt and without a start time |
| Reconciliation.IngestMeans | src/taskcontrol/application/activation/reconciliation.py:95-122 | The record gains one finished execution per new id and changes none: its first entry's outcome, reason and times, no attempts, and the entry's explanation with the sentence that says where it came from; exactly when every new first entry leaves room for that sentence and has a reason of its outcome where one is required; ingested and known add up to the entries |
| Reconciliation.BuiltWhen | src/taskcontrol/application/activation/reconciliation.py:125-163 | An entry can be built exactly when its explanation leaves room for the added sentence and it has a reason of its own outcome where one is required |
| Reconciliation.ReplayIngestsNone | src/taskcontrol/application/activation/reconciliation.py:95-122 | Replaying a journal ingests none of it |
| Reconciliation.IngestInParts | src/taskcontrol/application/activation/reconciliation.py:95-122 | Taking in the beginning of a journal first changes nothing in the end |
| Reconciliation.ReconciliationService.Reconcile | src/taskcontrol/application/activation/reconciliation.py:72-122 | The loop with its counters does what the specified run does, whole or cut short, and clears the journal only after the commit |
| Reconciliation.CrashSafe | src/taskcontrol/application/activation/reconciliation.py:82-122 | Runs cut short anywhere, any number of times, and then one that completes leave each new id recorded once as first journalled, and an empty journal |
| Reconciliation.NothingLost | src/taskcontrol/application/activation/reconciliation.py:125-148 | A journal with a new entry that cannot be taken in stays as it is, and so does the record, whatever is run |
| Reconciliation.LegalButNeverTakenIn | src/taskcontrol/application/activation/reconciliation.py:151-163 | An entry whose explanation an execution may carry, and which blocks every journal it begins |
| Configuration.ByLayerSorts | src/taskcontrol/domain/configuration/profiles.py:358-358 | The ordering is an ascending permutation that keeps the given order within a layer |
| Configuration.ResolveConfiguration | src/taskcontrol/domain/configuration/profiles.py:340-413 | The nested loops over three dictionaries compute the fold over all definitions, or its first conflict |
| Configuration.ResolvesTo | src/taskcontrol/domain/configuration/profiles.py:340-413 | Resolving succeeds exactly when no key is defined twice at a layer or above a pin; each key then has its highest definition and lists all others ascending |
| Configuration.ConflictMeans | src/taskcontrol/domain/configuration/profiles.py:363-388 | A conflict names two definitions that are there: an earlier and a later one of one layer, or a pinned one and one above it |
| Configuration.OrderDoesNotMatter | src/taskcontrol/domain/configuration/profiles.py:340-413 | Every permutation of the profiles resolves or fails alike, and to the same values |
| Schedules.NextIsFirst | src/taskcontrol/domain/scheduling/schedules.py:209-225 | The next occurrence is a point of the series after the moment, and no earlier point is |
| Schedules.PreviewOccurrences | src/taskcontrol/domain/scheduling/schedules.py:142-178 | The preview is strictly increasing, holds only points after the instant, and misses none up to its last |

## Left out

- Convergence.HostInOrder: stated as a hypothesis of the whole-apply results: a file that holds a managed region holds one, named after the file, and no slug appears twice in one shape of one crontab; the code checks ids instead.
- Rendering.Clean: a hypothesis of the whole-apply results, on what a caller can read off an artefact: no line of its body is a marker its place would act on.  What a crontab write with a block edge or a marker of the other shape leaves behind is not followed further.
- Disks.Disk: a read that returns is right; stores that read back something never written are not modelled, and two configured targets never share one store.
- Deployments.DeploymentService.Apply: a write that leaves a text nobody asked for is outside its hypotheses, because then nothing can be said of what the host shows; it is inside those of the rollback.
- Claims.RunsAreExclusive: for runs whose renewals end no live promise early, as `ShorteningLetsTwoIn` shows they must not.
- Line breaks other than `\n`: the source splits lines at every break Unicode knows and joins regions with `\n`.
- Line numbers, file paths and sentences in errors, log lines and the human wording of domain errors.
- Marker ids that are not task ids: the source refuses them while planning removals.
- File modes, ownership, the executable bit restored by a rollback, and whether a target is writable.
- Removing by task id (`remove`), capabilities, and descriptions of targets.
- The diagnostic reading of a claim (`current`, `is_held`), subjects' own validity, and the `hold` context manager.
- Interruptions between two calls of the runtime, and commits that fail after taking effect.
- Starting a run: loading the task and revision, duplicate detection by idempotency key, environment values and captured output.
- Appending to the journal between reading and truncating it, and unreadable journal lines.
- Validity of single variables and profiles; secret resolution.
- Weekday schedules and cron expressions, and floating-point rounding in the interval arithmetic, which is exact here.
- SQL sessions, the `crontab` command, processes and signals, HTTP, the command line, YAML, JSON Schema and SHA-256.
