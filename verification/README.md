# GitOps agent: a verified model

The agent keeps two copies of a Home Assistant configuration in agreement: the
live config directory and a branch of a git repository. This project models the
logic that decides what is written where, and proves what that logic promises.
It has five parts.

* **Two-way sync.** `Differ` finds what drifts, `Classifier` decides per path
  which side has moved since the commit both sides last agreed on,
  `CaptureProtocol` commits live versions onto a branch that others push to at
  the same time, and `SyncCycle` is the agent that does all this and applies the
  rest. A run (`SyncRuns`, `SyncAgreement`, `SyncNextCycle`) is any sequence of
  live edits, pushes, imports, checks, applies and roll backs; pushes also arrive
  between any two steps of a capture. `SyncDecisions` says from the record, the
  branch and the live config alone what a check, an apply and an import do, and
  `SyncHazards` holds small runs in which a merge is not what one would expect. A
  history is the sequence of the branch's trees, a commit is its position there.
* **ignore_keys.** `YamlTree`, `CoreSchema` and `IgnoreKeys` say what it means to
  compare a document without some keys and to carry those keys over from another
  one, as functions of ordered key/value trees; `EraseLaws`, `EditLaws`,
  `OverlayLaws`, `AnchorLaws`, `AgreeLaws` and `IgnoreKeysLimits` prove what comes
  of it. `ScalarLaws`, `PositionLaws`, `KeyPathLaws` and `DocumentLaws` say the
  same notions in other words: which scalars mean the same, two documents compared
  position by position, what a key path addresses and where a written key goes,
  and when a document is refused or comes out the same as another.
  `YamlNodes`, `YamlEdits` and `YamlOverlay` are the same operations on nodes that
  are changed in place, and are proved to do what the functions say.
* **Applying files.** `ConfigTree` is a small file system whose writes may start
  failing at any moment, `Applier` stashes, writes and rolls back on it, and
  `RollbackPointer` keeps track of which stash a later roll back uses.
* **Planners with ownership.** `Resources`, `Flows` and `Devices` plan what to
  create, adopt, update, remove and restore (`DeviceFields` says what a device is
  sent); `ResourceLaws`, `FlowLaws` and `DeviceLaws` execute the plans on a model
  of Home Assistant and plan again, and `ResourceOutcomes`, `FlowOutcomes` and
  `DeviceOutcomes` say what Home Assistant then holds, by what was declared, live
  and remembered.
* **Small stateful pieces.** `RunHistory` and `RunStore` (the run history file),
  `ReplayMemory` (bodies a webhook has seen) and `Exclusions` (the compiled
  exclusion list).

## What the model found

Some promises hold only under a condition, which a lemma states, exactly unless
it says otherwise here; a small document or run shows each of them failing.

* After a full cycle a conflict does not always need a change on both sides, and
  a change on one side does not always win (`AfterAFullCycleRoutes`). A file whose
  removal was captured and that is then made anew, live only, is a conflict
  (`CapturedDeletionThenRecreatedConflicts`): the agent still owns the path, and
  its base does not track it. A captured file that the agent has never applied
  itself, and that is then removed, live only, is put back
  (`UnownedDeletionIsUndone`).
* A captured path keeps the newest capture commit as its base for as long as it
  is on the captured list, even when that commit did not carry it. So a planned
  update that is still waiting when another path is captured
  (`UnappliedPlanIsCapturedBackIff`, `WaitingUpdateIsCapturedBack`), and a path
  refused because the branch changed it meanwhile (`RefusedIsAConflictIff`,
  `RefusedFileIsCapturedOver`), come out as edits of the live file at the next
  check, and are captured over the branch, exactly if the path had been captured
  before. The second contradicts the comments at
  `ha_gitops_agent/internal/recon/capture.go:461-463` and
  `ha_gitops_agent/internal/gitsync/capture.go:49-54`, which expect a conflict.
* A path that a cycle could not compare takes the applied tip as its base, unless
  it was captured before, and its old copy is then captured over an update
  (`DeferredIsCapturedIff`, `DeferredFileIsCapturedOver`).
* With a key listed before one that lies in its value, and one integer key spelled
  in two ways, an overlay loses the source's value at the outer key
  (`NestedKeysSpelledApartLoseTheValue`), which a second one writes after all
  (`NestedKeysSpelledApartSettle`). Listing inner keys first is enough for every
  key to agree and for an overlay to be idempotent, and so is spelling mapping
  keys as they are compared (`OverlayMakesKeysAgree`, `OverlayIsIdempotent`);
  neither is necessary. Exactly, overlaying again changes nothing if and only if
  every key agreed after the first time (`SettledIffAgrees`).
* With an anchor on a mapping key, whether a document is refused depends on the
  order of the key list (`AnchoredKeyDependsOnOrder`), and an overlay can turn a
  refused document into one that is not (`RefusedBeforeOnly`) or the other way
  round (`RefusedAfterOnly`). Without one it never does
  (`OverlayKeepsTheCanonicalForm`), and nothing else ever differs
  (`CanonicalIgnoresOverlay`); which anchored mapping keys do no harm is left
  open. `StripAllOkIff` says when a list of keys can be removed.
* A merge key and a quoted `"<<"` compare equal and print differently
  (`QuotedMergeKeyComparesEqual`, `SameValueIffNormalEqual`).
* The newest record of the run history is lost to a reader if failed writes pile
  up enough fragments behind it (`TailSeesNewestIff`,
  `FailedAppendsHideTheNewest`), and a rollback stops short exactly if a directory
  stands where it has to restore a file, or one that still holds something where
  nothing was (`RollbackFrom`). A plan the differ computed never meets either
  (`ComputedPlansCanBeUndone`, `PlansLeaveAClearWay`).

## Model

Source paths are below the repository's root.

| member | source | states |
|---|---|---|
| Differ.Compute | ha_gitops_agent/internal/differ/differ.go:74-120 | the plan lists every path that drifts with its kind, no other path and none twice, writes before deletes and each in the order of their paths |
| Differ.SortChanges | ha_gitops_agent/internal/differ/differ.go:36-52 | the same changes, by rank and then by path |
| Differ.DiffTrackedPaths | ha_gitops_agent/internal/differ/differ.go:126-187 | of the tracked paths, those whose live file is missing, cannot be looked at or differs, and never a path where no comparison is possible |
| Differ.NoDriftIsAgreement | ha_gitops_agent/internal/differ/differ.go:126-223 | with readable files, a tracked or owned path drifts exactly when live and branch differ; a path that is neither never drifts |
| Classifier.ClassifyIsMerge | ha_gitops_agent/internal/recon/capture.go:112-185 | on every drift the differ reports, the decision table is the three-way merge: whoever left the base wins, nobody does when both did, an unreadable file waits |
| Classifier.ResolveBases | ha_gitops_agent/internal/recon/capture.go:232-279 | the fallback base is the newer of the last applied and the last imported commit, of those the tip descends from; the capture base is the recorded one, and counts exactly if some path is captured and the tip descends from it |
| Classifier.MovedByBase | ha_gitops_agent/internal/recon/capture.go:309-351 | for each base that answers for a drifting path, the paths that differ between it and the tip; one failed comparison makes them all unknown |
| Classifier.ClassifyChanges | ha_gitops_agent/internal/recon/capture.go:309-408 | the four lists share the plan out in its order by the verdict on each path; a standing conflict stays one whatever else fails |
| Classifier.RoutedPaths | ha_gitops_agent/internal/recon/capture.go:292-408 | which changes are on which list |
| CaptureProtocol.Remote.Push | ha_gitops_agent/internal/gitsync/capture.go:225-245 | a push is taken exactly when it is built on the tip; otherwise the branch stays as it is |
| CaptureProtocol.StageDrift | ha_gitops_agent/internal/gitsync/commitback.go:192-249 | the commit holds the live version of exactly the asked paths that read, or are tracked and gone, and are neither ignored nor held back |
| CaptureProtocol.DropMovedSince | ha_gitops_agent/internal/gitsync/capture.go:173-193 | the files whose blob is the same at both commits are kept, and the others are reported |
| CaptureProtocol.CaptureFilesAt | ha_gitops_agent/internal/gitsync/capture.go:199-245 | one attempt: fetch state, stage, commit, push, with pushes by others arriving before its own |
| CaptureProtocol.CaptureFiles | ha_gitops_agent/internal/gitsync/capture.go:104-167 | the whole protocol with its retry leaves the history and reports the result that CaptureLaws reasons about |
| CaptureLaws.CaptureNeverRevertsAPush | ha_gitops_agent/internal/gitsync/capture.go:104-193 | with pushes by others at any moment, a reported commit is the tip, its parent says about each carried path what the classified commit said, it changes exactly those paths, only paths the branch changed are refused, and everyone else's commits stay |
| CaptureLaws.CommitAt | ha_gitops_agent/internal/gitsync/capture.go:199-245 | what a landed commit says about one path, and what its parent said |
| CaptureLaws.HeldBackStaysOut | ha_gitops_agent/internal/gitsync/commitback.go:192-249 | a reported commit carries, of the asked paths it did not refuse, exactly those that are not held back and read live, or are gone live and tracked by its parent; at a held back path it says what its parent says |
| CaptureLaws.RefusesAllThatMoved | ha_gitops_agent/internal/gitsync/capture.go:116-156 | a capture that reports no failure has refused every asked path the branch changed since it was classified, whether it made a commit or not; one that fails reports nothing |
| CaptureLaws.UncarriedIsUntouched | ha_gitops_agent/internal/gitsync/capture.go:199-245 | a path that was not asked for is not in the commit |
| CaptureLaws.CaptureLandsUnlessItLosesTwice | ha_gitops_agent/internal/gitsync/capture.go:104-167 | with git working, an edit of a path nobody else touches is captured if and only if one of the two pushes meets no other |
| SyncCycle.Agent.CaptureLiveChanges | ha_gitops_agent/internal/recon/capture.go:419-546 | the capture phase leaves history, record and conflicts as the transition system says, and hands on only what may be applied |
| SyncCycle.Agent.Reconcile | ha_gitops_agent/internal/recon/recon.go:1326-1494 | a check fetches, diffs, captures and publishes the plan |
| SyncCycle.Agent.DropConflicted | ha_gitops_agent/internal/recon/capture.go:641-653 | the plan without what is in conflict by now, in order |
| SyncCycle.Agent.ApplyNow | ha_gitops_agent/internal/recon/recon.go:1989-2145 | a successful apply takes the planned paths live, moves the base, corrects the manifest and the captured list; a failed one leaves the record alone |
| SyncCycle.RoutingSends | ha_gitops_agent/internal/recon/capture.go:419-546 | the lists of a classified plan are the sets the transition system speaks of |
| SyncRuns.PlannedOverIsInTheBase | ha_gitops_agent/internal/recon/capture.go:112-185 | a check plans to write over a live file only if its content is the path's blob in the base commit |
| SyncRuns.NoLiveVersionIsLost | ha_gitops_agent/internal/recon/capture.go:309-408 | over every run: live content that an apply overwrites or removes, at a path whose base was known and comparable, is the path's blob in a commit the tip descends from |
| SyncRuns.ConflictStandsIff | ha_gitops_agent/internal/recon/capture.go:333-357 | a recorded conflict survives a check if and only if capturing is on and the path drifts, and the check does not commit the path |
| SyncRuns.ConflictIsNotApplied | ha_gitops_agent/internal/recon/capture.go:641-653 | no apply writes a path that is in conflict |
| SyncRuns.ConflictsAreSticky | ha_gitops_agent/internal/recon/capture.go:496 | over every run in which the path keeps drifting it stays recorded, and neither an apply nor a capture touches it, even where comparisons fail |
| SyncRuns.PlanFitsOverRuns | ha_gitops_agent/internal/recon/recon.go:1989-2001 | at every point of every run the standing plan is about a commit of the history and removes only what the agent owns |
| SyncRuns.OwnershipStep | ha_gitops_agent/internal/recon/recon.go:2101-2138 | only a successful apply changes what the agent owns |
| SyncRuns.OwnedIsWritten | ha_gitops_agent/internal/recon/importlive.go:164-171 | the agent owns a path if and only if one of its applies wrote it and none has removed it since; captures and imports add nothing |
| SyncRuns.DeletesOnlyWhatItWrote | ha_gitops_agent/internal/differ/differ.go:98-109 | a live file that an apply removes was written by an earlier successful apply and not removed by one since |
| SyncDecisions.NothingKnownIsPlanned | ha_gitops_agent/internal/recon/capture.go:112-121 | with capturing on, a drifting path that is no standing conflict and has no usable commit to be compared with is in the published plan with its kind, and in no capture and no conflict |
| SyncDecisions.FailedComparisonPlansAll | ha_gitops_agent/internal/recon/capture.go:332-348 | a failed comparison leaves all that drifts in the plan but the standing conflicts, and captures nothing |
| SyncDecisions.WhatCannotBeCompared | ha_gitops_agent/internal/recon/capture.go:366-393 | a live file too large to compare is in no plan, no capture and no conflict; an unreadable base is a conflict; an encrypted base leaves the path in the plan |
| SyncDecisions.StandingIsParked | ha_gitops_agent/internal/recon/capture.go:353-357 | a recorded conflict that still drifts is parked, whatever its base says by now |
| SyncDecisions.DriftIs | ha_gitops_agent/internal/differ/differ.go:74-120 | the kind of a drift by what is live, what the tip tracks and what the agent owns; a live file that cannot be compared never drifts |
| SyncDecisions.FailedApplyKeepsTheRecord | ha_gitops_agent/internal/recon/recon.go:2073-2098 | after a failed apply record, plan and branch are what they were, and live differs at most at planned, touched paths that are not in conflict |
| SyncDecisions.AppliedIsLive | ha_gitops_agent/internal/recon/recon.go:1989-2059 | a planned path an apply touched says what the planned commit says, whether the apply succeeds or not |
| SyncDecisions.SuccessfulApplyMovesTheBase | ha_gitops_agent/internal/recon/recon.go:2126-2145 | a successful apply makes the planned commit the last good one and leaves nothing planned; imports and conflicts stay on record |
| SyncDecisions.BasesStayOverRuns | ha_gitops_agent/internal/recon/recon.go:2126-2145 | over every run with no successful apply, no import and no landed capture, each path keeps the base it had |
| SyncDecisions.ImportIs | ha_gitops_agent/internal/recon/importlive.go:141-229 | an import puts every readable live file that is not held back on the branch, removes nothing, leaves held back paths alone, and is on record as an agreement unless the branch said all of it already |
| SyncAgreement.AskedIsUnmoved | ha_gitops_agent/internal/recon/capture.go:112-185 | a path goes to the capture only if the branch left it as its base says |
| SyncAgreement.LandedCommit | ha_gitops_agent/internal/gitsync/capture.go:199-245 | what a landed commit says, path by path |
| SyncAgreement.CaptureReplacesOnlyTheBase | ha_gitops_agent/internal/gitsync/capture.go:104-193 | the content a capture replaces on the branch is the content of the path's base commit, pushes during the capture included |
| SyncAgreement.BaseAfter | ha_gitops_agent/internal/recon/capture.go:480-490 | the base a path has after a cycle: a capture commit for every path captured so far unless its plan was applied, else the applied tip, else what it was |
| SyncAgreement.TipIsGrounded | ha_gitops_agent/internal/recon/recon.go:2126-2145 | what the fetched tip says about a path no plan leaves over is or was live |
| SyncAgreement.CycleGrounds | ha_gitops_agent/internal/recon/capture.go:480-490 | a tidy cycle leaves every base on content that was live |
| SyncAgreement.CapturesReplaceWhatWasLive | ha_gitops_agent/internal/recon/capture.go:604-636 | over every tidy run, whatever a capture replaces on the branch was live at that path before |
| SyncNextCycle.RouteIsMerge | ha_gitops_agent/internal/recon/capture.go:309-408 | a comparable path goes where the merge of base, tip and live sends it |
| SyncNextCycle.TipAfterCheck | ha_gitops_agent/internal/gitsync/capture.go:104-167 | a path that was not captured says the same before and after a check unless somebody pushed a change to it |
| SyncNextCycle.FullCycleAgrees | ha_gitops_agent/internal/recon/capture.go:604-636 | after a check whose plan was applied, whoever pushed meanwhile, live and the base of the next cycle say the same about every captured or applied path; so does the new tip about a captured one, and about an applied one exactly if nobody pushed a change to it |
| SyncNextCycle.AfterAFullCycleRoutes | ha_gitops_agent/internal/recon/capture.go:211-261 | from then on, whatever is edited and pushed: a path is a conflict exactly if live changed and either the branch changed too or the two sides had agreed on its absence; it is captured exactly if only live changed and they had agreed on a content; it is applied exactly if live did not change, or lost a file the agent does not own |
| SyncNextCycle.TipAsBaseCaptures | ha_gitops_agent/internal/recon/capture.go:232-262 | with the tip as base every differing file counts as a live edit |
| SyncNextCycle.UnappliedPlanIsCapturedBackIff | ha_gitops_agent/internal/recon/capture.go:480-490 | an update still planned when a capture lands, on a branch that still differs, is captured back over the branch if and only if the path had been captured before |
| SyncNextCycle.RefusedIsAConflictIff | ha_gitops_agent/internal/recon/capture.go:459-490 | a refused path is a conflict at the next check if and only if it had not been captured before; otherwise it is captured over the push |
| SyncNextCycle.DeferredIsCapturedIff | ha_gitops_agent/internal/recon/recon.go:2126-2145 | a deferred path of an applied cycle is compared next with its capture commit, or else with the applied tip, and is captured if and only if it differs from that commit and the branch has not moved since |
| SyncHazards.CapturedDeletionThenRecreatedConflicts | ha_gitops_agent/internal/recon/capture.go:124-135 | a file whose removal was captured, made anew live only: a conflict |
| SyncHazards.UnownedDeletionIsUndone | ha_gitops_agent/internal/recon/capture.go:148-155 | a captured file the agent never applied, removed live only: put back |
| SyncHazards.WaitingUpdateIsCapturedBack | ha_gitops_agent/internal/recon/capture.go:480-490 | two files and three commits with which a waiting update is captured back |
| SyncHazards.RefusedFileIsCapturedOver | ha_gitops_agent/internal/gitsync/capture.go:49-54 | two files and one push with which the refused file is captured over that push |
| SyncHazards.DeferredFileIsCapturedOver | ha_gitops_agent/internal/recon/recon.go:2126-2145 | two files and two commits with which a file nobody edited live is captured over an update |
| EraseLaws.EraseTwice | ha_gitops_agent/internal/ignorekeys/ignorekeys.go:175-186 | erasing one set of keys after another erases their union, so order and repetition do not matter |
| EraseLaws.StripIsErase | ha_gitops_agent/internal/ignorekeys/ignorekeys.go:413-447 | on an unambiguous path the removal with pruning is the declarative erasure, mappings emptied or null on the path included |
| EraseLaws.StripAllIsErase | ha_gitops_agent/internal/ignorekeys/ignorekeys.go:175-186 | removing a list of keys one by one, each from what the ones before left, is one erasure of their set from the original |
| EraseLaws.StripAllIgnoresOrder | ha_gitops_agent/internal/ignorekeys/ignorekeys.go:175-186 | two lists of the same keys, in any order and with any repetition, remove to the same tree |
| EraseLaws.EraseKeepsUnambiguous | ha_gitops_agent/internal/ignorekeys/ignorekeys.go:341-385 | what is unambiguous stays so under an erasure |
| KeyPathLaws.LookupAfterErase | ha_gitops_agent/internal/ignorekeys/ignorekeys.go:413-447 | at an erased path and below one nothing is found, and at a path apart from all of them what was there |
| KeyPathLaws.EraseKeepsOrder | ha_gitops_agent/internal/ignorekeys/ignorekeys.go:413-447 | entries no erased path starts at are kept in their order, whatever their keys are |
| EditLaws.StripFailsIff | ha_gitops_agent/internal/ignorekeys/ignorekeys.go:413-447 | a removal is refused if and only if the value holds an anchor |
| EditLaws.StripRefusesAnchors | ha_gitops_agent/internal/ignorekeys/ignorekeys.go:413-447 | an anchor is the only reason for a removal to be refused |
| EditLaws.StripAllOkIff | ha_gitops_agent/internal/ignorekeys/ignorekeys.go:175-186 | a list of keys can be removed if and only if what the earlier keys left of each value is free of anchors |
| EditLaws.SetEffect | ha_gitops_agent/internal/ignorekeys/ignorekeys.go:454-490 | a write changes the value found at its first segment, to one written at the rest of the path, and no other |
| KeyPathLaws.SetKeepsOrder | ha_gitops_agent/internal/ignorekeys/ignorekeys.go:454-490 | a write leaves every other entry and their order alone; the key stays where it was first and a new one comes last |
| EditLaws.StripEffect | ha_gitops_agent/internal/ignorekeys/ignorekeys.go:413-447 | a removal changes the value found at its first segment and no other |
| KeyPathLaws.StripKeepsOrder | ha_gitops_agent/internal/ignorekeys/ignorekeys.go:413-447 | a removal leaves every other entry and their order alone |
| CoreSchema.CoreIntOfDecimal | ha_gitops_agent/internal/ignorekeys/ignorekeys.go:604-624 | the decimal spelling a comparison uses reads back as the same integer, for every integer |
| ScalarLaws.IntegerIsItsDigits | ha_gitops_agent/internal/ignorekeys/ignorekeys.go:556-624 | a text reads as an integer exactly when it is a sign, the prefix of a base and digits of that base with underscores, not first in base ten and never last, and the number is the positional sum of its digits |
| ScalarLaws.PlainScalarsCompare | ha_gitops_agent/internal/ignorekeys/ignorekeys.go:568-649 | two plain scalars compare equal exactly when both spell null, or the same boolean, or one integer, or one float, or are the same other text with one tag |
| ScalarLaws.OneMeaning | ha_gitops_agent/internal/ignorekeys/ignorekeys.go:568-649 | no scalar means two of these at once |
| ScalarLaws.BooleansCompare | ha_gitops_agent/internal/ignorekeys/ignorekeys.go:568-576 | the spellings of true, of false and of null each compare equal to one another and to nothing else |
| ScalarLaws.QuotedTextIsText | ha_gitops_agent/internal/ignorekeys/ignorekeys.go:626-649 | a quoted text equals no null, boolean or number, and a plain scalar only where that is the same text |
| ScalarLaws.KeysCompare | ha_gitops_agent/internal/ignorekeys/ignorekeys.go:651-660 | a scalar key is named by what it means where that is null, a boolean or a number, and else by its text |
| CoreSchema.Schema.SameValueReflexive | ha_gitops_agent/internal/ignorekeys/ignorekeys.go:515-548 | every tree holds the same data as itself |
| PositionLaws.SameByPosition | ha_gitops_agent/internal/ignorekeys/ignorekeys.go:515-548 | two documents hold the same data exactly when at every position both have a node or neither has, and the nodes are of one kind with one value, or under keys of one name |
| PositionLaws.AnchoredByPosition | ha_gitops_agent/internal/ignorekeys/ignorekeys.go:505-510 | a value holds an anchor exactly when the node at some position in it, a mapping key included, carries one or is an alias |
| KeyPathLaws.AddressableIff | ha_gitops_agent/internal/ignorekeys/ignorekeys.go:341-385 | a key can be addressed exactly when in every mapping on its path nothing is merged in and its segment is no key twice, and no node on the way short of the last is an alias or anchored |
| CoreSchema.Schema.SameValueIffNormalEqual | ha_gitops_agent/internal/ignorekeys/ignorekeys.go:515-685 | for all unanchored values: two that compare equal have one normal form if and only if merge keys stand at the same places, and two of one normal form compare equal if and only if their merge keys read the same |
| IgnoreKeys.RunCanonical | ha_gitops_agent/internal/ignorekeys/ignorekeys.go:167-190 | checking every key first and removing one after the other is Canonical, errors included |
| DocumentLaws.CanonicalRefusesIff | ha_gitops_agent/internal/ignorekeys/ignorekeys.go:167-190 | a document without anchors is refused exactly when one of the keys cannot be addressed in it |
| DocumentLaws.CanonicalEqualIff | ha_gitops_agent/internal/ignorekeys/ignorekeys.go:154-204 | two documents have one canonical form exactly when both are empty, or both hold the same data, merge keys at the same places, once what the keys name is taken out |
| IgnoreKeys.RunOverlay | ha_gitops_agent/internal/ignorekeys/ignorekeys.go:223-280 | the loop with its changed flag is Overlay, with the error of the side and key that fails first |
| DocumentLaws.OverlayRefusals | ha_gitops_agent/internal/ignorekeys/ignorekeys.go:223-280 | an overlay is refused with the side at fault: over the first key that one side cannot address, the target before the source, and past that only over a value that holds an anchor |
| IgnoreKeys.UnchangedIsSame | ha_gitops_agent/internal/ignorekeys/ignorekeys.go:271-273 | an overlay that reports no change left the target as it was |
| OverlayLaws.OverlayIsInvisible | ha_gitops_agent/internal/ignorekeys/ignorekeys.go:246-280 | whatever an overlay creates, fills in, replaces, removes or empties is gone once its keys are erased |
| OverlayLaws.NoMergeOnThePath | ha_gitops_agent/internal/ignorekeys/ignorekeys.go:341-385 | no value is found through a merge key, so an overlay never writes one |
| OverlayLaws.CanonicalIgnoresOverlay | ha_gitops_agent/internal/ignorekeys/ignorekeys.go:223-280 | for every key list, target and source: the result of an overlay has the canonical form of its target if and only if both have one or neither has; both have one if no ignored value of the target holds an anchor |
| AnchorLaws.HeldIsRefused | ha_gitops_agent/internal/ignorekeys/ignorekeys.go:413-447 | with no anchor on a mapping key, an ignored value that holds one is refused wherever its key is in the list |
| AnchorLaws.OverlayKeepsTheCanonicalForm | ha_gitops_agent/internal/ignorekeys/ignorekeys.go:223-280 | for every target with no anchor on a mapping key, and every source: an overlay leaves the canonical form or the refusal as it was, and the target is refused if and only if an ignored value holds an anchor |
| AgreeLaws.SetFailsIffBlocked | ha_gitops_agent/internal/ignorekeys/ignorekeys.go:454-490 | a write is refused if and only if a step of the path is a list, a scalar, an alias or an anchored null |
| AgreeLaws.LookupAfterSet | ha_gitops_agent/internal/ignorekeys/ignorekeys.go:390-490 | what was written is found |
| AgreeLaws.LookupAfterStrip | ha_gitops_agent/internal/ignorekeys/ignorekeys.go:390-447 | what was removed is not |
| AgreeLaws.EnclosingAgreement | ha_gitops_agent/internal/ignorekeys/ignorekeys.go:246-273 | with keys spelled as compared, an enclosing key that agrees leaves nothing to do further in |
| AgreeLaws.OverlayMakesKeysAgree | ha_gitops_agent/internal/ignorekeys/ignorekeys.go:246-280 | after an overlay each key holds the source's value, or is absent on both sides, or is blocked in the target; for nested keys, the inner one is listed first or mapping keys are spelled as compared |
| AgreeLaws.OverlayIsIdempotent | ha_gitops_agent/internal/ignorekeys/ignorekeys.go:246-280 | under the same condition, overlaying the same source again returns its input |
| AgreeLaws.SettledIffAgrees | ha_gitops_agent/internal/ignorekeys/ignorekeys.go:246-280 | for every key list, target and source: overlaying again changes nothing if and only if every key agrees after the first time |
| AgreeLaws.OverlaidWithItself | ha_gitops_agent/internal/ignorekeys/ignorekeys.go:246-273 | a document overlaid with itself is unchanged for every key list whose values hold no anchor |
| IgnoreKeysLimits.NestedKeysSpelledApartLoseTheValue | ha_gitops_agent/internal/ignorekeys/ignorekeys.go:202-273 | two documents of which the overlay loses the value the source has at an ignored key |
| IgnoreKeysLimits.NestedKeysSpelledApartSettle | ha_gitops_agent/internal/ignorekeys/ignorekeys.go:246-273 | a second overlay of that source writes the value after all and a third changes nothing; with the first result as its source the value stays lost |
| IgnoreKeysLimits.AnchoredKeyDependsOnOrder | ha_gitops_agent/internal/ignorekeys/ignorekeys.go:505-510 | why anchored mapping keys are refused in one order of the list and accepted in another |
| IgnoreKeysLimits.RefusedBeforeOnly | ha_gitops_agent/internal/ignorekeys/ignorekeys.go:167-190 | a target that is refused for an anchored key, and an overlay of it that is not |
| IgnoreKeysLimits.RefusedAfterOnly | ha_gitops_agent/internal/ignorekeys/ignorekeys.go:223-280 | a target that is accepted, and an overlay of it that is refused |
| IgnoreKeysLimits.QuotedMergeKeyComparesEqual | ha_gitops_agent/internal/ignorekeys/ignorekeys.go:651-672 | a merge key and a quoted "<<" compare equal and have two normal forms |
| IgnoreKeysLimits.TaggedMergeKeyPrintsEqual | ha_gitops_agent/internal/ignorekeys/ignorekeys.go:651-672 | two merge keys of different text have one normal form and do not compare equal |
| YamlNodes.FindKey | ha_gitops_agent/internal/ignorekeys/ignorekeys.go:332-339 | the first key with that text, or none |
| YamlNodes.HoldsAnchor | ha_gitops_agent/internal/ignorekeys/ignorekeys.go:505-510 | whether the tree under a node holds an anchor or an alias |
| YamlNodes.RemoveLeaf | ha_gitops_agent/internal/ignorekeys/ignorekeys.go:414-425 | every occurrence goes, or the removal is refused because one of them holds an anchor |
| YamlNodes.StripPair | ha_gitops_agent/internal/ignorekeys/ignorekeys.go:427-446 | the pair below which a key was removed, gone itself if that left it empty |
| YamlNodes.RemoveKey | ha_gitops_agent/internal/ignorekeys/ignorekeys.go:413-447 | the removal in place refuses and ends exactly as Strip says, keeps the tree a tree, and changes nothing above or beside the mapping |
| YamlEdits.SetLeafAt | ha_gitops_agent/internal/ignorekeys/ignorekeys.go:476-489 | a written key takes the place of its first occurrence and repeats of it go |
| YamlEdits.DropRepeats | ha_gitops_agent/internal/ignorekeys/ignorekeys.go:482-489 | the loop that drops them in place |
| YamlEdits.NewChain | ha_gitops_agent/internal/ignorekeys/ignorekeys.go:457-463 | the mappings a new path needs, ending in the value |
| YamlEdits.FillIn | ha_gitops_agent/internal/ignorekeys/ignorekeys.go:467-472 | a null turned into the mapping the path needs |
| YamlEdits.SetKey | ha_gitops_agent/internal/ignorekeys/ignorekeys.go:454-490 | the write in place succeeds exactly when Set does, with its result, and leaves the tree as it was otherwise |
| YamlOverlay.SameTree | ha_gitops_agent/internal/ignorekeys/ignorekeys.go:515-548 | the recursive comparison of nodes decides whether two trees hold the same data, which ScalarLaws and PositionLaws say without it |
| YamlOverlay.LookupKey | ha_gitops_agent/internal/ignorekeys/ignorekeys.go:390-405 | the node at a key path, where the values have one |
| YamlOverlay.Clone | ha_gitops_agent/internal/ignorekeys/ignorekeys.go:711-720 | a copy with the same value and no node in common |
| YamlOverlay.CopyIn | ha_gitops_agent/internal/ignorekeys/ignorekeys.go:267-269 | the source's value written into the target, the source untouched |
| YamlOverlay.StripTree | ha_gitops_agent/internal/ignorekeys/ignorekeys.go:181-186 | the keys removed in place are those of StripAll, with its error |
| YamlOverlay.OverlayOne | ha_gitops_agent/internal/ignorekeys/ignorekeys.go:247-270 | one key in place is OverlayKey of the values |
| YamlOverlay.OverlayTree | ha_gitops_agent/internal/ignorekeys/ignorekeys.go:246-270 | the whole overlay in place is OverlayAll of the values, with its changed flag and error; only the target's nodes change |
| ConfigTree.ConfigDir.MakeDirs | ha_gitops_agent/internal/applier/stash.go:155-187 | directories appear above the path only, shallowest first, and not past a file; a failure leaves a prefix of them |
| Applier.DirsToCreate | ha_gitops_agent/internal/applier/stash.go:113-141 | walking up from each written path finds exactly the directories the batch will create |
| Applier.StashFiles | ha_gitops_agent/internal/applier/stash.go:81-108 | the stash holds for each path whether it was there and its content, and the directories to be created |
| Applier.WriteOne | ha_gitops_agent/internal/applier/stash.go:155-187 | one change written with its live keys kept, or left where it failed; on a disk that takes every change it goes through exactly when there is content to write that goes together with the live one, and no file above it or directory in its place |
| Applier.WriteChanges | ha_gitops_agent/internal/applier/stash.go:155-187 | wherever writing stops, only planned paths and directories above them differ; complete, the files are those of the plan and every path is reported; a computed plan goes through on such a disk exactly when every write can be merged and has no live file above it |
| Applier.AppliedAt | ha_gitops_agent/internal/applier/stash.go:155-187 | a written path holds the repository's content brought together with what was live, and a deleted one nothing |
| Applier.AppliedElsewhere | ha_gitops_agent/internal/applier/stash.go:155-187 | every other path keeps what it has |
| Applier.TouchedIs | ha_gitops_agent/internal/applier/stash.go:155-187 | an apply reports every path of its plan once, in its order |
| Applier.RemoveEmptyCreatedDirs | ha_gitops_agent/internal/applier/rollback.go:187-214 | of the created directories those that are empty go, deepest first, those emptied by it included, and nothing else |
| Applier.RestoreFiles | ha_gitops_agent/internal/applier/rollback.go:27-122 | every stashed path that nothing stands in front of is back, ancestors first |
| Applier.RollbackFrom | ha_gitops_agent/internal/applier/rollback.go:27-122 | from wherever a write stopped: it succeeds if and only if nothing stands in the way, files and directories are then exactly those of the start, and otherwise only the blocked paths are missing and the next try succeeds |
| Applier.PlansLeaveAClearWay | ha_gitops_agent/internal/applier/stash.go:155-187 | with writes from one commit before deletes of live files nothing ever stands in the way |
| Applier.ComputedPlansCanBeUndone | ha_gitops_agent/internal/differ/differ.go:74-120 | every plan the differ computes is of that kind |
| Applier.DeleteFirstBlocksTheRollback | ha_gitops_agent/internal/differ/differ.go:36-52 | why the order matters: a delete before a write below it leaves a directory the rollback cannot get past |
| Applier.GuardedIsAcceptable | ha_gitops_agent/internal/applier/apply.go:52-66 | what the guard lets through are changes of the plan to regular files or to nothing, deletes still last |
| Applier.GuardedAre | ha_gitops_agent/internal/applier/apply.go:52-66 | of the changes of a plan exactly those pass that are not refused, not the root and not a directory live |
| Applier.Apply | ha_gitops_agent/internal/applier/apply.go:42-134 | a computed plan succeeds on a disk that takes every change exactly when something passes the guard, every write can be made, the configuration is valid and Home Assistant comes back from a restart; no batch that is invalid or kills it is ever ok; a success leaves the plan's files, anything else the tree as found; the stash holds what the plan was going to touch |
| RollbackPointer.Prune | ha_gitops_agent/internal/applier/prune.go:22-63 | the newest directories and the excluded ones stay, and no others |
| RollbackPointer.PointerNeverDangles | ha_gitops_agent/internal/recon/recon.go:2059-2098 | over every run of applies, rollbacks, prunes and restarts, saved or not, the pointer is empty or names a directory that exists |
| RollbackPointer.PointerIsTheLastRecorded | ha_gitops_agent/internal/recon/recon.go:2223-2234 | over every run, the pointer is the stash of the last apply that succeeded or could not be undone, until another one or a successful roll back, and over restarts if its state was saved |
| RollbackPointer.NothingLeftOnceUsed | ha_gitops_agent/internal/recon/recon.go:3023-3037 | once a roll back has used it there is nothing to roll back to until another apply records a stash |
| RollbackPointer.UndoneAppliesKeepThePointer | ha_gitops_agent/internal/recon/recon.go:2417-2422 | any number of applies that undo themselves leave the pointer, its directory and the saved state |
| RollbackPointer.FewDirectoriesStay | ha_gitops_agent/internal/applier/prune.go:22-63 | an apply leaves at most seven directories, and one it removes has five newer ones |
| RollbackPointer.Bookkeeper.Apply | ha_gitops_agent/internal/recon/recon.go:2223-2234 | the bookkeeping of an apply is the transition the runs are made of |
| RollbackPointer.Bookkeeper.RollBack | ha_gitops_agent/internal/recon/recon.go:3023-3037 | a roll back that succeeds uses its pointer up |
| Listing.FindMatches | ha_gitops_agent/internal/flows/flows.go:304-322 | the unclaimed live entries that fit, and how many there are with and without an id |
| Resources.UrlPathIsAPath | ha_gitops_agent/internal/dashboards/resources.go:188-204 | the path of a url is its own path, and a url set as declared is never drift |
| ResourceOutcomes.UrlMatchesIff | ha_gitops_agent/internal/dashboards/resources.go:188-204 | a live url is as declared if it is the same, or the declared path with a query or fragment behind it |
| Resources.KeepUnique | ha_gitops_agent/internal/dashboards/resources.go:104-124 | the entries kept have one key and one url path each, and each one left out clashes with one kept before it |
| Resources.PlanOne | ha_gitops_agent/internal/dashboards/resources.go:272-315 | one declared entry: its op, what it owns, and what an ambiguous match leaves contested |
| Resources.PlanResources | ha_gitops_agent/internal/dashboards/resources.go:239-352 | the loops over declared entries and managed keys compute the plan the laws are about; outside storage mode every entry fails and nothing else is planned |
| ResourceLaws.EachHasItsEffect | ha_gitops_agent/internal/regapply/resources.go:144-234 | in a plan of independent ops each has its effect whatever the others do |
| ResourceLaws.PlanIsIndependent | ha_gitops_agent/internal/dashboards/resources.go:239-352 | no two ops of a plan concern the same key or the same live resource |
| ResourceLaws.StrangersAreUntouched | ha_gitops_agent/internal/dashboards/resources.go:268-349 | a live resource that no entry owns is left as it is, unless the agent managed it, nobody declares it and it is not contested |
| ResourceLaws.ReplanOnlyFails | ha_gitops_agent/internal/dashboards/resources.go:239-352 | planning again after execution yields exactly the failed ops of the first plan |
| ResourceLaws.PlanKeepsOneOwner | ha_gitops_agent/internal/dashboards/resources.go:239-352 | after execution no two keys manage one resource |
| ResourceOutcomes.DeclaredOutcome | ha_gitops_agent/internal/dashboards/resources.go:239-352 | after execution every declared entry has a live resource of its kind on its url, the one it had, else the only free one on its path, else a new one; it fails, and its key stays where it was, exactly if there are several on its path or one without an id |
| ResourceOutcomes.DroppedOutcome | ha_gitops_agent/internal/dashboards/resources.go:318-349 | a resource whose key is no longer declared is gone, unless an entry has taken it over, or may have meant it and the agent keeps both |
| Flows.Consider | ha_gitops_agent/internal/flows/flows.go:326-399 | one declared item: its op, and what it claims, leaves contested or adopts |
| Flows.PlanIntegrations | ha_gitops_agent/internal/flows/flows.go:257-440 | the two passes compute the plan the laws are about |
| FlowLaws.ClaimsGrow | ha_gitops_agent/internal/flows/flows.go:292-399 | claims only grow, and only by adoptions |
| FlowLaws.ContestedIs | ha_gitops_agent/internal/flows/flows.go:298-399 | an entry is contested if and only if it matched an item that could not decide |
| FlowLaws.AmbiguousStays | ha_gitops_agent/internal/flows/flows.go:363-385 | the matches of an ambiguous item are not taken by a later one |
| FlowLaws.PlanOwnsKeys | ha_gitops_agent/internal/flows/flows.go:257-440 | no two ops of a plan concern the same key |
| FlowLaws.DeletesAreFree | ha_gitops_agent/internal/flows/flows.go:401-437 | nothing deleted was claimed or contested, and it was managed by a key nobody declares |
| FlowLaws.ForgetFollowsAdopt | ha_gitops_agent/internal/flows/flows.go:418-427 | a key is forgotten only after an earlier op of the plan adopts its entry |
| FlowLaws.PlanKeepsOneOwner | ha_gitops_agent/internal/regapply/flows.go:654-775 | after execution no entry is managed by two keys |
| FlowLaws.ReplanOnlyFails | ha_gitops_agent/internal/flows/flows.go:257-440 | planning again after execution yields exactly the failed ops of the first plan |
| FlowOutcomes.ItemOutcome | ha_gitops_agent/internal/flows/flows.go:292-399 | after execution every item keeps its entry, else has the only free one of its domain and title, else a new one, with the fingerprint of its data; it fails, and nothing about it changes, exactly if its data is missing or is not that of its entry, or there is no single one to take, or the same data failed before |
| FlowOutcomes.DroppedOutcome | ha_gitops_agent/internal/flows/flows.go:401-437 | a live entry whose key is no longer declared is deleted, unless an item has taken it over, or may have meant it and the agent keeps both |
| Devices.MatchDevices | ha_gitops_agent/internal/devices/devices.go:527-550 | the live devices that satisfy every key of a match |
| DeviceOutcomes.EachKeyNarrows | ha_gitops_agent/internal/devices/devices.go:527-571 | each key of a match narrows the choice, and an identifier is the domain and the id with a colon between |
| Devices.Resolve | ha_gitops_agent/internal/devices/devices.go:384-401 | every match is known before any entry is planned, and which entries are alone with a device |
| Devices.PlanEntries | ha_gitops_agent/internal/devices/devices.go:413-472 | the ops of the entries, what they protect, and whether one with fields matches nothing |
| Devices.PlanDevices | ha_gitops_agent/internal/devices/devices.go:369-523 | the loops compute the plan the properties below are about |
| Devices.OneOpPerDevice | ha_gitops_agent/internal/devices/devices.go:369-523 | no device is the target of two ops, so none is both updated and restored |
| Devices.SharedDeviceIsLeft | ha_gitops_agent/internal/devices/devices.go:434-439 | a device two entries resolve to is updated by neither |
| Devices.EveryRecordIsAccountedFor | ha_gitops_agent/internal/devices/devices.go:474-520 | each recorded device is protected or has exactly one op, forgotten if and only if it is gone, and nothing is restored while an entry with fields matches nothing |
| DeviceFields.BuildParams | ha_gitops_agent/internal/devices/devices.go:682-726 | the parameters of an update, with each label sent once where it is first named, or none if a reference does not resolve |
| DeviceFields.ParamsSay | ha_gitops_agent/internal/devices/devices.go:682-726 | each declared field is sent with the value it declares: a name, an area's id, the ids of the labels, null for what is declared empty, "user" for disabled and null for enabled; nothing else is sent, and nothing at all if a reference names nothing |
| DeviceFields.ParamsAreSettable | ha_gitops_agent/internal/devices/devices.go:652-726 | what is sent are settable fields, labels once each, and a disabled_by that the user owns |
| DeviceFields.ReadsBackIff | ha_gitops_agent/internal/devices/devices.go:676-681 | a value reads back as it was sent if and only if it names each label once, so a repeat would drift for ever |
| DeviceOutcomes.FieldsEqualIs | ha_gitops_agent/internal/devices/devices.go:754-785 | fields compare as they are, labels as often as each occurs |
| DeviceLaws.DeviceGets | ha_gitops_agent/internal/regapply/devices.go:174-253 | in a plan with one op per device each does what it would do alone |
| DeviceLaws.UpdatedIsSettled | ha_gitops_agent/internal/regapply/devices.go:174-253 | an entry whose update was executed plans nothing more |
| DeviceLaws.ReplanOnlyFails | ha_gitops_agent/internal/devices/devices.go:369-523 | planning again after execution yields exactly the failed ops of the first plan |
| DeviceOutcomes.EntryOutcome | ha_gitops_agent/internal/devices/devices.go:413-472 | after execution the device an entry means has every declared value and every other value still, with what it had before on the record; nothing about it changes if the fields cannot be sent or another entry picks it |
| DeviceOutcomes.RecordedOutcome | ha_gitops_agent/internal/devices/devices.go:474-520 | a recorded device no entry means goes back to what is on the record and off it, or is forgotten if it is gone; nothing about it changes while an entry matches nothing or an integration has disabled it |
| DeviceOutcomes.RecordedOpIsNamed | ha_gitops_agent/internal/devices/devices.go:427-472 | what is planned for a recorded device no entry means goes by the name of the one entry that picks it without declaring anything, or by the device's id |
| DeviceLaws.SentIsRecorded | ha_gitops_agent/internal/regapply/devices.go:231-245 | every field an update sent has its original on the record from then on |
| DeviceLaws.RestoreGivesBack | ha_gitops_agent/internal/regapply/devices.go:231-253 | a device updated any number of times, whatever happens to others in between, and then restored has the values of before the first update back, in every field |
| RunHistory.AppendAddsWholeRecords | ha_gitops_agent/internal/history/store.go:119-170 | a write cut after any byte adds its record or none, and a fragment never joins what comes next |
| RunHistory.LinesAddUp | ha_gitops_agent/internal/history/store.go:250-275 | the lines that are not empty add up wherever a file is cut at a line start |
| RunHistory.CutBeforeNewest | ha_gitops_agent/internal/history/store.go:174-207 | a cut at a line start up to the newest record leaves a suffix of the records that ends in it |
| RunHistory.TailSeesNewestIff | ha_gitops_agent/internal/history/store.go:211-246 | reading only the end of the file gives a suffix of the records, with the newest one if and only if its line starts after the cut |
| RunHistory.FailedAppendsHideTheNewest | ha_gitops_agent/internal/history/store.go:119-170 | a file of one record and enough cut appends behind it, of which nothing is read |
| RunStore.Store.ParseRecords | ha_gitops_agent/internal/history/store.go:250-275 | the scan reads the records and counts the lines that are not empty |
| RunStore.Store.Load | ha_gitops_agent/internal/history/store.go:100-115 | over every sequence of appends: the last keep of the records in the part that is read, a suffix of those completed, with the newest one if and only if its line is in that part |
| RunStore.Store.Append | ha_gitops_agent/internal/history/store.go:119-170 | the file stays readable however few bytes land; a completed append is the newest record, a cut one is reported and leaves the counts; the file is rewritten to its newest lines exactly when the lines or the bytes counted pass their limits, and is otherwise the old file and the record |
| RunStore.Store.Rotate | ha_gitops_agent/internal/history/store.go:174-207 | a rewrite keeps the newest record and as many lines before it as fit keep and the target size |
| RunStore.Store.NewestLines | ha_gitops_agent/internal/history/store.go:184-196 | the newest lines that fit both caps: keep of them, or as many as the target size allows, one in any case |
| RunStore.Store.Reopen | ha_gitops_agent/internal/history/store.go:64-96 | after a restart the store knows the size and whether the last write was cut |
| ReplayMemory.SeenBodies.Add | ha_gitops_agent/internal/hook/hook.go:347-367 | refuses a body if and only if it is among the last max - 1 accepted ones and within the window of the full log; order and map hold the same digests |
| ReplayMemory.Answers | ha_gitops_agent/internal/hook/hook.go:336-367 | the bounded memory answers what the full log would |
| ReplayMemory.DropOldest | ha_gitops_agent/internal/hook/hook.go:353-360 | what pruning drops no longer matters to any later answer |
| ReplayMemory.AcceptingKeepsNeverTwice | ha_gitops_agent/internal/hook/hook.go:336-346 | an accepted body is not accepted again within the window, or before max others |
| Exclusions.JoinOfSplit | ha_gitops_agent/internal/gitsync/gitsync.go:229-245 | splitting a path at its slashes and joining again gives the path back |
| Exclusions.LeadingSegments | ha_gitops_agent/internal/gitsync/gitsync.go:229-245 | stepping from slash to slash gives the first n segments, if there are n |
| Exclusions.Compile | ha_gitops_agent/internal/gitsync/gitsync.go:140-170 | the compiled list holds each entry's body under its kind and nothing else |
| Exclusions.Match | ha_gitops_agent/internal/gitsync/gitsync.go:174-225 | the byte scan decides whether the compiled list hits one of the path's segments, its lead or the whole path |
| Exclusions.CompiledListKeepsTheRule | ha_gitops_agent/internal/gitsync/gitsync.go:140-225 | a compiled list hits a path if and only if one of its entries excludes it by the documented rule |
| Exclusions.PlainEntryExcludes | ha_gitops_agent/internal/gitsync/gitsync.go:267-298 | the four forms of an entry with a plain name: that file anywhere, that directory anywhere, that file at the root, that directory at the root |
| Exclusions.NestedEntryExcludes | ha_gitops_agent/internal/gitsync/gitsync.go:267-298 | a plain name in a plain directory is that file, or everything below that directory, from the root |
| Exclusions.IsExcluded | ha_gitops_agent/internal/gitsync/gitsync.go:267-298 | compiling and matching a list decides that rule |

## Left out

- IgnoreKeys.RunCanonical: reading, writing and tidying YAML text is the identity on trees, so comments, styles, tags on empty nulls and a file of several documents are not modelled; the ambiguity check of every key runs on the values, while lookup, comparison, copying, removal and writing also run in place.
- OverlayLaws.CanonicalIgnoresOverlay: for a target with an anchor on a mapping key, whether the result is refused is read off the result, not off target and source.
- CoreSchema.Schema.SameValueIffNormalEqual: which texts are floats, and which of those are integers, is a parameter of the schema; integers, booleans and nulls are spelled out. Values that hold an anchor are not compared.
- ScalarLaws.PlainScalarsCompare: the float part of the schema is a parameter that yields a float or the integer a float is equal to; nothing is said about which texts those are.
- DocumentLaws.CanonicalEqualIff: for documents without anchors, whose merge keys read the same.
- Differ.Compute: ignored keys are not taken out before contents are compared, and large files, symbolic links and containment checks come in only as paths that cannot be compared.
- Classifier.ClassifyChanges: a commit that is known but unreadable, a blob that is an encrypted document and a live file that is too large are given as conditions of the cycle.
- SyncRuns.NoLiveVersionIsLost: assumes that the live file still says what the check saw; an edit in the moment between a check and its apply is overwritten.
- SyncCycle.Agent.ApplyNow: which paths the file layer touched and whether it succeeded are given; saving the state never fails, file syncing is never turned off, and an apply without an earlier check has no plan.
- SyncAgreement.CapturesReplaceWhatWasLive: tidy runs only, in which a roll back of live files is a series of edits; the lemmas of SyncNextCycle and SyncHazards named above show what the other runs do.
- CaptureLaws.CaptureNeverRevertsAPush: the branch only ever grows; a forced push that removes commits is not modelled.
- Applier.Apply: the token is there, the stash can be written, and the verdicts of the configuration check and of the health probe are given; a service call that fails only adds to a message.
- Applier.RollbackFrom: the rollback's own system calls succeed, nobody else writes meanwhile, and no stashed path is one it refuses to touch.
- RunStore.Store.Append: records are free of newlines, shorter than the line limit, and no cut record reads as one; a file that cannot be read, and carriage returns, do not occur.
- RollbackPointer.PointerNeverDangles: directories are created and removed as asked; two that would get one name do not occur.
- ResourceLaws.EachHasItsEffect: Home Assistant carries out every op; partial failures and the inverse ops of a roll back are not modelled.
- DeviceLaws.RestoreGivesBack: nobody else changes the device between its first update and its restore.
- DeviceLaws.ReplanOnlyFails: Home Assistant carries out every op and keeps labels as a set; nobody changes a device between the plan and its execution.
- FlowLaws.ReplanOnlyFails: flows that ask for further steps are one create, and no refused create becomes possible in between.
- Devices.MatchDevices: how names are compared, upper and lower case aside, is a parameter; every live device has one id of its own.
- ReplayMemory.SeenBodies.Add: the clock never goes back, and a digest stands for its body.
- Exclusions.IsExcluded: globbing is a parameter that only has to match a plain pattern with itself; path cleaning, the built-in entries and the patterns of secret files are other lists for the same rule.
- Text for people: diffs, masking, event lines, status, error messages.
- Git, HTTP and WebSocket calls, timers and locks; a cycle is one step with pushes inside its capture.
- The planners for entities, add-on options, HACS and dashboards, which are simpler relatives of the three modelled.
- The other layer executors and their inverse ops, secret references, authentication and rate limits.
