# Multicloud subscription operator: a verified model

This project models the decision logic of the subscription operator in Dafny and
proves what that logic keeps over every input, every failure of a client call and
every run. The API server is a map from keys to objects; whether a client call
succeeds is an input, so that each statement covers all patterns of failures.

| file | what it models |
|---|---|
| `hour_ranges.dfy`, `time_window.dfy`, `requeue.dfy` | time windows, proved against a brute-force search for the least wait |
| `json_merge.dfy` | merge patches, section 2 of RFC 7396 |
| `cluster.dfy`, `ownership.dfy` | applying a template and deleting a unit; who may change what over whole runs |
| `synchronizer.dfy`, `tracking.dfy`, `rounds.dfy` | apply, purge and cleanup rounds with the stored unit lists; ownership and tracking over runs of rounds |
| `content.dfy` | what applied objects say, which templates get through, what is reported |
| `repo_walk.dfy`, `repo_tree.dfy` | sorting the resources of a Git repository in one walk, in terms of the tree |
| `hook_jobs.dfy`, `hook_gate.dfy` | Ansible hook jobs, and how they gate propagation |
| `references.dfy` | referred secrets and config maps, counted by labels and owners |
| `manifest_works.dfy` | propagation to the placed clusters |
| `git_registry.dfy` | the hub's registry of Git branches |
| `reports.dfy`, `views.dfy` | cluster reports, their aggregation, views of failing applications |
| `request_name.dfy` | reconcile requests that carry a placement decision's version |
| `text.dfy`, `sorting.dfy` | helpers |

`dafny verify dfyconfig.toml` checks the whole project.

Operations that the source writes as loops over mutable state are methods and
classes proved to refine a function on values; the theorems are lemmas about these
functions. Weekdays are 0 to 6, times of day whole minutes. Every lemma
is marked `{:induction false}`, so that no proof rests on automatic induction.

## Where the code departs from the plain reading

The model follows the code. In these places the obvious statement is false of it;
the exact condition under which it holds is proved.

- A range until 12:00AM is stored as ending at minute 0. Merging is exact if and
  only if no other range reaches such a range (`HourRanges.MergeHourRanges`; a
  failing case is `Requeue.MergeLosesTheEvening`).
- On the latest listed weekday, after its last hour, an active window waits a full
  week (`TimeWindows.NextStartPoint`, `Requeue.FridayWaitsAWeek`), and an
  hours-only window until midnight is missed after midnight
  (`Requeue.OpenEveningWaitsADay`). When these and other evenings make the requeue
  miss a change is stated by `Requeue.NextStatusReconcile` (failing cases are
  `Requeue.RequeueMissesMonday` and `Requeue.RequeueMissesMidnight`).
- A blocked window that leaves no moment open never blocks
  (`Requeue.AllWeekBlocksNothing`).
- A manifest whose apiVersion changes within its kind has its object deleted by the
  round that updates it (`Tracking.NewApiVersionDeletesTheObject`).
- A dropped unit whose lookup fails with another error than not-found is forgotten, and
  so is a batch whose status cannot be written (`Rounds.LookupErrorForgets`,
  `Rounds.UnwrittenStatusForgets`); the exact condition for all rounds is
  `Rounds.RoundTracksExactly`.
- Passes over referred objects decide on the list they made at their start. When they
  overlap, a reference is lost exactly if it came up after that list
  (`References.OthersChangeExactly`, `References.OverlappingUpdatesLoseOne`,
  `References.LateDeletionTakesAnothers`).
- One cluster that fails keeps all later clusters of the pass from being updated, and
  expired works from being deleted (`ManifestWorks.OneFailureStopsUpdates`,
  `ManifestWorks.ExpiredGoesExactly`).
- Two subscriptions may share a work name; then the second is never propagated to a
  cluster of the first, nor cleaned up (`ManifestWorks.CleanPassIsExact`,
  `ManifestWorks.JoinedNamesCollide`).
- A purge forgets the units whose deletion failed (`Rounds.RemovalTracksExactly`).
- On the hub, a standalone controller and the local cluster's agent `x-local` and `x`
  share one status: an APPLY round of the former can take away objects of the latter
  (`Rounds.SharedStatusTakesTheBases`), and its purge forgets them
  (`Rounds.PurgeForgetsTheBase`). Off the hub that purge even looks for a status of
  another name, and deletes nothing (`Rounds.MisplacedPurgeDeletesNothing`).
- An elevated merge that takes the do-not-delete mark off another host's object
  leaves it untracked (`Rounds.UpdateNeedsExactly`).
- A hook without an instance lets all hooks pass (`HookGate.PassesInSomeOrder`), and
  an error of the prehook check leaves the prehooks marked as passed
  (`HookGate.HubReconciler.CheckPreHooks`, `HookGate.CheckFailsIff`).
- A subscription that reads as local when posthooks are considered needs no report,
  also when it is remote too (`HookGate.CompleteWithoutReport`,
  `HookGate.LocalFlagSkipsTheReport`).
- A commit that could not be written to a subscription is not announced to it again
  (`GitRegistry.AnnouncedOnce`).
- A hook template from another namespace than its subscription's does not find its
  last job and may have several under way (`HookJobs.ForeignTemplateRunsTwice`).
- A plain request for a subscription with the flag in its name is taken for one that
  a placement decision fired (`RequestName.PlainRequest`).

## Model

| member | source | states |
|---|---|---|
| `HourRanges.MergeHourRanges` | pkg/utils/timewindow.go:358-387 | the merged ranges are strictly separated and are the same set of times as the input if and only if no range until 12:00AM touches another one (or all ranges are the whole day) |
| `HourRanges.FoldRanges` | pkg/utils/timewindow.go:368-384 | the loop computes the fold MergedUpTo, the function that the merge lemmas reason about |
| `HourRanges.MergedIsRight` | pkg/utils/timewindow.go:358-387 | after every range merged: coverage and separation so far when midnight is kept, and where each range went when it is not |
| `HourRanges.ExactOnlyIfKept` | pkg/utils/timewindow.go:373-384 | a separated result with unchanged coverage forces that midnight was kept: the converse half of the merge theorem |
| `HourRanges.OrientKeepsHours` | pkg/utils/timewindow.go:139-152 | turning ranges round keeps what the user wrote: from the start until midnight if the range ends at 12:00AM, otherwise between its two times |
| `HourRanges.ValidateHourRange` | pkg/utils/timewindow.go:132-155 | orienting and merging a window's hours is exact under the same if-and-only-if condition |
| `HourRanges.ReverseRange` | pkg/utils/timewindow.go:393-423 | on separated ranges the gaps cover a minute exactly when it is not in the interior of a range, on 0 to 1440, and are chained in order |
| `HourRanges.GapStep` | pkg/utils/timewindow.go:402-410 | each round of the gap loop keeps the complement exact up to the start of the range it reaches |
| `TimeWindows.ValidateDaysOfWeek` | pkg/utils/timewindow.go:157-196 | the first list holds each named weekday once, the second the remaining ones (none for an empty list), names compared case-insensitively |
| `TimeWindows.OpenIsAsWritten` | pkg/utils/timewindow.go:83-108 | the open moments of the wait theorems are those of the window as written: type and weekday names in any case, ranges in either direction |
| `TimeWindows.DaysAhead` | pkg/utils/timewindow.go:451-465 | 0 exactly when today is listed with a slot to come; a week on the latest listed day; otherwise the first listed day still to come this week |
| `TimeWindows.DurationToNextRunableWeekday` | pkg/utils/timewindow.go:429-469 | the wait is the number of whole days to the first listed day after today, wrapped round the week, except a full week on the latest listed day |
| `TimeWindows.CurrentDayIsNext` | pkg/utils/timewindow.go:324-342 | the wait to a slot of today is the least one, and -1 exactly means that none is left |
| `TimeWindows.FirstSlotIsNext` | pkg/utils/timewindow.go:296-322 | the hours-only search finds the least minute from now that a slot covers |
| `TimeWindows.LeastAt` | pkg/utils/timewindow.go:214-280 | a candidate on day k is the least wait over all minutes when every earlier minute of the days between is closed: link to the brute-force search |
| `TimeWindows.GenerateNextPoint` | pkg/utils/timewindow.go:214-280 | for every list of day slots and weekdays the wait is the least one to a minute that may run, if and only if neither exception holds |
| `TimeWindows.NextStartPoint` | pkg/utils/timewindow.go:83-108 | hours that merge exactly. Active: the wait always lands on an open moment under seven days away, and is the least one if and only if today is not the exhausted latest weekday and no hours-only window until midnight is asked after midnight; in those cases it lands on the first hour of the same weekday next week, or of tomorrow. Blocked: the least wait to an unblocked moment, zero when all is blocked |
| `Requeue.IsInWindow` | pkg/utils/timewindow.go:40-46 | hours that merge exactly: true if and only if the moment is open (or the window blocks everything) and it is not an hours-only window until midnight asked after midnight |
| `Requeue.NextStatusReconcile` | pkg/utils/timewindow.go:49-76 | hours that merge exactly: the wait but its last minute is given exactly (the least one to a moment where the status may turn, with the stated exceptions), and the status is constant throughout the wait but its last minute if and only if neither the latest-weekday exception nor a range until midnight hides a change, each given by an exact condition on window and moment |
| `Requeue.SteadyMissed` | pkg/utils/timewindow.go:296-309 | the missed hours-only window waits for tomorrow's first hour; its status is constant until then if and only if it is open from now to midnight and again from midnight |
| `Requeue.SteadyEvening` | pkg/utils/timewindow.go:60-76 | a window open until midnight on a listed weekday: no change is missed if and only if tomorrow comes later in the week and is listed, or the window is always open |
| `Requeue.MergeLosesTheEvening` | pkg/utils/timewindow.go:373-384 | concrete hours until 12:00AM whose merge loses 11:40AM |
| `Requeue.FridayWaitsAWeek` | pkg/utils/timewindow.go:451-465 | Monday and Friday, nine to ten, asked on Friday noon: seven days less three hours although Monday is open |
| `Requeue.RequeueMissesMonday` | pkg/utils/timewindow.go:451-465 | the requeue on that Friday misses the open Monday |
| `Requeue.OpenEveningWaitsADay` | pkg/utils/timewindow.go:302-309 | 8PM until midnight, asked at 9PM: the window is open, and yet the wait is until 8PM tomorrow |
| `Requeue.RequeueMissesMidnight` | pkg/utils/timewindow.go:60-76 | Mondays from 8PM until midnight, asked at 9PM: the requeue misses the end of the window |
| `Requeue.AllWeekBlocksNothing` | pkg/utils/timewindow.go:214-217 | a blocked window over all seven days is open at no moment and yet asks for no wait |
| `JsonMerge.PatchActsAsTemplate` | pkg/synchronizer/kubernetes/synchronizer.go:527-561 | applying the created patch (section 2 of RFC 7396) is the same as applying the whole template as a patch |
| `JsonMerge.MergeTwice` | pkg/synchronizer/kubernetes/synchronizer.go:527-561 | merging a document a second time changes nothing, arrays and nested objects included |
| `JsonMerge.PatchedIncludes` | pkg/synchronizer/kubernetes/synchronizer.go:527-561 | after the patch the object contains everything the template says |
| `JsonMerge.PatchIsIdempotent` | pkg/synchronizer/kubernetes/synchronizer.go:527-561 | the second patch towards the same template is empty and leaves the object as it is |
| `JsonMerge.EmptyPatchIff` | pkg/synchronizer/kubernetes/synchronizer.go:549-551 | the patch is empty if and only if the object already includes the whole template |
| `JsonMerge.MergesExactly` | pkg/synchronizer/kubernetes/synchronizer.go:549-561 | a document is the merge result if and only if it includes the template, has every field that the template does not name as before, recursively, and no others |
| `Cluster.HostRoundTrip` | pkg/utils/subscription.go:405-428 | the host read from an object is a subscription if and only if the annotation is that subscription's namespace/name |
| `Cluster.HostHasOneSlash` | pkg/utils/subscription.go:405-428 | an annotation names a host if and only if it has exactly one slash |
| `Cluster.HostIsWritten` | pkg/synchronizer/kubernetes/extension.go:71-87 | the annotation is namespace/name, and the twin's ends in -local |
| `Cluster.BadApiVersionIs` | pkg/utils/subscription.go:1142-1153 | an apiVersion is refused if and only if it is empty, a lone slash, or has more than one |
| `Content.UpdateStoresExactly` | pkg/synchronizer/kubernetes/synchronizer.go:464-592 | an update goes through if and only if the object is the host's own or the template is elevated with one of the options, and the write succeeds (or a replacement is refused for good); then a patched object includes the template and keeps all else, a replaced one is exactly the template, in body and annotations; otherwise the object is as before |
| `Content.CreateStoresExactly` | pkg/synchronizer/kubernetes/synchronizer.go:387-456 | when a creation goes through, that it stores exactly the template, and what namespace it creates on the way |
| `Content.ApplyStoresExactly` | pkg/synchronizer/kubernetes/synchronizer.go:613-682 | a template succeeds if and only if it is paused, or passes the gates (cluster-scoped kinds by admins only, deny list, lookup) and is created or updated; then its object says what it says; a refused one changes nothing |
| `Content.ApplyLeavesOthers` | pkg/synchronizer/kubernetes/synchronizer.go:613-682 | every other object is left alone |
| `Content.DeletableIs` | pkg/synchronizer/kubernetes/synchronizer.go:101-127 | what a deletion may take: objects hosted by the subscription or its -local twin that are not marked do-not-delete |
| `Content.OverrideSays` | pkg/synchronizer/kubernetes/synchronizer.go:685-760 | what the override leaves of a manifest and adds to it |
| `Content.UnitTells` | pkg/synchronizer/kubernetes/synchronizer.go:279-338 | the unit reported for a manifest names its object, and is deployed if and only if the template succeeded; what is reported when the override fails or the kind is unknown |
| `Content.UnitNames` | pkg/synchronizer/kubernetes/synchronizer.go:59-96 | which object a unit names: its kind must be known, and its namespace counts for namespaced kinds only |
| `Content.BatchSays` | pkg/synchronizer/kubernetes/synchronizer.go:279-338 | after a batch the object of a deployed unit says what the last manifest for it says |
| `Content.RoundSays` | pkg/synchronizer/kubernetes/synchronizer.go:259-347 | and so it does after the whole round, unless a dropped unit takes it away |
| `Content.ListedAgain` | pkg/synchronizer/kubernetes/sync_appsubstatus.go:225-233 | a stored unit stays listed if and only if the batch reports the same four names, in whatever phase |
| `Content.OrphansCount` | pkg/synchronizer/kubernetes/sync_appsubstatus.go:220-238 | each unlisted unit is an orphan as often as it is stored |
| `Content.RelistedUnits` | pkg/synchronizer/kubernetes/sync_appsubstatus.go:240-256 | the units listed again are exactly those whose deletion erred, with phase failed |
| `Content.UnknownPurgeKeepsFailed` | pkg/synchronizer/kubernetes/sync_appsubstatus.go:338-404 | a purge keeps a list if and only if it cannot tell whether the subscription exists and some deletion failed: one failed entry with the name of each such unit |
| `Content.StatusNames` | pkg/synchronizer/kubernetes/sync_appsubstatus.go:821-825 | under which name x-local is stored, and where a purge looks for it, for every sort of cluster |
| `Ownership.UpdateKeepsHost` | pkg/synchronizer/kubernetes/synchronizer.go:464-592 | an update by a template without cluster-admin rights leaves the object as it is or keeps the template's host on it |
| `Ownership.CreateSetsHost` | pkg/synchronizer/kubernetes/synchronizer.go:387-456 | creation, with the namespace created on the way, only adds objects hosted by the subscription |
| `Ownership.StepKeepsOwnership` | pkg/synchronizer/kubernetes/synchronizer.go:59-130 | one step of one subscription, whatever fails: changed objects keep their host, deleted ones were its own or its -local twin's, new ones get it as host |
| `Ownership.Trace` | pkg/synchronizer/kubernetes/synchronizer.go:59-130 | the run: each cluster follows from the previous one by one write of some subscription |
| `Ownership.HostNeverChanges` | pkg/synchronizer/kubernetes/synchronizer.go:464-592 | over every interleaving an object keeps its host from creation to deletion |
| `Ownership.OnlyTheHostActs` | pkg/synchronizer/kubernetes/synchronizer.go:59-130 | over every interleaving of single writes, each in the name of a subscription: that name is the host of what it changes, host or base of a -local host of what it removes, and for life the host of what it creates; which name a round writes in is stated by Rounds.RoundIsSteps |
| `Ownership.TakeoverUpdates` | pkg/synchronizer/kubernetes/synchronizer.go:476-566 | what an elevated template makes of another host's object under merge, replace and mergeAndOwn |
| `Ownership.TakeoverDecidesThePurge` | pkg/synchronizer/kubernetes/synchronizer.go:476-566 | merge keeps the old host and a later purge leaves the object, unless that host is the subscription's -local twin; replace and mergeAndOwn move the host and the purge removes exactly it unless do-not-delete |
| `Ownership.RepeatedMergeChangesNothing` | pkg/synchronizer/kubernetes/synchronizer.go:511-561 | applying the same merge template again leaves the whole cluster unchanged |
| `Synchronizer.KubeSynchronizer.ProcessSubResources` | pkg/synchronizer/kubernetes/synchronizer.go:259-385 | one batch refines ApplyRound on the cluster and the stored statuses, an empty batch PurgeRound |
| `Synchronizer.KubeSynchronizer.SyncApply` | pkg/synchronizer/kubernetes/sync_appsubstatus.go:205-317 | the APPLY action deletes exactly the unlisted stored units in order and stores the new units followed by the failed ones |
| `Synchronizer.KubeSynchronizer.DeleteUnits` | pkg/synchronizer/kubernetes/synchronizer.go:59-130 | the deletion loop is the fold DeleteAll with the failed units in order |
| `Synchronizer.KubeSynchronizer.PurgeAllSubscribedResources` | pkg/synchronizer/kubernetes/synchronizer.go:133-257 | a purge with its DELETE action refines PurgeRound under every outcome of the lookups |
| `Synchronizer.KubeSynchronizer.Cleanup` | pkg/synchronizer/kubernetes/sync_server.go:232-279 | cleanup of a stored status refines CleanupRound: nothing unless the subscription is gone, the status goes only when every deletion succeeded |
| `Tracking.ApplyTouches` | pkg/synchronizer/kubernetes/synchronizer.go:613-682 | applying a template removes nothing and touches its own key and at most an auto-created namespace |
| `Tracking.ApplyTracks` | pkg/synchronizer/kubernetes/synchronizer.go:259-347 | after the apply loop every touched object is named by a reported unit |
| `Tracking.DeleteSpares` | pkg/synchronizer/kubernetes/sync_appsubstatus.go:240-256 | the delete loop only removes what its units name and the host owns; a unit whose object stays was not looked up, is kept on purpose, is not owned, or is listed as failed |
| `Tracking.OrphansAreTheUnlisted` | pkg/synchronizer/kubernetes/sync_appsubstatus.go:220-238 | the orphans are exactly the stored units that the new list does not name |
| `Tracking.ApplyKeepsTracking` | pkg/synchronizer/kubernetes/sync_appsubstatus.go:205-317 | tracking invariant: every object the subscription hosts stays in its stored unit list after an APPLY round, also for the subscription that shares the status on the hub |
| `Tracking.DroppedUnitsAreAccountedFor` | pkg/synchronizer/kubernetes/sync_appsubstatus.go:220-317 | each stored unit is listed again, gone from the cluster, kept on purpose, not the subscription's, re-listed as failed, or dropped because its lookup failed with another error |
| `Tracking.OrphansGoExactly` | pkg/synchronizer/kubernetes/sync_appsubstatus.go:220-317 | an object of the applied cluster is missing after the round if and only if it is owned, deletable and named by a dropped unit |
| `Tracking.NewApiVersionDeletesTheObject` | pkg/synchronizer/kubernetes/sync_appsubstatus.go:222-256 | a manifest that only changes its apiVersion makes the round delete the object it just updated and reports it as deployed |
| `Tracking.GoneExactly` | pkg/synchronizer/kubernetes/synchronizer.go:59-130 | an object goes if and only if it is hosted by the name deleted as or its twin, is not do-not-delete, and some unit naming it meets no error |
| `Tracking.RelistedExactly` | pkg/synchronizer/kubernetes/sync_appsubstatus.go:240-256 | a deletable object that stays after the delete loop is listed as failed if and only if some unit naming it was looked up |
| `Tracking.FailsExactly` | pkg/synchronizer/kubernetes/synchronizer.go:59-130 | some deletion of a list reports an error if and only if a unit cannot be resolved, or the deletion of its object, still there after the units before, fails |
| `Rounds.RoundIsSteps` | pkg/synchronizer/kubernetes/synchronizer.go:259-347 | every apply, purge or cleanup round, whatever fails, is a run of the single writes of the ownership theorem: applied as its subscription, deleted in the name of the stored status (APPLY) or of the subscription |
| `Rounds.RoundKeepsOwnership` | pkg/synchronizer/kubernetes/sync_appsubstatus.go:240-256 | a round changes only objects hosted by its subscription, creates only such, and takes away only objects hosted by the name it deletes as or that name's -local twin |
| `Rounds.HostsOutliveRounds` | pkg/synchronizer/kubernetes/synchronizer.go:259-347 | over every run of rounds by any subscriptions an object keeps its host from creation to deletion |
| `Rounds.RoundsActOnTheirOwn` | pkg/synchronizer/kubernetes/sync_server.go:232-279 | the effect of each round of a run, and that what a round creates has its subscription as host for life |
| `Rounds.LostExactly` | pkg/synchronizer/kubernetes/sync_appsubstatus.go:220-256 | a round takes an object away if and only if a unit it condemns names it, no call fails for that unit, and host and annotations allow it |
| `Rounds.WhoCanLose` | pkg/synchronizer/kubernetes/sync_appsubstatus.go:243-247 | some round of a subscription can take an object away if and only if the object is hosted by the name such rounds delete as, or by its twin: the name of the status for APPLY rounds, the subscription itself for purge and cleanup |
| `Rounds.SharedStatusTakesTheBases` | pkg/synchronizer/kubernetes/sync_appsubstatus.go:78-88 | where x-local is stored under x, an APPLY round of x-local can take away objects of x, which are not its own |
| `Rounds.ApplyRoundTracks` | pkg/synchronizer/kubernetes/sync_appsubstatus.go:205-317 | an APPLY round whose lookups fail with not-found only and whose status is written keeps every subscription tracked, those sharing its status and those whose objects it takes over included |
| `Rounds.ApplyTracksExactly` | pkg/synchronizer/kubernetes/sync_appsubstatus.go:205-317 | an APPLY round, whatever its templates and whatever fails, leaves a subscription tracked if and only if each of its objects is in the list that will be stored (a unit of the batch, or a dropped unit that was looked up), or, where that list is not written, in the old one or taken away |
| `Rounds.LookupErrorForgets` | pkg/synchronizer/kubernetes/synchronizer.go:93-99 | a round whose one dropped unit meets another lookup error: the object stays and is tracked no more |
| `Rounds.UnwrittenStatusForgets` | pkg/synchronizer/kubernetes/sync_appsubstatus.go:190-194 | a first round whose status cannot be written leaves the subscription tracked if and only if it has nothing to track |
| `Rounds.UpdateNeedsExactly` | pkg/synchronizer/kubernetes/synchronizer.go:516-525 | an update leaves another subscription with a new object to track if and only if an elevated merge takes the do-not-delete mark off that host's object |
| `Rounds.RemovalTracksExactly` | pkg/synchronizer/kubernetes/sync_appsubstatus.go:338-376 | a purge or cleanup that gives up a list leaves a subscription of that list tracked if and only if it takes away each of its objects: failed units are forgotten |
| `Rounds.RoundTracksExactly` | pkg/synchronizer/kubernetes/sync_appsubstatus.go:205-430 | after any round of any subscription on any sort of cluster, with any templates and any failing calls, everything is tracked if and only if the round is safe, a condition on stored units, hosts and failing calls |
| `Rounds.RunTracksExactly` | pkg/synchronizer/kubernetes/sync_appsubstatus.go:205-430 | everything is tracked at every point of any run if and only if all its rounds are safe |
| `Rounds.ApplyIsSafe` | pkg/synchronizer/kubernetes/sync_appsubstatus.go:205-317 | an APPLY round with tame templates, lookups that fail with not-found only and a written status is always safe |
| `Rounds.CleanupIsSafe` | pkg/synchronizer/kubernetes/sync_server.go:256-271 | a cleanup whose lookups fail with not-found only is always safe |
| `Rounds.PurgeIsSafe` | pkg/synchronizer/kubernetes/synchronizer.go:133-257 | a purge without errors that looks where the units are is safe when no other subscription shares the status |
| `Rounds.RunKeepsTracking` | pkg/synchronizer/kubernetes/sync_appsubstatus.go:205-317 | hence on a managed cluster every run of orderly rounds by any subscriptions keeps everything tracked |
| `Rounds.PurgeForgetsTheBase` | pkg/synchronizer/kubernetes/sync_appsubstatus.go:821-825 | where statuses are shared, purging x-local keeps x tracked if and only if x has nothing to track |
| `Rounds.MisplacedPurgeDeletesNothing` | pkg/synchronizer/kubernetes/synchronizer.go:151-184 | on a standalone controller or the local cluster's agent a purge of x-local looks for a status that is stored under x: it deletes nothing and gives up the list |
| `Rounds.ApplyPhaseIsSteps` | pkg/synchronizer/kubernetes/synchronizer.go:259-347 | the apply loop is a run of single writes |
| `Rounds.DeletePhaseIsSteps` | pkg/synchronizer/kubernetes/synchronizer.go:133-257 | so is the delete loop |
| `RepoTree.VisitsAreTheNodes` | pkg/utils/gitrepo.go:767-768 | the walk visits exactly the nodes of the tree, each found by the names that lead to it |
| `RepoTree.VisitedOnce` | pkg/utils/gitrepo.go:767-768 | no path is visited twice |
| `RepoTree.VisitedInOrder` | pkg/utils/gitrepo.go:767-768 | a directory comes before what it holds, and entries in their order |
| `RepoTree.BeneathIsLonger` | pkg/utils/gitrepo.go:786-812 | a path lies beneath another by its prefix if and only if the names of the other are the beginning of its own |
| `RepoTree.WalkSortsTheTree` | pkg/utils/gitrepo.go:762-829 | on every tree, over its nodes: the walk fails if and only if a file that is not ignored, not under .git and not beneath a chart or kustomization cannot be read; otherwise the recorded directories are the topmost charts and kustomizations, and the three lists hold those files by content, each once and in order |
| `RepoWalk.TreeIsPreorder` | pkg/utils/gitrepo.go:767-768 | the walk visits every well-formed tree in preorder: a directory before, and without interruption from, what lies below it |
| `RepoWalk.TopmostAbove` | pkg/utils/gitrepo.go:783-809 | whatever lies below a chart or kustomization lies below a topmost one |
| `RepoWalk.CurrentSuffices` | pkg/utils/gitrepo.go:786-813 | the single remembered directory answers whether the visit lies below any mark of its kind |
| `RepoWalk.FoldIsRight` | pkg/utils/gitrepo.go:762-826 | after every prefix of the visits: recorded directories, current directories and file lists are the declared ones |
| `RepoWalk.WalkIsDeclarative` | pkg/utils/gitrepo.go:762-829 | on every tree: the recorded directories are exactly the topmost non-ignored ones, the three lists hold exactly the files that are not ignored, not under .git and not below a recorded directory, in order; it fails exactly when such a file cannot be read |
| `RepoWalk.Sorter.OnVisit` | pkg/utils/gitrepo.go:768-826 | the callback on the mutable lists and current directories refines Callback |
| `RepoWalk.Sorter.Walk` | pkg/utils/gitrepo.go:767-828 | the recursive walk refines the fold over the preorder visits |
| `HookJobs.FindLastAnsibleJob` | pkg/controller/mcmhub/ansiblejob.go:56-115 | in whatever order jobs are listed, the result is the newest job of the hook, or none exactly when it has none; jobs of different hooks may share a creation time |
| `HookJobs.ChosenWaitsOnlyIfFinished` | pkg/controller/mcmhub/ansiblejob.go:149-237 | registration leaves a job to be created only when all earlier jobs of the hook are successful |
| `HookJobs.RegistersExactly` | pkg/controller/mcmhub/ansiblejob.go:149-237 | a registration leaves the new job if and only if the hook has none, or the newest is successful with another name, and there is a manual refresh, no variables, or target clusters that differ; otherwise the newest; other hooks are left alone |
| `HookJobs.AppliesExactly` | pkg/controller/mcmhub/ansiblejob.go:335-382 | applying creates exactly the instance's job, if there is none of its name |
| `HookJobs.StepKeepsInvariant` | pkg/controller/mcmhub/ansiblejob.go:149-237 | registration, also one that cannot list the jobs, application and success keep: all jobs of a hook successful but possibly the newest |
| `HookJobs.AtMostOneUnfinished` | pkg/controller/mcmhub/ansiblejob.go:335-382 | at most one unfinished job per hook in every run |
| `HookJobs.JobsFollowTheClusterList` | pkg/controller/mcmhub/ansiblejob.go:117-146 | without manual refresh consecutive jobs of a hook target different cluster lists, and there are at most one more than the changes of the list |
| `HookJobs.ChangedListIsTargeted` | pkg/controller/mcmhub/ansiblejob.go:222-230 | a list registered after a success and applied is targeted by the newest job |
| `HookJobs.OneJobPerChange` | pkg/controller/mcmhub/ansiblejob.go:149-237 | over every run of such cycles exactly one job for the first list and for each change of it, the newest on the latest list |
| `HookJobs.ForeignTemplateForgetsItsJobs` | pkg/controller/mcmhub/hook.go:573-577 | jobs are annotated with a template of the subscription's namespace, so a template of another namespace never finds its last job and every registration replaces the job |
| `HookJobs.ForeignTemplateRunsTwice` | pkg/controller/mcmhub/hook.go:573-577 | hence two registrations and applications leave two unfinished jobs of one hook: the namespace condition of the run theorem is needed |
| `HookJobs.JobRegistry.RegistryAnsibleJob` | pkg/controller/mcmhub/ansiblejob.go:149-237 | the update of the instance map refines the Register step, or the step that leaves an empty instance when listing fails |
| `HookJobs.JobRegistry.ApplyJobs` | pkg/controller/mcmhub/ansiblejob.go:335-382 | the loop is a run of ApplyHook steps for a prefix of the hooks, the whole list exactly when no error is returned; none for a subscription being deleted |
| `HookGate.IsJobsCompleted` | pkg/controller/mcmhub/ansiblejob.go:386-404 | complete means that every hook's current job is successful when every hook has an instance |
| `HookGate.CompleteIffDone` | pkg/controller/mcmhub/ansiblejob.go:386-404 | with instances and no errors: complete if and only if all current jobs are successful |
| `HookGate.DoneIs` | pkg/controller/mcmhub/ansiblejob.go:406-430 | a hook is done if and only if its instance has a name and a stored job of that key is successful |
| `HookGate.MissingInstancePasses` | pkg/controller/mcmhub/ansiblejob.go:388-391 | a hook without an instance lets the whole set pass in some iteration order |
| `HookGate.PassesInSomeOrder` | pkg/controller/mcmhub/ansiblejob.go:386-404 | some iteration order passes if and only if all jobs are done or a hook has no instance |
| `HookGate.CheckFailsIff` | pkg/controller/mcmhub/ansiblejob.go:398-400 | the check ends with an error if and only if a lookup fails for a hook that has only done ones before it |
| `HookGate.CreatingKeepsDone` | pkg/controller/mcmhub/ansiblejob.go:335-382 | creating further jobs takes no hook's success back |
| `HookGate.HubReconciler.Reconcile` | pkg/controller/mcmhub/mcmhub_controller.go:510-754 | a subscription is propagated if and only if it is remote with its channel found and, on Git, registered with all prehooks applied and checked complete; then, prehooks having instances, every prehook's job is successful. Posthooks are due if and only if the reconcile got there, changed nothing and the second read counts as complete; if nobody changed the subscription between the reads, only when its phase is not failed, the report shows clusters, none in progress and all deployed. A missing placement is dereferenced only if the subscription changed between the reads. The jobs' invariant is kept |
| `HookGate.HubReconciler.CheckPreHooks` | pkg/controller/mcmhub/mcmhub_controller.go:638-690 | propagation goes on if and only if all prehooks are applied and checked complete; passed without going on means exactly an error of the check |
| `HookGate.HubReconciler.FinalCommit` | pkg/controller/mcmhub/mcmhub_controller.go:829-970 | posthooks are due if and only if branch registration and prehooks passed, nothing of the subscription changed, and the second read counts as complete; without errors all of them are applied; the crash on a missing placement is given exactly |
| `HookGate.CompletesExactly` | pkg/controller/mcmhub/mcmhub_controller.go:760-820 | complete if and only if the subscription is gone, or read with a phase that is not failed and a placement, and local or with a report whose three numbers parse, clusters not zero, deployed + inProgress == clusters and inProgress <= 0; for sensible reports that is full deployment |
| `HookGate.CompleteWithoutReport` | pkg/controller/mcmhub/mcmhub_controller.go:760-820 | the subscription counts as complete without being fully deployed if and only if it is gone, or read with a phase that is not failed and the local flag |
| `HookGate.LocalFlagSkipsTheReport` | pkg/controller/mcmhub/mcmhub_controller.go:780-783 | at a placement both local and remote whose phase is repaired between the reads posthooks are due without any report |
| `HookGate.ReconcileKeepsInvariant` | pkg/controller/mcmhub/mcmhub_controller.go:626-690 | a whole reconcile, registrations included, keeps at most one unfinished job per hook |
| `HookGate.HubReconciler.RegisterHooks` | pkg/controller/mcmhub/mcmhub_controller.go:626-636 | the registrations of a reconcile are a run of Register steps |
| `References.DeleteOwner` | pkg/utils/reference.go:257-277 | the filtering loop removes exactly the subscription from the owners, in order |
| `References.ReferenceStore.WriteListed` | pkg/utils/reference.go:77-146 | one object is handled as its listed copy says: overwritten, released if unchanged, or deleted; an error changes nothing |
| `References.OthersChangeExactly` | pkg/utils/reference.go:77-171 | a write takes a reference of another subscription away if and only if that one came to refer to the object after it was listed (the overwrite of the referred object, or the deletion of one listed with no other owner), and gives one back if and only if it stopped to refer to it since |
| `References.ReferencesChangeExactly` | pkg/utils/reference.go:59-222 | in every run of other subscriptions, overlapping or not, no reference ever changes if and only if no list was outdated for it |
| `References.CountsSurviveEveryRun` | pkg/utils/reference.go:59-222 | labelled if and only if owned, at every point of every run of passes that overlap in any way and stop anywhere, as long as each works on what it listed at some time before |
| `References.ReferencesAreSafe` | pkg/utils/reference.go:59-222 | passes that do not overlap (each write meets the object as listed): no run of other subscriptions deletes an object that a subscription refers to, or gives it another one |
| `References.OverlappingUpdatesLoseOne` | pkg/utils/reference.go:92-102 | two deployments that listed the object before either wrote it: the first one's reference is lost |
| `References.LateDeletionTakesAnothers` | pkg/utils/reference.go:139-144 | an object listed as its own is deleted although another subscription has come to refer to it |
| `References.ReferenceStore.ListAndDeployReferredObject` | pkg/utils/reference.go:59-174 | a pass over its list, others writing in between, is a run of writes on that list, one for each object, and of the others' writes; one that is alone and meets no error leaves the referred object with the data, label and owner, gives up every old reference (released where others own it, deleted otherwise), and touches nothing else |
| `References.ReferenceStore.DeleteReferredObjects` | pkg/utils/reference.go:176-222 | likewise; alone and without errors exactly the objects with further owners are released, the others stay until they are collected, and nothing else is touched |
| `ManifestWorks.TrueKeyIsFaithful` | pkg/controller/mcmhub/propagate_manifestwork.go:50-54 | within a subscription's works the family key tells works apart |
| `ManifestWorks.FamiliesAreDisjoint` | pkg/controller/mcmhub/propagate_manifestwork.go:89-126 | no work is in the families of two subscriptions, although label and name are truncated or joined |
| `ManifestWorks.CreateProgress` | pkg/controller/mcmhub/propagate_manifestwork.go:128-212 | while works are created the family left to delete holds no work of a cluster already handled, under every pattern of failures |
| `ManifestWorks.NeverDeletesAPlacedWork` | pkg/controller/mcmhub/propagate_manifestwork.go:41-87 | under every pattern of failures a pass deletes no work of a placed cluster and changes nothing but its own family and keys |
| `ManifestWorks.CleanPassIsExact` | pkg/controller/mcmhub/propagate_manifestwork.go:41-212 | a pass without failures over distinct clusters leaves exactly one work per placed cluster, with the new content, if and only if no foreign work has the subscription's work name in a placed cluster |
| `ManifestWorks.PassServesExactly` | pkg/controller/mcmhub/propagate_manifestwork.go:128-212 | under every pattern of failures: the work of a placed cluster has the new content if and only if its call does not fail and there was none, or it is in the family, which is lost with the first cluster that fails or whose name a foreign work has; otherwise it is as before |
| `ManifestWorks.ExpiredGoesExactly` | pkg/controller/mcmhub/propagate_manifestwork.go:50-84 | under every pattern of failures: an own work of a cluster no longer placed goes if and only if its deletion succeeds and every placed cluster is in order |
| `ManifestWorks.OneFailureStopsUpdates` | pkg/controller/mcmhub/propagate_manifestwork.go:146-156 | one failing cluster keeps every later one from being updated |
| `ManifestWorks.LabelsFit` | pkg/controller/mcmhub/propagate_manifestwork.go:93 | the label is the dotted name, cut to 63 characters |
| `ManifestWorks.ForeignNameKeepsExpired` | pkg/controller/mcmhub/propagate_manifestwork.go:148-156 | otherwise no expired work of the subscription is deleted, in any pass |
| `ManifestWorks.JoinedNamesCollide` | pkg/controller/mcmhub/propagate_manifestwork.go:113-117 | a-b/c and a/b-c share a work name |
| `ManifestWorks.OthersAreUntouched` | pkg/controller/mcmhub/propagate_manifestwork.go:89-126 | whatever fails, works of other subscriptions stay as they are |
| `ManifestWorks.Propagator.GetManifestWorkFamily` | pkg/controller/mcmhub/propagate_manifestwork.go:89-126 | the loop over the listed works builds exactly the family |
| `ManifestWorks.Propagator.PropagateAppSubManifestWork` | pkg/controller/mcmhub/propagate_manifestwork.go:41-87 | the pass on the mutable store refines Propagated |
| `ManifestWorks.Propagator.DeleteAll` | pkg/controller/mcmhub/propagate_manifestwork.go:68-84 | deleting the expired works, in any order, refines DeleteExpired |
| `GitRegistry.StepKeepsValid` | pkg/controller/mcmhub/hub_git.go:169-236 | registration (clone succeeding or failing), deregistration and watch keep: registered subscriptions map to the repo holding them, no empty branch or repo; a deregistered subscription appears nowhere |
| `GitRegistry.StepHoldsExactly` | pkg/controller/mcmhub/hub_git.go:341-578 | who is registered where after each step, and in the records, exactly |
| `GitRegistry.StepRecordsExactly` | pkg/controller/mcmhub/hub_git.go:341-529 | the commit, options and URL recorded after each step, exactly |
| `GitRegistry.RepoNamesMayMeet` | pkg/controller/mcmhub/hub_git.go:331-335 | two subscriptions may share a repository name |
| `GitRegistry.RegistryStaysValid` | pkg/controller/mcmhub/hub_git.go:341-578 | the registry stays valid over every run |
| `GitRegistry.SharedRepoSurvives` | pkg/controller/mcmhub/hub_git.go:550-578 | deregistering keeps the other subscriptions of a shared repo name on their branches |
| `GitRegistry.PartlyStep` | pkg/controller/mcmhub/hub_git.go:567-577 | every turn of the deregistration loop finds the repo and the branch it reads, and removes just what is empty |
| `GitRegistry.HubGitOps.RegisterBranch` | pkg/controller/mcmhub/hub_git.go:341-529 | refines Register and keeps the registry valid |
| `GitRegistry.HubGitOps.DeregisterBranch` | pkg/controller/mcmhub/hub_git.go:550-578 | refines Deregister; afterwards the subscription appears in no record |
| `GitRegistry.HubGitOps.RemoveFromBranches` | pkg/controller/mcmhub/hub_git.go:567-577 | the loop over the branches, in any order, never reads a removed entry and ends with the branches that still have subscriptions |
| `GitRegistry.HubGitOps.WatchBranch` | pkg/controller/mcmhub/hub_git.go:169-236 | a new commit is recorded on a branch that exists and written to the annotation of exactly the branch's subscriptions whose write succeeds |
| `GitRegistry.AnnouncedOnce` | pkg/controller/mcmhub/hub_git.go:205-233 | a new commit is announced to exactly the branch's subscriptions, once: the next watch tells none, also those whose write failed |
| `GitRegistry.HubGitOps.UpdateCommitAnnotations` | pkg/controller/mcmhub/hub_git.go:223-233 | the loop over the subscriptions, in any order, sets exactly the annotations that can be written |
| `Reports.FindSource` | pkg/synchronizer/kubernetes/sync_appsubstatus.go:589-598 | the search loop finds the first result of the source or none |
| `Reports.ChangeIsLocal` | pkg/synchronizer/kubernetes/sync_appsubstatus.go:541-692 | update, delete and propagation failure keep one result per source, leave other sources alone and set or remove their own |
| `Reports.ReportStaysUnique` | pkg/utils/policyreport.go:29-68 | one result per source after every sequence of changes |
| `Reports.ReportStore.UpdateResult` | pkg/synchronizer/kubernetes/sync_appsubstatus.go:541-623 | the update of a result in place refines Changed |
| `Reports.ReportStore.DeleteResult` | pkg/synchronizer/kubernetes/sync_appsubstatus.go:625-692 | so does the deletion |
| `Reports.ReportStore.CreateFailedResult` | pkg/utils/policyreport.go:29-68 | so does the record of a failed propagation, which leaves an existing result alone |
| `Reports.ReportCountsOnce` | pkg/controller/appsubsummary/appsubsummary_controller.go:168-210 | a cluster report adds one to exactly the counter of the phase it holds for the subscription |
| `Reports.CountsAreReports` | pkg/controller/appsubsummary/appsubsummary_controller.go:168-210 | Deployed, Failed and PropagationFailed are the numbers of cluster reports that say so |
| `Reports.ClustersAreListed` | pkg/controller/appsubsummary/appsubsummary_controller.go:168-210 | the clusters listed for a subscription, with their phases, are exactly those whose report has it; keys that do not parse are passed over |
| `Reports.ParsesIs` | pkg/utils/subscription.go:1156-1165 | a key parses if and only if it has exactly one slash and more than that |
| `Reports.AtMostOnePerReport` | pkg/controller/appsubsummary/appsubsummary_controller.go:168-210 | the three counts together are at most the number of reports |
| `Reports.OrderDoesNotMatter` | pkg/controller/appsubsummary/appsubsummary_controller.go:102-166 | the counts do not depend on the order of the reports |
| `Reports.SummaryConserves` | pkg/controller/appsubsummary/appsubsummary_controller.go:444-473 | each field is the count of its phase; with InProgress the counts sum to Clusters if and only if the counted total is at most Clusters; InProgress is never negative |
| `Reports.Aggregator.UpdateAppSubMapsPerCluster` | pkg/controller/appsubsummary/appsubsummary_controller.go:168-210 | the loop over a report's results refines AddResults on the status map |
| `Reports.Aggregator.GenerateAppSubSummary` | pkg/controller/appsubsummary/appsubsummary_controller.go:102-166 | the loop over all reports refines Aggregate |
| `Views.FirstFailingCluster` | pkg/controller/appsubsummary/appsubsummary_controller.go:226-242 | none exactly when no cluster fails, otherwise the alphabetically first failing one |
| `Views.LexLeqIs` | pkg/controller/appsubsummary/appsubsummary_controller.go:226-242 | the order of the clusters is alphabetical |
| `Views.RefreshStep` | pkg/controller/appsubsummary/appsubsummary_controller.go:218-253 | handling one more application keeps the count of views and every earlier application's view right |
| `Views.ViewRefresher.RefreshOne` | pkg/controller/appsubsummary/appsubsummary_controller.go:224-252 | one application ends with just the view on its first failing cluster, or with none beyond the limit |
| `Views.ViewRefresher.RefreshManagedClusterViews` | pkg/controller/appsubsummary/appsubsummary_controller.go:212-254 | for every iteration order exactly min(50, failing applications) of them have a view, each just one on its first failing cluster; other applications' views stay |
| `RequestName.LastIndex` | pkg/controller/mcmhub/mcmhub_controller.go:994-997 | the last occurrence, or negative exactly when there is none |
| `RequestName.DecodeSplits` | pkg/controller/mcmhub/mcmhub_controller.go:527-533 | decoding cuts the request at the last flag |
| `RequestName.FlagHasNoBorder` | pkg/controller/mcmhub/mcmhub_controller.go:104 | no proper prefix of the flag equals a suffix |
| `RequestName.LaterFlagIsInVersion` | pkg/controller/mcmhub/mcmhub_controller.go:992-1006 | an occurrence behind the inserted flag lies wholly in the version |
| `RequestName.RequestRoundTrip` | pkg/controller/mcmhub/mcmhub_controller.go:316-317 | for every name, even one with the flag in it, decoding gives name and version back if and only if the version does not contain the flag |
| `RequestName.DecodedRequestEncodes` | pkg/controller/mcmhub/mcmhub_controller.go:527-533 | every fired request is the encoding of what it decodes to |
| `RequestName.RequestsAreDistinct` | pkg/controller/mcmhub/mcmhub_controller.go:316-317 | requests of different subscriptions or versions differ |
| `RequestName.PlainRequest` | pkg/controller/mcmhub/mcmhub_controller.go:527-533 | a request that no decision fired keeps its name if and only if the name has no flag in it |

## Left out

- TimeWindows.NextStartPoint: promises nothing for hour lists whose merging is not exact, because the code then works on other hours than the user wrote; time zones, daylight saving, unparsable hours, a missing window and the seconds of the current minute are not modelled.
- TimeWindows.GenerateNextPoint: promises nothing for slots out of order, which only an inexact merge yields.
- Requeue.IsInWindow: promises nothing for hour lists whose merging is not exact, as above.
- Requeue.NextStatusReconcile: promises nothing for hour lists whose merging is not exact, as above.
- TimeWindows.DurationToNextRunableWeekday: sorts a copy; that the source sorts the caller's slice in place is not captured.
- Rounds.RunKeepsTracking: for clusters where statuses are not shared and rounds that meet no errors; the exact condition for all others is stated by Rounds.RunTracksExactly.
- Rounds.ApplyRoundTracks: for lookups that fail with not-found only, a written status, and templates that name no host and, if elevated, carry no do-not-delete annotation; Rounds.ApplyTracksExactly states the exact condition for all others.
- Tracking.ApplyKeepsTracking: for lookups that fail with not-found only and a written status; Rounds.ApplyTracksExactly states the exact condition for all others.
- Synchronizer.KubeSynchronizer.ProcessSubResources: does not model the returned error and failOnStatusErr, which only read the stored phase.
- Synchronizer.KubeSynchronizer.SyncApply: does not model the HelmRelease shortcuts and legacy unit statuses.
- Synchronizer.KubeSynchronizer.PurgeAllSubscribedResources: does not model legacy unit statuses and SkipAppSubStatusResDel.
- HookJobs.FindLastAnsibleJob: two jobs of one hook created within the same second are not modelled.
- HookJobs.JobRegistry.ApplyJobs: does not model another process creating the job between lookup and creation.
- Reports.ReportStore.UpdateResult: does not model the lookup of the hosting subscription on a standalone controller, nor API errors, which leave the report as it is.
- Reports.ReportStore.DeleteResult: does not model the lookup of the hosting subscription on a standalone controller, nor API errors, which leave the report as it is.
- Views.ViewRefresher.RefreshOne: assumes successful calls, and view names and labels that do not collide.
- Views.ViewRefresher.RefreshManagedClusterViews: assumes successful calls, and view names and labels of different applications that do not collide.
- References.ReferenceStore.DeleteReferredObjects: collection of an object left with its last owner is the separate Collect step.
- Package overrides, labels and admission of a template; authorization of cluster-admin templates is an input.
- Deletion of a namespace's contents by the API server; update conflicts other than those of referred objects.
- Cleanup of ManifestWorks by truncated label (`cleanupManifestWork`) and of cluster statuses (`cleanupAppSubStatus`).
- Parsing of YAML and JSON, ignore files, kustomize builds, label selectors, REST mapping: their results are inputs.
- Git, Helm, object-store and HTTP access, webhooks, managers, options, metrics: I/O without a hard property.
