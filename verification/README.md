# Grass control plane: verified model

Grass deploys projects to build and serve nodes. Its control plane keeps the tables of deployments, nodes, node
deletion jobs, releases, quota events, process leases and certificates, and changes them in database transactions.
This project models those transactions, and the quota cache and text rules beside them, and proves what every
run of them keeps.

Each transaction is one atomic step. The control plane serialises placement with one lock and locks most rows before it
changes them. What it reads without a lock, or before the transaction, is an input of the step and may be outdated: the
status a node had when it authenticated, the build status a build report was checked against, the build and release
status a promotion was decided on, the counter row a quota recorder found, the leases and hours an acquisition counted, and
the clock of a lease operation. A *run* is any sequence of steps with any such inputs, so a statement about every run covers
every interleaving of any number of deletion jobs, releases, reports, heartbeats, workers and clients. Identifiers are
positions in the tables, and time is a parameter.

Each part has the same layout: functions say what a transaction does to the tables (`ControlPlane.Step`,
`SsrLeases.Step`, `Certificates.Step`, ...), a class does the same by assignments and loops in the order of the code and is
proved to agree with the function, and lemmas prove what all runs keep. Bulk updates and counts are loops over the rows;
the query for scheduler candidates is a function.

- `Basics`: options, results, finite sums.
- `Lifecycle`, `Scheduler`, `Delivery`, `ControlPlane`: deployments, placement, delivery and node deletion as functions.
- `Transactions`: the same transactions as methods of a class over mutable tables, with commit and rollback.
- `Handlers`, `NodeHandlers`, `Placements`, `Copies`: what each of them answers and writes, on the rows of the tables: which
  error for which cause, which node the scheduler grants, what a pass over a deletion job does.
- `Effects`, `Evacuation`, `NodeSafety`, `Copies`, `Assignments`, `Capacity`, `CapacityRuns`, `ReleaseInvariants`, `ReleaseFlow`,
  `ReleaseTimeline`, `ReviewGate`: what all runs keep, or exactly which runs keep it. `ExampleRuns`, `EvacuationRuns`,
  `CopyRuns`, `ReviewRuns`: the runs that do not.
- `Quotas`, `SsrLeases`, `SsrLeaseRuns`, `SsrLimits`, `SsrHours`: the event ledger, the process leases, what they are charged,
  their two limits and their counter. `SsrRuns`: the runs that exceed or miscount them.
- `CacheText`, `CounterCache`, `TokenBucket`: the two cache backends.
- `Certificates`, `Retries`: issuance under leases and generations, and the rest after a failure.
- `HostNames`: slugs, host names and the hosts derived from them.

`dafny verify dfyconfig.toml` checks everything.

## What turned out different from the documentation

- Under constant manual review a deployment can be published without an approved review, in two ways. A team can withdraw
  a deployment whose review is still open; the withdrawal moves it from PendingReview to Approved
  (`publication_removal_target` with `can_transition_release`), and then it can be promoted (`ReviewRuns.WithdrawalPublishes`).
  And a promotion decides on a row it read before its transaction, so a handler that saw an approved deployment releases
  one that has become a draft again (`ReviewRuns.LatePromotionPublishes`). Every published deployment was approved since
  it was last a draft, in every state of a run, if and only if no transaction of the run published a draft or a deployment
  that had left its review without a decision (`ReviewGate.ManualReviewGate`); both guards speak of the row and its log
  before the transaction. Without those withdrawals and late promotions it always was (`ReviewGate.ActiveMeansReviewed`).
- A release that waits for its node is lost for good when its deployment is submitted to review meanwhile: the report that
  would complete it fails, and so does every review, withdrawal and further release of the environment
  (`ReviewRuns.StrandingIsForever`, `ReleaseFlow.StrandedForever`). It needs a change of the review mode or a late handler;
  the exact condition is in `ReleaseFlow.WaitingStaysReleasable` and `ReleaseFlow.ConstantModeStrandsNothing`.
- A heartbeat or registration writes the status that follows from the one its node had when it authenticated. A late one makes a
  Draining or deleted node Active again, and the deletion job can then delete a node with a live deployment
  (`EvacuationRuns.RevivalDeletesInUse`). The exact conditions are in `NodeSafety.DeletedNodesIdleExactly` and
  `NodeSafety.UnfinishedJobsDrain`. As to causes: in *orderly* runs, without late heartbeats, registrations and build reports,
  deleted nodes are always idle (`Evacuation.DeletedNodesAreIdle`). A late heartbeat or registration alone is enough for a
  failure, and so is a late build report alone (`EvacuationRuns.LateReportBuildsOnDeleted`).
- A pass over a deletion job counts a deployment that ended or was retired as copied, and never looks again. When a late build
  report or a late heartbeat lets such a deployment come back to the node, the cutover moves it to a target that reported no copy
  of it (`CopyRuns.UncopiedIsMoved`). Over a run, everything a job counts as copied and that is still on its node was reported
  ready by the target since the job was begun, if and only if no transaction brings a deployment back to a node it had left
  (`Copies.CopiesReportedExactly`); in orderly runs none does (`Copies.OrderlyCutoversMoveCopies`).
- A report that a build is queued or running is checked against a row read before its transaction, so a late one puts a canceled
  build back in progress (`ReviewRuns.CanceledBuildRestarts`; exact condition: `ReleaseInvariants.ReleasesStayConsistent`).
- An artifact upload compares the new size with the live assignments of the deployment's own node only. It ignores what
  deletion jobs have reserved there and the node the deployment is about to be moved to. Over an orderly run, assignments plus
  reservations stay within capacity if and only if every accepted upload fitted everywhere
  (`CapacityRuns.CapacityThroughout`). What is assigned by itself stays within capacity over any run if and only if every
  cutover fitted its target and every restarted build its node (`Assignments.AssignedThroughout`; a run that shows it:
  `EvacuationRuns.EvacuationOverfills`).
- A quota recorder reads a counter without a lock and writes an absolute value, and the unique index does not see a second row
  of a counter that is not monthly. Two recorders at once lose an update (`Quotas.ConcurrentRecordersLose`). Every counter is
  the fold of its recorded deltas over a run if and only if no recorder wrote an outdated value (`Quotas.CountersAreFolds`).
- An acquisition counts the team's live leases without a lock, and reads the clock before its transaction, as a renewal does. Two
  acquisitions at once exceed the process limit, and so does a renewal that commits after its lease expired
  (`SsrRuns.AcquisitionsOverfill`, `SsrRuns.LateRenewalOverfills`). The limit holds over a run if and only if no acquisition opens
  a lease for a full team and no late renewal revives one (`SsrLimits.ProcessLimitExactly`).
- The hours of a month are read without a lock too, and hours that are due are not among them. The hours charged to a team in a
  month stay within its limit over a run if and only if no acquisition or renewal begins an hour when the month is full as it
  commits, and no hour of another month is recorded in a full one (`SsrHours.HourLimitExactly`); so they do when the hours are
  read as they are then (`SsrHours.HoursHoldInTime`). Hours that wait to be recorded are enough to exceed it
  (`SsrRuns.DueHoursAreMissed`).
- The events of a lease are recorded after it is committed. A release that is recorded before the beginning of its lease is
  swallowed by the clamp at zero and leaves the process counter too high (`SsrRuns.ReleaseFirstMiscounts`); the exact value is
  in `SsrLimits.ProcessCounterExactly`. The hours charged never suffer (`SsrLeaseRuns.LeasesAreChargedExactly`), except that a
  renewal with a time from before the block of its lease leaves it charged for an hour it had not begun then
  (`SsrLeaseRuns.BlocksFollowRenewals`, `SsrRuns.OvertakenRenewalOvercharges`).
- `check_and_consume` compares each amount with its limit alone, so a key that is repeated in one request can pass its
  limit (`CounterCache.RepeatedKeyLimit`, `CounterCache.RepeatedKeyOverruns`).
- A check with a time-to-live moves the expiry of an existing counter in the in-process backend and not in Redis
  (`CounterCache.MokaMovesExpiry`, `CounterCache.RedisKeepsExpiry`).
- The in-process token bucket can forget too early. It keeps a bucket for twice the period in whole seconds, and one second
  less when a second begins between its two readings of the clock. That is unobservable if and only if the period is one
  second or at least one and a half (`TokenBucket.MokaForgettingIsUnobservable`), so for every period of whole seconds.
- `normalize_host` strips every trailing dot; its comment says one. The model follows the code.
- The cap of one day in `retry_delay` is never reached (`Certificates.RetryDelays`).

## Model

| member | source | states |
|---|---|---|
| NodeSafety.DeletedNodesIdleExactly | apps/control-api/src/domain/node_deletions.rs:495-702 | over every run, deleted nodes have no live deployment and no running build in all states if and only if no transaction restarts a build of a deleted node, moves a deployment to one, or deletes a node with something live that it does not move |
| NodeSafety.StepDecidesIdle | apps/control-api/src/domain/node_deletions.rs:628-699 | the same for one transaction |
| Evacuation.DeletedNodesAreIdle | apps/control-api/src/domain/node_deletions.rs:495-702 | in every state of an orderly run a deleted node has no live deployment assigned and no claimed, queued or running build |
| NodeSafety.UnfinishedJobsDrain | apps/control-api/src/domain/nodes.rs:33-39 | over every run, the nodes of unfinished deletion jobs are Draining in all states if and only if no heartbeat or registration that saw such a node in another status was written while its job was unfinished |
| EvacuationRuns.LateReportBuildsOnDeleted | apps/control-api/src/features/api/v1/internal/deployments/by_deployment_id/stage.rs:206-213 | a run of ten transactions, with one late build report and no late heartbeat, after which a build runs on a deleted node |
| EvacuationRuns.RevivalDeletesInUse | apps/control-api/src/domain/nodes.rs:334-354 | a run of seven transactions, with one late heartbeat, after which a deleted node has a live deployment |
| Evacuation.StepKeeps | apps/control-api/src/domain/node_deletions.rs:243-342 | every transaction that is not overtaken keeps: each live deployment on the node of a running job has a migration row, none is left once the job counts all as migrated, one unfinished job a node, rows only of existing deployments, all rows of a failed job failed |
| Evacuation.PassEffect | apps/control-api/src/domain/node_deletions.rs:495-702 | in any state a pass moves routes exactly when every listed deployment that is still live already had a ready row, some are left to migrate and the target is available; it deletes the node exactly in its last phase with no build running |
| Copies.PassGivesUp | apps/control-api/src/domain/node_deletions.rs:361-418 | a pass fails the job and all its rows when the target is gone with some left to move, or when a live deployment without a ready row has a failed one or an artifact that is not valid; nothing else changes |
| Copies.PassWaits | apps/control-api/src/domain/node_deletions.rs:543-625 | while a live deployment still has no ready row a pass moves nothing and deletes nothing: it keeps the row of each such deployment, settles the rows of ended and retired ones, and counts them |
| Copies.PassProceeds | apps/control-api/src/domain/node_deletions.rs:596-702 | otherwise it moves exactly the listed live deployments of the source, makes every row ready, goes on to Draining while builds run and to Deleting without, and deletes the node from there |
| Copies.CopiesReportedExactly | apps/control-api/src/domain/node_deletions.rs:543-587 | over every run, each deployment that a running job counts as copied and that is still on its node was last reported ready by the target since the job was begun, in all states, if and only if no transaction brings one back to a node it had left |
| Copies.StepDecidesUncopied | apps/control-api/src/features/api/v1/internal/serve/deployments/by_deployment_id/status.rs:121-170 | the same for one transaction |
| Copies.OrderlyCutoversMoveCopies | apps/control-api/src/domain/node_deletions.rs:445-493 | in an orderly run every deployment a pass moves was reported ready by the target, for that job, since the job was begun |
| Copies.ReportWritesRow | apps/control-api/src/features/api/v1/internal/serve/deployments/by_deployment_id/status.rs:121-170 | a report of a capable target on a deployment its job lists writes that row, ready only for a ready report, and nothing else |
| CopyRuns.UncopiedIsMoved | apps/control-api/src/features/api/v1/internal/deployments/by_deployment_id/stage.rs:206-213 | a run of sixteen transactions, with two late build reports, after which the next pass moves a deployment of which no copy was reported |
| Evacuation.SwitchVacates | apps/control-api/src/domain/node_deletions.rs:445-493 | the cutover leaves nothing live on the source, moves exactly its live deployments to the target, and changes no other row |
| Evacuation.EnqueueAccepts | apps/control-api/src/domain/node_deletions.rs:249-268 | a deletion is accepted exactly for an existing node that no running job empties, with an eligible target when anything is live on it |
| Evacuation.EnqueueLists | apps/control-api/src/domain/node_deletions.rs:265-322 | one new or reopened job then lists exactly the live deployments of the node, all still to be copied, the node drains, nothing else changes |
| Evacuation.DrainedJobDeletesItsNode | apps/control-api/src/domain/node_deletions.rs:628-699 | from every state of an orderly run two passes over a job with nothing left to copy or build delete its node |
| Capacity.CandidateCanHostMeans | apps/control-api/src/domain/node_deletions.rs:98-141 | the checked 64-bit folds decide exactly whether usage plus everything on the source stays within the regular limits of the candidate |
| Capacity.StepKeepsCapacity | apps/control-api/src/domain/scheduler.rs:27-74 | every transaction but an upload or an overtaken one keeps assignments plus reservations of each node within its disk and two over its deployment limit |
| Capacity.CommittedAtMostScheduled | apps/control-api/src/domain/scheduler.rs:48-62 | the usage the scheduler queries never undercounts what is assigned or will be moved to a node |
| CapacityRuns.UploadExactly | apps/control-api/src/features/api/v1/internal/deployments/by_deployment_id/static_site.rs:138-157 | an accepted upload keeps the capacity invariant if and only if the artifact fits on its own node and on the node its deletion job moves it to |
| CapacityRuns.CapacityThroughout | apps/control-api/src/features/api/v1/internal/deployments/by_deployment_id/static_site.rs:291-345 | over every orderly run, assignments plus reservations are within capacity in all states if and only if every accepted upload fitted everywhere the deployment was or would be |
| CapacityRuns.NodesNeverOverfull | apps/control-api/src/domain/scheduler.rs:174-178 | over every orderly run whose uploads fitted, the disk and the number of the deployments assigned to a node stay within its disk and two over its limit |
| Assignments.AssignedThroughout | apps/control-api/src/domain/node_deletions.rs:445-493 | over every run, what is assigned to each node stays within its disk and two over its limit in all states if and only if every cutover fitted its target and every restarted build its node |
| Assignments.StepDecidesAssigned | apps/control-api/src/domain/scheduler.rs:27-74 | the same for one transaction: placements and uploads never break it |
| Assignments.SwitchedUsage | apps/control-api/src/domain/node_deletions.rs:455-476 | a cutover adds to the target exactly what it takes from the source, and changes no other node |
| Assignments.CutoverMovesAll | apps/control-api/src/domain/node_deletions.rs:445-493 | in an orderly run a cutover takes everything assigned to the source |
| EvacuationRuns.EvacuationOverfills | apps/control-api/src/features/api/v1/internal/deployments/by_deployment_id/static_site.rs:326-343 | a run of thirteen transactions after which a node of 600 MB is assigned 756 MB |
| Scheduler.FitsMeans | apps/control-api/src/domain/scheduler.rs:156-172 | saturating sums and ratios decide exactly whether a deployment fits all four resources |
| Scheduler.ChooseLowestRandom | apps/control-api/src/domain/scheduler.rs:281-305 | the loop over minimum and ties returns a candidate of minimal dominant ratio, and none only when there is none |
| Scheduler.ChooseCandidate | apps/control-api/src/domain/scheduler.rs:225-279 | the result is the lowest fitting candidate, else the lowest with an overflow slot, or the selected node; each error is returned exactly when its cause holds, for a selected node that of its first candidate |
| Scheduler.ChooseCandidateInRegion | apps/control-api/src/domain/scheduler.rs:202-223 | the choice never leaves the region; the region error is returned exactly when no candidate is in it |
| Placements.PlacementExactly | apps/control-api/src/domain/scheduler.rs:225-318 | the scheduler can return a placement if and only if it names a serving node of the region with the disk and a place, marked overcommitted exactly when the node lacks one of the four beside all it carries and expects; the selected node, or one under the least pressure among those with all four, or, when there are none, among those with disk and a place |
| Placements.ScheduledIsLoad | apps/control-api/src/domain/scheduler.rs:27-74 | for each resource the query counts every live deployment of a node once, and once more for every migration row that will bring it there |
| Placements.NoPlaceExactly | apps/control-api/src/domain/scheduler.rs:225-279 | there is no place exactly when each serving node of the region lacks the disk or a place |
| Placements.CreationWithinCapacity | apps/control-api/src/domain/scheduler.rs:156-172 | a created deployment that is not marked overcommitted leaves all four loads of its node, assigned and reserved, within capacity |
| Placements.RequestWithinCapacity | apps/control-api/src/domain/delivery.rs:377-433 | so does a release request that brings a deployment back to a node |
| Placements.TargetExactly | apps/control-api/src/domain/node_deletions.rs:98-190 | a node can take over from another exactly when it is another one that serves and has all four for everything the source carries beside what it carries and expects itself |
| Scheduler.PlacementRespectsCapacity | apps/control-api/src/domain/scheduler.rs:174-178 | any placement leaves the node within its disk and two over its limit, and within all limits unless it is marked overcommitted |
| Delivery.DesiredDeliveryIds | apps/control-api/src/domain/delivery.rs:88-134 | the set, sort, pop and reverse search compute the declarative set: in progress, waiting release, published production, last deliverable build, last serving build |
| Delivery.ReconciledExactly | apps/control-api/src/domain/delivery.rs:88-134 | row by row, reconciling takes from their nodes exactly the ended builds of the environment that are neither waiting, published in production, the newest ready build with a node or a waiting release, nor the newest served one |
| Delivery.EffectivePreviewExactly | apps/control-api/src/domain/delivery.rs:136-143 | the preview host shows exactly the newest ready build, if it is served |
| Delivery.EffectivePreviewIsDesired | apps/control-api/src/domain/delivery.rs:136-143 | the deployment behind the preview host is always desired |
| Delivery.ReconcileKeepsDesired | apps/control-api/src/domain/delivery.rs:271-324 | recomputing the desired set after reconciling gives the same set |
| Delivery.ReconcileIdempotent | apps/control-api/src/domain/delivery.rs:287-321 | reconciling twice is reconciling once |
| Delivery.ReconcileLeavesExactlyDesired | apps/control-api/src/domain/delivery.rs:287-321 | the desired deployments keep their rows, every other finished deployment of the environment loses its node, no other row changes |
| Delivery.ReconcileNeverGoesDark | apps/control-api/src/domain/delivery.rs:85-87 | an environment that served a ready build still serves the newest one that was serving |
| Delivery.AtMostFourFinished | apps/control-api/src/domain/delivery.rs:287-321 | with one Active and one waiting release, at most four finished builds stay assigned |
| ReleaseInvariants.ActivateExactly | apps/control-api/src/domain/deployments.rs:640-703 | activation succeeds exactly for ready, served drafts and approved deployments; the target becomes Active, the Active one of its environment is demoted and named in the release row, nothing else changes |
| ReleaseInvariants.ReleasesStayUnique | apps/control-api/src/domain/delivery.rs:355-482 | in every reachable state: one Active and one waiting release an environment, Retired exactly without a node, a waiting release never without one |
| ReleaseInvariants.ReleasesStayConsistent | apps/control-api/src/features/api/v1/internal/deployments/by_deployment_id/stage.rs:206-213 | over every run, in all states only ready builds are Active or waiting, waiting, published and running ones are not Retired, and stopped ones are, if and only if no late report restarted a build in use and no late handler queued an unready one |
| ReviewRuns.CanceledBuildRestarts | apps/control-api/src/features/api/v1/internal/deployments/by_deployment_id/stage.rs:206-213 | a run of seven transactions after which a canceled build runs again without a node |
| ReleaseInvariants.ReconciledMeansAssigned | apps/control-api/src/domain/delivery.rs:273-324 | after reconciling a reachable state the assigned deployments are the desired ones that had a node, and all desired ones when nothing acted on a changed build |
| ReleaseInvariants.ProcessJobRows | apps/control-api/src/domain/node_deletions.rs:460-476 | a pass over a job changes only the node and the overcommitted flag of live deployments of its source |
| ReleaseFlow.RequestOutcome | apps/control-api/src/domain/delivery.rs:355-433 | a granted request publishes a served deployment with its reason, or queues it with that reason on a node that reconciling leaves alone |
| ReleaseFlow.QueuedReleaseCompletes | apps/control-api/src/domain/deployment_activation.rs:168-221 | the report that a waiting deployment is served succeeds if and only if a capable node sends it, the build is ready and the release is Draft or Approved; then it publishes it with the reason it was queued with, and clears it |
| Handlers.ServedWithoutRelease | apps/control-api/src/domain/deployment_activation.rs:168-221 | the report that a deployment without a waiting release is served commits exactly from a capable node with a ready build; it publishes the deployment, for the reason Auto, if and only if the review is automatic and the release is a draft, and otherwise writes no release row and changes no release status |
| Handlers.ServedWhileWaiting | apps/control-api/src/domain/delivery.rs:435-482 | for a waiting deployment it writes exactly the rows of its publication with the reason that waited, and ends the waiting |
| Handlers.ReportAnswers | apps/control-api/src/features/api/v1/internal/serve/deployments/by_deployment_id/status.rs:86-209 | each error of a serve report is returned exactly for its cause: an unknown, incapable or foreign node, a status nodes do not report or an unfinished build, a status the present one does not lead to |
| Handlers.RequestAnswers | apps/control-api/src/domain/delivery.rs:355-433 | a release request is refused exactly while a release of the environment waits; a served deployment is published exactly with a ready build as a draft or when approved, any other queued exactly when it has a node or is granted one in its region |
| Handlers.RequestWrites | apps/control-api/src/domain/delivery.rs:377-433 | a granted request writes the rows of a publication, or the waiting release on its old or granted node, and reconciles the environment |
| Handlers.ReviewDecision | apps/control-api/src/features/api/v1/admin/deployments/by_deployment_id/review/approve.rs:55-261 | a review is decided exactly while it is open and the artifact can be looked at; a rejection writes only that, an approval also requests the release |
| Handlers.RepublicationDecision | apps/control-api/src/features/api/v1/admin/deployments/by_deployment_id/republish.rs:98-210 | what is under review or Active is refused, what manual review has not approved is submitted, everything else requested, a rejected one after a resubmission and an approval |
| Handlers.RemovalExactly | apps/control-api/src/domain/delivery.rs:217-269 | a team leaves a withdrawn deployment approved, an administrator a draft; it succeeds exactly for Active ones, open reviews of a team, and what was withdrawn before, takes the node and the waiting release, and reconciles |
| Handlers.FinalizeExactly | apps/control-api/src/features/api/v1/internal/deployments/by_deployment_id/stage.rs:369-437 | a build is reported ready exactly while it runs or again, and the rows that result |
| Handlers.UnsuccessfulExactly | apps/control-api/src/domain/delivery.rs:328-353 | a build fails or is canceled exactly until it ends, and gives up its node unless it is waiting or published in production |
| ReleaseFlow.WaitingStaysReleasable | apps/control-api/src/domain/deployment_activation.rs:69-90 | over every run, every waiting release is Draft or Approved in all states if and only if no waiting draft was submitted to review and no late handler queued a deployment that was neither |
| ReleaseFlow.StepDecidesWaiting | apps/control-api/src/features/api/v1/internal/deployments/by_deployment_id/stage.rs:369-437 | the same for one transaction, and under timely manual review waiting releases stay Approved |
| ReleaseFlow.ConstantModeStrandsNothing | apps/control-api/src/domain/deployment_activation.rs:154-166 | with one review mode and handlers that act on the current release status, every waiting release stays Draft or Approved |
| ReleaseFlow.StrandedForever | apps/control-api/src/domain/delivery.rs:366-376 | a release that waits in review or rejected, without being served, stays so after any transactions, and its environment answers every other release that one is pending |
| ReviewRuns.StrandingIsForever | apps/control-api/src/domain/deployment_activation.rs:69-90 | a run of nine transactions, with one change of the review mode, after which that is so |
| ReleaseFlow.WithdrawalActivatesNothing | apps/control-api/src/domain/delivery.rs:217-269 | removing a publication unassigns its deployment, writes no release row and never activates another deployment |
| Handlers.ReleaseOrigins | apps/control-api/src/domain/deployments.rs:54-86 | whence each release status is reached, and with which build and serve status |
| NodeHandlers.UploadAnswers | apps/control-api/src/features/api/v1/internal/deployments/by_deployment_id/static_site.rs:291-345 | an upload is accepted exactly when its node serves and has the disk beside the other deployments it carries |
| Lifecycle.ActivationNeedsReadiness | apps/control-api/src/domain/deployments.rs:138-179 | a deployment can become Active exactly from Draft or Approved with a ready build and a ready artifact |
| ReleaseTimeline.ReleasesAreATimeline | apps/control-api/src/domain/deployments.rs:689-700 | in every reachable state the last release row of an environment names its Active deployment, and each row names, if anything, the deployment of the row before it |
| ReviewGate.StepDecidesGate | apps/control-api/src/domain/delivery.rs:58-63 | one transaction under manual review keeps every published deployment reviewed if and only if it publishes neither a draft nor a deployment that left its review undecided, and exactly a withdrawal of an open review leaves one undecided |
| ReviewGate.ManualReviewGate | apps/control-api/src/domain/deployment_activation.rs:154-166 | over every run under manual review, each published deployment was approved since it was last a draft in all states if and only if no transaction published a draft or a deployment that left its review undecided |
| ReviewGate.ActiveMeansReviewed | apps/control-api/src/domain/deployment_activation.rs:26-60 | over every run without withdrawals of open reviews and without promotions of drafts that were seen approved, an Active deployment was approved since it was last a draft |
| ReviewRuns.WithdrawalPublishes | apps/control-api/src/features/api/v1/projects/by_project_id/deployments/by_deployment_id/unpublish.rs:300-340 | a run under manual review that publishes a deployment whose open review was withdrawn; no review was ever approved |
| ReviewRuns.LatePromotionPublishes | apps/control-api/src/domain/deployment_activation.rs:50-60 | a run under manual review, without such a withdrawal, in which a promotion that saw an approved deployment publishes a draft |
| Transactions.Database.ReconcileEnvironment | apps/control-api/src/domain/delivery.rs:273-324 | the loop over the environment leaves the reconciled table; the Retired transition it asks for is never refused |
| Transactions.Database.Activate | apps/control-api/src/domain/deployments.rs:640-703 | the steps in order do what the activation function says, or fail with the same error |
| Transactions.Database.RequestRelease | apps/control-api/src/domain/delivery.rs:355-433 | activates a served target or queues it on a placement the scheduler can grant; it is unschedulable only when no eligible node of the region has room |
| Transactions.Database.CompletePendingRelease | apps/control-api/src/domain/delivery.rs:435-482 | activates the waiting release of a served deployment and clears it, else changes nothing |
| Transactions.Database.RemovePublicationIn | apps/control-api/src/domain/delivery.rs:220-269 | withdraws a publication and reconciles, or fails as the release table says |
| Transactions.Database.CompleteServeReady | apps/control-api/src/domain/deployment_activation.rs:168-221 | completes a waiting release, or activates a draft under automatic review, then reconciles, as `Handlers.ServedWithoutRelease` and `Handlers.ServedWhileWaiting` say of the report |
| Transactions.Database.UnsuccessfulBuildIn | apps/control-api/src/domain/delivery.rs:328-353 | stops a build and reconciles, or fails as the build table says |
| Transactions.Database.FinalizeReadyIn | apps/control-api/src/features/api/v1/internal/deployments/by_deployment_id/stage.rs:369-437 | finishes a build once, submits a draft under manual review, then reconciles |
| Transactions.Database.ActivateRelease | apps/control-api/src/domain/deployment_activation.rs:26-146 | an activation request, decided on the row its handler read before, commits as one step of the run or changes nothing |
| Transactions.Database.ReviewDeployment | apps/control-api/src/features/api/v1/admin/deployments/by_deployment_id/review/approve.rs:55-261 | a review decision commits as one step or changes nothing |
| Transactions.Database.RepublishDeployment | apps/control-api/src/features/api/v1/admin/deployments/by_deployment_id/republish.rs:98-210 | a republication commits as one step or changes nothing |
| Transactions.Database.WithdrawPublication | apps/control-api/src/features/api/v1/admin/deployments/by_deployment_id/withdraw.rs:50-82 | a withdrawal commits as one step or changes nothing |
| Transactions.Database.CreateDeploymentRow | apps/control-api/src/domain/deployments.rs:220-292 | adds a deployment on a placement the scheduler can grant; it fails only when no eligible node has room |
| Transactions.Database.PlaceDeployment | apps/control-api/src/domain/scheduler.rs:307-318 | the placement is one the scheduler may choose over the current tables, which `Placements.PlacementExactly` measures on them, and without a selected node there is none only when no eligible node has room |
| Transactions.Database.StoreArtifact | apps/control-api/src/features/api/v1/internal/deployments/by_deployment_id/static_site.rs:278-345 | sums the disk used on the node and stores the new size or changes nothing, as one step of the run |
| Transactions.Database.SweepStaleNodes | apps/control-api/src/domain/nodes.rs:403-423 | exactly the Active nodes not heard of since the threshold go Offline and are counted, none is left, and no other node changes |
| Transactions.Database.EnqueueIn | apps/control-api/src/domain/node_deletions.rs:243-342 | reopens the failed job of the node or adds one, with a row for each live deployment found by the loop, and drains the node |
| Transactions.Database.FindEligibleTarget | apps/control-api/src/domain/node_deletions.rs:143-190 | the loop over candidates, with its checked sums over the deployments of the source, accepts exactly the eligible targets, which `Placements.TargetExactly` measures on the tables |
| Transactions.Database.FailJob | apps/control-api/src/domain/node_deletions.rs:361-418 | the loop over the rows fails every one that has not failed, and then the job |
| Transactions.Database.SwitchReadyRoutes | apps/control-api/src/domain/node_deletions.rs:445-493 | row by row, exactly the live rows with a migration that are still on the source move to the target and are counted; when the migrations cover the source it is empty then |
| Transactions.Database.SettleRows | apps/control-api/src/domain/node_deletions.rs:543-587 | the loop over migration rows settles exactly the rows whose deployment ended or whose artifact is unusable, as `Copies.SettledRowMeans` says row by row |
| Transactions.Database.ProcessJobIn | apps/control-api/src/domain/node_deletions.rs:495-702 | one pass does what the job function says, in every phase, which `Copies.PassGivesUp`, `Copies.PassWaits` and `Copies.PassProceeds` state on the rows |
| Transactions.Database.ProcessPendingJobs | apps/control-api/src/domain/node_deletions.rs:704-752 | a sweep commits exactly one pass, or one failure, for each job that was running when it began, and counts them |
| Transactions.Database.ReportServe | apps/control-api/src/features/api/v1/internal/serve/deployments/by_deployment_id/status.rs:86-209 | a report commits as one step of the run or changes nothing |
| Transactions.Database.TablesAreSafe | apps/control-api/src/domain/node_deletions.rs:495-702 | between transactions the mutable tables satisfy the statements about all runs |
| Quotas.CountersAreFolds | apps/control-api/src/domain/quotas.rs:509-557 | over every run of recorders with any reads, each counter has one row at most and holds the clamped fold of its deltas in all states if and only if no recorder writes anything but the current value plus its delta, clamped, or adds a second row |
| Quotas.StepDecidesFold | apps/control-api/src/domain/quotas.rs:532-554 | the same for one operation, keyed or not |
| Quotas.CounterFromEvents | apps/control-api/src/domain/quotas.rs:460-557 | over every such run that loses no update a counter is the clamped fold of the deltas of the distinct committed events, in closed form the total minus the lowest prefix total |
| Quotas.ConcurrentRecordersLose | apps/control-api/src/domain/quotas.rs:525-554 | two recorders that both find no row leave two rows of one each, where the fold is two |
| Quotas.EventsAreDeduplicated | apps/control-api/src/domain/quotas.rs:460-507 | over every run the log is the sequence of committed events without those that repeat an earlier key |
| Quotas.RecordAnswers | apps/control-api/src/domain/quotas.rs:460-557 | recording answers a repeated key with a no-op, logs reservations and denials, and for the others writes the counter of team, dimension and, for the three monthly ones, month; each error exactly for its cause |
| Quotas.LedgerTable.RecordOnceRow | apps/control-api/src/domain/quotas.rs:462-507 | records the event and writes its counter from what was read unless its key is already there, says which, or fails and records nothing |
| Quotas.LedgerTable.ApplyDelta | apps/control-api/src/domain/quotas.rs:509-557 | writes the value read plus the delta, never below zero, or adds a row unless the unique index forbids it |
| Quotas.ClampedClosedForm | apps/control-api/src/domain/quotas.rs:534-541 | clamping at every step leaves the total minus the lowest total of any prefix |
| SsrLeaseRuns.LeasesAreChargedExactly | apps/control-api/src/domain/ssr_leases.rs:163-203 | over every run, with any clock and any delay of recording, an unreleased lease has been charged, recorded and due, one hour for each block it has begun, and its last renewal is before the end of its block; these are the hours begun at that renewal if and only if it is not before the block |
| SsrLeaseRuns.BlocksFollowRenewals | apps/control-api/src/domain/ssr_leases.rs:163-199 | over every run, every lease has begun one block for each hour at its last renewal in all states if and only if no renewal commits a time from before the block of its lease |
| SsrLeaseRuns.ReleaseSettlesExactly | apps/control-api/src/domain/ssr_leases.rs:206-239 | over every run a release leaves a lease charged the hours it ran, up to the blocks it began, if and only if its time is not from before the block, and exactly its whole hours when it comes before the lease expires |
| SsrLimits.LeasesStayConsistent | apps/control-api/src/domain/ssr_leases.rs:53-84 | over every run a place has one unreleased lease at most, and the process events of a team, recorded and due, add up to its unreleased leases |
| SsrLimits.ProcessLimitExactly | apps/control-api/src/domain/ssr_leases.rs:95-107 | over every run on a clock that does not go back, every team is within its process limit at all times if and only if no acquisition opens a lease for a team that is full when it commits and no renewal revives an expired one of such a team |
| SsrLimits.LimitHoldsInTime | apps/control-api/src/domain/ssr_leases.rs:95-107 | so the limit holds when acquisitions miss no live lease in their count and renewals commit before their lease expires |
| SsrLimits.CountersStayFolded | apps/control-api/src/domain/quotas.rs:509-557 | over every run of lease operations all counters are folds in all states if and only if no recorder writes an outdated one |
| SsrLimits.ProcessCounterExactly | apps/control-api/src/domain/ssr_leases.rs:286-327 | when no update was lost the process counter is the unreleased leases less what is due plus what the clamp swallowed |
| SsrLimits.InOrderCounterIsExact | apps/control-api/src/domain/ssr_leases.rs:127-138 | when events are also recorded in the order in which they fell due, it is the unreleased leases less what is due: the clamp never acts |
| SsrHours.RenewAnswers | apps/control-api/src/domain/ssr_leases.rs:142-199 | a renewal succeeds if and only if the lease is live and of its caller and, when it begins a block, its team exists and the hours read are below the limit; each error is returned exactly for its cause |
| SsrHours.RenewEffect | apps/control-api/src/domain/ssr_leases.rs:163-199 | it extends the lease by ninety seconds, and charges one hour exactly when the block was over |
| SsrHours.AcquireAnswers | apps/control-api/src/domain/ssr_leases.rs:37-107 | an acquisition returns the open lease of its place, or opens one exactly when the deployment is served there, its team exists and both limits are above what it read |
| SsrHours.AcquireEffect | apps/control-api/src/domain/ssr_leases.rs:108-140 | the new lease, the release of the one it replaces, and one hour charged |
| SsrHours.HourLimitExactly | apps/control-api/src/domain/ssr_leases.rs:176-187 | over every run, the hours charged to each team in each month are within its limit in all states if and only if no acquisition or renewal begins an hour for a team whose month is full when it commits, and no hour of another month is recorded in a full one |
| SsrHours.HoursHoldInTime | apps/control-api/src/domain/ssr_leases.rs:108-118 | so they are when each of them read at least the hours charged by then |
| SsrRuns.DueHoursAreMissed | apps/control-api/src/domain/ssr_leases.rs:127-138 | a run in which an hour that is due and not recorded lets a team with a limit of one hour be charged two |
| SsrLeaseRuns.AcquiredIsLive | apps/control-api/src/domain/ssr_leases.rs:59-84 | over every run a lease that acquire returns is of the place that asked and live at the time it asked |
| SsrLeaseRuns.ReleasedIsFinal | apps/control-api/src/domain/ssr_leases.rs:226-233 | over every run no later operation changes a released lease or what it is charged, recorded and due |
| SsrRuns.AcquisitionsOverfill | apps/control-api/src/domain/ssr_leases.rs:95-107 | two acquisitions that count before either commits leave a team with a limit of one with two live leases |
| SsrRuns.LateRenewalOverfills | apps/control-api/src/domain/ssr_leases.rs:151-199 | a renewal that commits two seconds after its lease expired leaves the same, although every count was right |
| SsrRuns.ReleaseFirstMiscounts | apps/control-api/src/domain/ssr_leases.rs:226-232 | a release recorded before the beginning of its lease leaves the process counter at one with no lease open |
| SsrRuns.OvertakenRenewalOvercharges | apps/control-api/src/domain/ssr_leases.rs:163-199 | after an hour of renewals every minute, a renewal with a time one second before the hour leaves two hours charged for one begun |
| SsrLeases.LeaseTable.AcquireRow | apps/control-api/src/domain/ssr_leases.rs:37-131 | retires an expired lease, returns an existing one or grants a new one when the counts it read are within both limits, and makes its events due, or fails and changes nothing |
| SsrLeases.LeaseTable.RenewRow | apps/control-api/src/domain/ssr_leases.rs:142-203 | extends a live lease and makes at most one new block due, or fails and changes nothing; `SsrHours.RenewAnswers` says when |
| SsrLeases.LeaseTable.ReleaseRow | apps/control-api/src/domain/ssr_leases.rs:206-239 | releases a lease once and makes a refund of its block due while the block still runs |
| SsrLeases.LeaseTable.RecordDueRow | apps/control-api/src/domain/ssr_leases.rs:262-359 | records one due event, or leaves it due |
| SsrLeases.LeaseTable.SweepExpired | apps/control-api/src/domain/ssr_leases.rs:241-260 | when nothing else runs, the loop releases exactly the leases that had expired and counts them |
| SsrLeases.SweepIsReleases | apps/control-api/src/domain/ssr_leases.rs:241-260 | such a sweep is the run of the releases of the leases it listed |
| CacheText.EntryRoundTrip | crates/cache/src/moka_backend.rs:90-106 | decoding an encoded entry gives its expiry and its value back, whatever the value contains |
| CacheText.PlainNumberHasNoExpiry | crates/cache/src/moka_backend.rs:74-82 | a number stored without an expiry is read back as that number and not as an entry with one |
| CounterCache.AllOrNothing | crates/cache/src/lib.rs:78-84 | for distinct keys a request is allowed exactly when every amount fits, then adds every amount, respects every limit and touches no other key; otherwise nothing changes and the first key over its limit is named |
| CounterCache.RepeatedKeyLimit | crates/cache/src/moka_backend.rs:214-221 | with repeated keys a limit is kept exactly when all amounts for that key fit together |
| CounterCache.RepeatedKeyOverruns | crates/cache/src/moka_backend.rs:208-231 | an allowed request that leaves a counter above its limit |
| CounterCache.SlotsBounded | crates/cache/src/moka_backend.rs:241-257 | over every run the slot counter stays between zero and the maximum, and is the number of slots held when only holders give back |
| CounterCache.SlotGrantedExactly | crates/cache/src/moka_backend.rs:241-250 | over every run in which only holders give back, a slot is granted exactly while fewer than the maximum are held |
| CounterCache.MokaExpiryExactly | crates/cache/src/moka_backend.rs:208-257 | a granted slot and an allowed check set the expiry of their counter, the last check of a key deciding, and nothing else moves one |
| CounterCache.RedisExpiryExactly | crates/cache/src/redis_backend.rs:112-228 | a granted slot sets it, an allowed check only where there is none, the first check of a key deciding, and nothing else moves one |
| CounterCache.BackendsAgree | crates/cache/src/redis_backend.rs:112-228 | leaving expiry aside, text entries under a mutex and the scripts give the same replies and the same counters after any sequence of operations |
| CounterCache.RunsRefine | crates/cache/src/lib.rs:52-95 | both backends give the replies and the counters of the specification after any sequence of operations |
| CounterCache.MokaCache.CheckAndConsume | crates/cache/src/moka_backend.rs:208-231 | the two loops over text entries do what the in-process step function says |
| CounterCache.MokaCache.AdjustCounter | crates/cache/src/moka_backend.rs:233-239 | adds the amount, clamps at zero and keeps the expiry |
| CounterCache.MokaCache.AcquireSlot | crates/cache/src/moka_backend.rs:241-250 | takes a slot below the maximum and renews the expiry, or changes nothing |
| CounterCache.MokaCache.ReleaseSlot | crates/cache/src/moka_backend.rs:252-257 | gives a slot back, clamped at zero |
| CounterCache.RedisCache.CheckAndConsume | crates/cache/src/redis_backend.rs:112-177 | the script's two loops do what the Redis step function says |
| CounterCache.RedisCache.AdjustCounter | crates/cache/src/redis_backend.rs:179-201 | adds the amount, clamps at zero and keeps the expiry |
| CounterCache.RedisCache.AcquireSlot | crates/cache/src/redis_backend.rs:203-224 | takes a slot below the maximum and renews the expiry, or changes nothing |
| CounterCache.RedisCache.ReleaseSlot | crates/cache/src/redis_backend.rs:226-228 | gives a slot back, clamped at zero |
| CounterCache.MokaMovesExpiry | crates/cache/src/moka_backend.rs:223-228 | a check with a time-to-live moves the expiry of an existing counter |
| CounterCache.RedisKeepsExpiry | crates/cache/src/redis_backend.rs:132-139 | the same check leaves the expiry of an existing Redis counter alone |
| TokenBucket.TokensStayInRange | crates/cache/src/moka_backend.rs:271-282 | over any requests the stored tokens stay between zero and the capacity |
| TokenBucket.AllowedInInterval | crates/cache/src/redis_backend.rs:243-259 | on a clock that does not go back, at most capacity + t * capacity / period requests are allowed in any interval of length t |
| TokenBucket.TokensAreLeast | crates/cache/src/moka_backend.rs:271-282 | after any requests the tokens are the least, over all suffixes of them, of the capacity plus the refill since then less the requests allowed since |
| TokenBucket.AllowedExactly | crates/cache/src/redis_backend.rs:243-259 | a request is allowed if and only if one more fits after every earlier request: the requests allowed since then and it are at most the capacity plus the refill |
| TokenBucket.DeniedExactly | crates/cache/src/redis_backend.rs:250-256 | on a clock that does not go back a request is denied if and only if the requests allowed since some earlier one exceed the capacity less one plus elapsed time * capacity / period |
| TokenBucket.ForgettingIsUnobservable | crates/cache/src/redis_backend.rs:257-258 | buckets kept at least one period, each for a time of its own, answer every request as those that are never forgotten |
| TokenBucket.MokaForgettingIsUnobservable | crates/cache/src/moka_backend.rs:284-289 | with any readings of the clock in turn, forgetting in the in-process store is unobservable if and only if the period is one second or at least one and a half |
| TokenBucket.MokaKeepsAtLeast | crates/cache/src/moka_backend.rs:9-15 | whenever the clock is read, a bucket is kept for more than twice the period in whole seconds less one second |
| TokenBucket.RedisForgettingIsUnobservable | crates/cache/src/redis_backend.rs:257-258 | forgetting in the Redis store is never observable |
| TokenBucket.RateLimiter.Consume | crates/cache/src/moka_backend.rs:259-291 | a request answers and updates its own bucket as the bucket function says, whose answers `TokenBucket.AllowedExactly` gives in closed form, and refuses a zero capacity or period |
| Certificates.BundlesMatchTheirHost | apps/control-api/src/domain/certificates.rs:163-206 | in every interleaving a stored bundle was validated for the hostname its row has now |
| Certificates.LeasesAreExclusive | apps/control-api/src/domain/acme.rs:282-316 | two attempts never hold unexpired leases of one row, and the holder of an unexpired lease still owns the row |
| Certificates.HolderStores | apps/control-api/src/domain/acme.rs:328-376 | an attempt that ends within its lease always stores its valid result for an eligible domain and gives the lease up |
| Certificates.SupersededNeverWrites | apps/control-api/src/domain/acme.rs:49-68 | once an attempt has lost its row, nothing it tries after any further steps changes anything |
| Certificates.WritersFence | apps/control-api/src/domain/certificates.rs:234-307 | every rename, queued retry, import, settings change and claim that succeeds takes the row from all earlier attempts |
| Retries.ClaimExactly | apps/control-api/src/domain/acme.rs:33-47 | a row is claimed exactly when it is the one that was read, wants a certificate and may have one; the claim's generation, lease, contact and account |
| Retries.AttemptEnds | apps/control-api/src/domain/acme.rs:328-376 | an attempt that owns its row stores a valid bundle, leaves the row of a domain that is not eligible any more, and otherwise counts one failure more and rests the row for five minutes doubled for each failure before, eight times at most; what was stored stays |
| Retries.RestsUntilRetry | apps/control-api/src/domain/acme.rs:29-37 | from any state of a run a resting row is neither claimed nor queued before its time, whatever else happens, unless its host, its issuer or its bundle is replaced or an attempt on it ends |
| Certificates.RetryDelays | apps/control-api/src/domain/acme.rs:29-31 | retries wait 300 seconds, doubling up to 76800 with the eighth failure; the cap of a day is never reached |
| Certificates.CertificateTable.EnsureRow | apps/control-api/src/domain/certificates.rs:163-206 | creates the row, leaves it, or resets it for a new host or ingress when no lease is live |
| Certificates.CertificateTable.QueueRow | apps/control-api/src/domain/certificates.rs:234-262 | queues a row again, unless it is manual, leased or waiting for its retry |
| Certificates.CertificateTable.ImportRow | apps/control-api/src/domain/certificates.rs:264-307 | stores an imported bundle that is valid for the host when no lease is live |
| Certificates.CertificateTable.SaveCurrent | apps/control-api/src/domain/acme.rs:58-68 | writes exactly when the row still has the generation of the caller |
| Certificates.CertificateTable.Cleanup | apps/control-api/src/domain/acme.rs:254-262 | clears the challenge only while the row has the claimed generation |
| Certificates.CertificateTable.ClaimDue | apps/control-api/src/domain/acme.rs:264-317 | claims a due row under a new generation and a lease of 600 seconds, or changes nothing |
| Certificates.CertificateTable.EndAttempt | apps/control-api/src/domain/acme.rs:328-376 | writes the outcome only while the row has the claimed generation |
| HostNames.NormalizeSlug | crates/validator/src/lib.rs:61-88 | the loop returns the lower-case words joined by dashes, and each error exactly when its cause comes first |
| HostNames.SlugsAreSlugs | crates/validator/src/lib.rs:61-88 | an accepted text gives dash-separated runs of lower-case letters and digits, at most 120 in all |
| HostNames.SlugKeepsLetters | crates/validator/src/lib.rs:61-88 | a text is accepted exactly when it has letters or digits, only allowed characters and at most 120 in its slug, which has its letters and digits in order, in lower case |
| HostNames.SlugIsFixed | crates/validator/src/lib.rs:61-88 | every slug of at most 120 characters is accepted unchanged |
| HostNames.NormalizeSlugIdempotent | crates/validator/src/lib.rs:61-88 | normalising a slug again changes nothing |
| HostNames.NormalizeHost | crates/validator/src/lib.rs:137-163 | the loops over labels and characters return the trimmed lower-case host or the error of its first bad label |
| HostNames.HostExactly | crates/validator/src/lib.rs:137-163 | a text is accepted exactly when, trimmed and in lower case, it is labels of letters, digits and inner dashes, 63 characters at most, between single dots, 253 in all; that is the host |
| HostNames.LabelsExactly | apps/control-api/src/domain/hosts.rs:506-540 | the label of a preview host is the slug shortened to 54 characters, a dash and the last eight digits of the id, that of a platform host the slug shortened to 53 and from the second attempt on the random digits |
| HostNames.NormalizeHostIdempotent | crates/validator/src/lib.rs:137-163 | normalising a host again changes nothing |
| HostNames.PreviewHostIsNormal | apps/control-api/src/domain/hosts.rs:527-540 | for every slug and normalised base of at most 189 characters the preview host is one more label of at most 63 characters and is accepted unchanged |
| HostNames.PreviewHostTooLong | apps/control-api/src/domain/hosts.rs:534-540 | a longer base under a long slug is rejected, so 189 is sharp |
| HostNames.PlatformHostIsNormal | apps/control-api/src/domain/hosts.rs:506-525 | the platform host has a label of at most 58 characters and is accepted unchanged under a base of at most 194 |

## Left out

- HTTP routing, audit rows, notifications, job error texts, build, serve and system events, and timestamps other than those a rule reads.
- The review table itself and the checks that a retired deployment was once served or once active: the model allows more runs than the code there.
- What a handler read early is any value in the model, also one its row never had, and the ownership checks of build reports are left out: the statements cover more runs than the code has.
- Deleted deployments: no code sets `deployments.deleted_at`, so the model has no such field. The hard deletion of a project (`hard_delete.rs`), which removes its deployments and their migration rows by cascade, and the deletion of a team with its counters and leases.
- Changes of node capacity and region: a registration also sets the region, fills capacities that are still zero and sets the deployment limit with its first report, and administrators change capacities; in the model a node has its region and capacities from its creation. Administrators do not reactivate a Draining node.
- Quota checks at deployment creation, the choice of region, and artifact metadata: an artifact that fails validation is an input of the pass.
- The order in which the deletion queue takes jobs: the model takes them in table order.
- Rounding of floating-point ratios and tokens, and overflow of 64-bit counters and SQL sums.
- Changes of a team's plan: the limits are fixed during a run. The events of one lease operation may be recorded in any order in the model; in the code they are recorded one after the other, and not at all after a crash, which the model covers by leaving them due.
- Quota events other than those of leases in the runs of lease operations.
- The calendar: the start of the current month is an input where a monthly counter is used.
- Cryptography, X.509 validation, the ACME exchange and DNS: an uninterpreted check relates hostnames and bundles.
- Second clock reads within one counter operation, eviction by size, and the text form of bucket tokens.
- The store's own instant: it counts the time to live of a token bucket from an instant it takes before the expiry is turned into a duration. The model takes the two as one; a stall between them shortens the time kept.
- Periods below one millisecond in the rate limit.
- `select_auto_assign_source`, certificate snapshots, `normalize_region` and `normalize_email`: single lookups and text rules with no invariant across operations.
- Effects.DeliveryEffect: bounds what a delivery transaction does to assignments; the exact effect is the step function.
- Transactions.Database.PlaceDeployment: for a selected node it does not say which error the scheduler returned, because the transactions only report that there is no placement.
