/** The three lifecycles of a deployment and their transition tables
    (apps/control-api/src/domain/deployments.rs). */
module Lifecycle {
  import opened Basics

  datatype BuildStatus = BuildPending | Claimed | Queued | Building | BuildReady | BuildFailed | BuildCanceled
  datatype ServeStatus = ServePending | Syncing | ServeReady | ServeFailed | Retired
  datatype ReleaseStatus = Draft | PendingReview | Approved | Rejected | Active
  datatype Environment = Production | Preview
  datatype ReleaseReason = Auto | Promote | Rollback

  datatype StateError =
    | InvalidBuildTransition
    | InvalidReleaseTransition
    | InvalidServeTransition
    | BuildNotReady
    | ServeNotReady

  datatype ServeResources = ServeResources(cpu: nat, memory: nat, disk: nat)

  /** One row of the deployments table; its id is its position in the table. */
  datatype Deployment = Deployment(
    project: nat,
    environment: Environment,
    region: string,
    createdAt: int,
    build: BuildStatus,
    serve: ServeStatus,
    release: ReleaseStatus,
    pending: Option<ReleaseReason>,
    buildNode: Option<nat>,
    serveNode: Option<nat>,
    resources: ServeResources,
    overcommitted: bool)

  predicate InProgress(build: BuildStatus) {
    build.BuildPending? || build.Claimed? || build.Queued? || build.Building?
  }

  /** The filter every scheduler and deletion query uses for a row that occupies its Serve Node. */
  predicate Live(d: Deployment) {
    !d.build.BuildFailed? && !d.build.BuildCanceled? && !d.serve.Retired?
  }

  predicate LiveOn(d: Deployment, node: nat) {
    Live(d) && d.serveNode == Some(node)
  }

  /** The filter of `active_build_count`. */
  predicate BuildingOn(d: Deployment, node: nat) {
    d.buildNode == Some(node) && (d.build.Claimed? || d.build.Queued? || d.build.Building?)
  }

  predicate SameEnvironment(a: Deployment, b: Deployment) {
    a.project == b.project && a.environment == b.environment
  }

  // --- Transition tables ------------------------------------------------------

  predicate CanTransitionBuild(from: BuildStatus, to: BuildStatus) {
    match from
    case BuildPending => to.Claimed? || to.BuildCanceled? || to.BuildFailed?
    case Claimed => to.Queued? || to.Building? || to.BuildFailed? || to.BuildCanceled?
    case Queued => to.Building? || to.BuildFailed? || to.BuildCanceled?
    case Building => to.BuildReady? || to.BuildFailed? || to.BuildCanceled?
    case _ => false
  }

  predicate CanTransitionServe(from: ServeStatus, to: ServeStatus) {
    match to
    case Syncing => from.ServePending? || from.ServeFailed? || from.ServeReady?
    case ServeReady => from.Syncing?
    case ServeFailed => from.Syncing?
    case Retired => !from.Retired?
    case ServePending => from.Retired?
  }

  predicate CanTransitionRelease(from: ReleaseStatus, to: ReleaseStatus) {
    match from
    case Draft => to.PendingReview? || to.Active?
    case PendingReview => to.Approved? || to.Rejected?
    case Rejected => to.PendingReview?
    case Approved => to.Active?
    case Active => to.Approved? || to.Draft?
  }

  function ValidateReleaseReadiness(from: ReleaseStatus, to: ReleaseStatus, build: BuildStatus, serve: ServeStatus)
    : Result<(), StateError>
  {
    if from.Active? && (to.Approved? || to.Draft?) then Ok(())
    else if !build.BuildReady? then Err(BuildNotReady)
    else if from.Draft? && to.PendingReview? then Ok(())
    else if serve.Retired? && from.PendingReview? && (to.Approved? || to.Rejected?) then Ok(())
    else if !serve.ServeReady? then Err(ServeNotReady)
    else Ok(())
  }

  // --- Validated row transitions ----------------------------------------------

  function TransitionBuild(d: Deployment, to: BuildStatus): Result<Deployment, StateError> {
    if CanTransitionBuild(d.build, to) then Ok(d.(build := to)) else Err(InvalidBuildTransition)
  }

  function TransitionServe(d: Deployment, to: ServeStatus): Result<Deployment, StateError> {
    if CanTransitionServe(d.serve, to) then Ok(d.(serve := to)) else Err(InvalidServeTransition)
  }

  function TransitionRelease(d: Deployment, to: ReleaseStatus): Result<Deployment, StateError> {
    if !CanTransitionRelease(d.release, to) then Err(InvalidReleaseTransition) else
    var _ :- ValidateReleaseReadiness(d.release, to, d.build, d.serve);
    Ok(d.(release := to))
  }

  /** What the release table and the readiness check together promise: becoming Active needs a
      ready build served by a ready artifact, only Draft or Approved can become Active, and a
      rejection or an open review is never skipped. */
  lemma ActivationNeedsReadiness(d: Deployment)
    ensures TransitionRelease(d, Active).Ok? <==>
            (d.release.Draft? || d.release.Approved?) && d.build.BuildReady? && d.serve.ServeReady?
  {
  }
}
