/** Passes over deletion jobs on the tables themselves, and the reports without which no cutover moves a deployment. */
module Copies {
  import opened Basics
  import opened Lifecycle
  import opened Scheduler
  import opened Delivery
  import opened ControlPlane
  import opened Effects
  import opened Evacuation
  import opened Placements

  // --- One pass --------------------------------------------------------------------------------------

  /** Deployment `i` occupies a node and no ready copy of it was reported. */
  predicate NeedsCopy(s: State, job: Job, i: nat) {
    i in job.rows && job.rows[i] != RowReady && i < |s.deployments| && Occupying(s.deployments[i])
  }

  /** A copy that is needed cannot be made: it failed, or the artifact to copy is not valid. */
  predicate CopyLost(s: State, job: Job, invalid: set<nat>, i: nat) {
    NeedsCopy(s, job, i) && (job.rows[i] == RowFailed || (s.deployments[i].build == BuildReady && i in invalid))
  }

  /** The target serves and was heard of less than 91 seconds ago; a job without rows needs none. */
  predicate CanReceive(s: State, job: Job, now: int) {
    if job.target.None? then job.rows == map[]
    else && job.target.value < |s.nodes|
         && var node := s.nodes[job.target.value];
         && node.serveEnabled && node.hasBaseUrl && node.status == NodeActive
         && node.lastHeartbeat.Some? && now - node.lastHeartbeat.value < 91_000
  }

  lemma CanReceiveMeans(s: State, job: Job, now: int)
    ensures CanReceive(s, job, now) <==> TargetStillAvailable(s, job, now)
  {
  }

  predicate InProgressOn(d: Deployment, n: nat) {
    d.buildNode == Some(n) && (d.build == Claimed || d.build == Queued || d.build == Building)
  }

  function Builds(s: State, n: nat): nat {
    |set i: nat | i < |s.deployments| && InProgressOn(s.deployments[i], n)|
  }

  lemma BuildsMeans(s: State, n: nat)
    ensures Builds(s, n) == ActiveBuildCount(s.deployments, n)
  {
    assert (set i: nat | i < |s.deployments| && InProgressOn(s.deployments[i], n))
           == (set i: nat | i < |s.deployments| && BuildingOn(s.deployments[i], n));
  }

  /** The listed deployments that need no copy any more. */
  ghost function NeedNone(s: State, job: Job): set<nat> {
    set i | i in job.rows && !NeedsCopy(s, job, i)
  }

  /** The job ends without success in this pass. */
  predicate GivesUp(s: State, job: Job, now: int, invalid: set<nat>) {
    (job.migrated < job.total && !CanReceive(s, job, now)) || exists i :: i in job.rows && CopyLost(s, job, invalid, i)
  }

  predicate Waits(s: State, job: Job) {
    exists i :: i in job.rows && NeedsCopy(s, job, i)
  }

  /** Nothing but the row of job `j` changes, and of it neither the node, the target nor what it lists. */
  predicate OnlyJob(s: State, s': State, j: nat)
    requires j < |s.jobs|
  {
    && s'.deployments == s.deployments && s'.nodes == s.nodes && s'.releases == s.releases && s'.history == s.history
    && KeepsJobs(s, s', j)
  }

  predicate KeepsJobs(s: State, s': State, j: nat)
    requires j < |s.jobs|
  {
    && |s'.jobs| == |s.jobs| && (forall k: nat :: k < |s.jobs| && k != j ==> s'.jobs[k] == s.jobs[k])
    && s'.jobs[j].node == s.jobs[j].node && s'.jobs[j].target == s.jobs[j].target && s'.jobs[j].total == s.jobs[j].total
    && s'.jobs[j].rows.Keys == s.jobs[j].rows.Keys
  }

  lemma SettledRowMeans(s: State, job: Job, invalid: set<nat>)
    ensures var rows := SettledRows(job, s.deployments, invalid);
            && rows.Keys == job.rows.Keys
            && forall i :: i in job.rows ==>
                 rows[i] == if !NeedsCopy(s, job, i) then RowReady else if CopyLost(s, job, invalid, i) then RowFailed else job.rows[i]
  {
  }

  lemma CountsMean(s: State, job: Job, invalid: set<nat>)
    ensures var rows := SettledRows(job, s.deployments, invalid);
            && RowsWith(rows, RowReady) == NeedNone(s, job)
            && (|RowsWith(rows, RowFailed)| > 0 <==> exists i :: i in job.rows && CopyLost(s, job, invalid, i))
            && (|NeedNone(s, job)| < |rows| <==> Waits(s, job)) && |NeedNone(s, job)| <= |rows|
  {
    var rows := SettledRows(job, s.deployments, invalid);
    SettledRowMeans(s, job, invalid);
    AllReady(rows);
    if i :| i in job.rows && CopyLost(s, job, invalid, i) { assert i in RowsWith(rows, RowFailed); }
    if RowsWith(rows, RowFailed) != {} { var i :| i in RowsWith(rows, RowFailed); assert CopyLost(s, job, invalid, i); }
    if i :| i in job.rows && NeedsCopy(s, job, i) { assert i in rows && !rows[i].RowReady?; }
  }

  /** A pass over a job that ended changes nothing. */
  lemma EndedStays(s: State, j: nat, now: int, invalid: set<nat>)
    requires j < |s.jobs| && (s.jobs[j].status == JobFailed || s.jobs[j].status == JobCompleted)
    ensures ProcessJob(s, j, now, invalid) == s
  {
  }

  lemma UnreachableFails(s: State, j: nat, now: int, invalid: set<nat>)
    requires j < |s.jobs| && Running(s.jobs[j]) && s.jobs[j].migrated < s.jobs[j].total && !CanReceive(s, s.jobs[j], now)
    ensures var job := s.jobs[j];
            ProcessJob(s, j, now, invalid) == s.(jobs := s.jobs[j := Failed(job, |set i | i in job.rows && job.rows[i] == RowReady|, Builds(s, job.node))])
  {
    var job := s.jobs[j];
    CanReceiveMeans(s, job, now);
    BuildsMeans(s, job.node);
    assert RowsWith(job.rows, RowReady) == set i | i in job.rows && job.rows[i] == RowReady;
  }

  lemma LostFails(s: State, j: nat, now: int, invalid: set<nat>)
    requires j < |s.jobs| && Running(s.jobs[j]) && (s.jobs[j].migrated < s.jobs[j].total ==> CanReceive(s, s.jobs[j], now))
    requires exists i :: i in s.jobs[j].rows && CopyLost(s, s.jobs[j], invalid, i)
    ensures var job := s.jobs[j];
            ProcessJob(s, j, now, invalid) ==
            s.(jobs := s.jobs[j := Failed(job.(rows := SettledRows(job, s.deployments, invalid)), |NeedNone(s, job)|, Builds(s, job.node))])
  {
    var job := s.jobs[j];
    CanReceiveMeans(s, job, now);
    BuildsMeans(s, job.node);
    CountsMean(s, job, invalid);
  }

  /** The job fails, all its rows with it, when its target is gone while something is left to move, or when a needed copy is
      lost. Nothing else changes. */
  lemma PassGivesUp(s: State, j: nat, now: int, invalid: set<nat>, s': State)
    requires j < |s.jobs| && Running(s.jobs[j]) && GivesUp(s, s.jobs[j], now, invalid) && s' == ProcessJob(s, j, now, invalid)
    ensures OnlyJob(s, s', j) && s'.jobs[j].status == JobFailed && s'.jobs[j].activeBuilds == Builds(s, s.jobs[j].node)
    ensures forall i :: i in s'.jobs[j].rows ==> s'.jobs[j].rows[i] == RowFailed
    ensures s'.jobs[j].migrated == if s.jobs[j].migrated < s.jobs[j].total && !CanReceive(s, s.jobs[j], now)
                                   then |set i | i in s.jobs[j].rows && s.jobs[j].rows[i] == RowReady| else |NeedNone(s, s.jobs[j])|
  {
    var job := s.jobs[j];
    SettledRowMeans(s, job, invalid);
    if job.migrated < job.total && !CanReceive(s, job, now) { UnreachableFails(s, j, now, invalid); } else { LostFails(s, j, now, invalid); }
  }

  /** While a copy is needed and none is lost, a pass moves nothing and deletes nothing: it settles the rows that need none, keeps
      every other as it is, and counts them. */
  lemma PassWaits(s: State, j: nat, now: int, invalid: set<nat>, s': State)
    requires j < |s.jobs| && Running(s.jobs[j]) && !GivesUp(s, s.jobs[j], now, invalid) && Waits(s, s.jobs[j])
    requires s' == ProcessJob(s, j, now, invalid)
    ensures OnlyJob(s, s', j) && s'.jobs[j].status == JobMigrating && s'.jobs[j].activeBuilds == Builds(s, s.jobs[j].node)
    ensures forall i :: i in s.jobs[j].rows ==> s'.jobs[j].rows[i] == if NeedsCopy(s, s.jobs[j], i) then s.jobs[j].rows[i] else RowReady
    ensures s'.jobs[j].migrated == |NeedNone(s, s.jobs[j])|
  {
    var job := s.jobs[j];
    CanReceiveMeans(s, job, now);
    BuildsMeans(s, job.node);
    CountsMean(s, job, invalid);
    SettledRowMeans(s, job, invalid);
  }

  /** The route of deployment `i` leads away from the node of the job. */
  predicate Leaves(job: Job, d: Deployment, i: nat) {
    job.target.Some? && i in job.rows && Occupying(d) && d.serveNode == Some(job.node)
  }

  predicate MovedOver(s: State, s': State, job: Job) {
    && |s'.deployments| == |s.deployments|
    && forall i: nat :: i < |s.deployments| ==>
         s'.deployments[i] == if Leaves(job, s.deployments[i], i) then s.deployments[i].(serveNode := job.target, overcommitted := false)
                              else s.deployments[i]
  }

  /** The pass would delete a node that is not there. */
  predicate NodeMissing(s: State, job: Job) {
    job.status == JobDeleting && Builds(s, job.node) == 0 && job.node >= |s.nodes|
  }

  function PhaseWithoutCopies(s: State, job: Job): JobStatus {
    if Builds(s, job.node) > 0 then JobDraining else if job.status == JobDeleting then JobCompleted else JobDeleting
  }

  lemma ProceedingJob(s: State, j: nat, now: int, invalid: set<nat>, s': State)
    requires j < |s.jobs| && Running(s.jobs[j]) && !GivesUp(s, s.jobs[j], now, invalid) && !Waits(s, s.jobs[j])
    requires s' == ProcessJob(s, j, now, invalid) && !NodeMissing(s, s.jobs[j])
    ensures var job := s.jobs[j];
            var rows := SettledRows(job, s.deployments, invalid);
            && s'.jobs == s.jobs[j := job.(rows := rows, status := PhaseWithoutCopies(s, job), migrated := |rows|, activeBuilds := Builds(s, job.node))]
            && s'.deployments == SwitchRoutes(s, job.(rows := rows)).deployments && s'.releases == s.releases && s'.history == s.history
            && s'.nodes == (if PhaseWithoutCopies(s, job) == JobCompleted
                            then s.nodes[job.node := s.nodes[job.node].(status := NodeDisabled, deleted := true)] else s.nodes)
  {
    var job := s.jobs[j];
    CanReceiveMeans(s, job, now);
    BuildsMeans(s, job.node);
    CountsMean(s, job, invalid);
  }

  lemma SwitchingMoves(s: State, job: Job, invalid: set<nat>)
    ensures var settled := job.(rows := SettledRows(job, s.deployments, invalid));
            if job.migrated < job.total then MovedOver(s, SwitchRoutes(s, settled), job) else SwitchRoutes(s, settled) == s
  {
  }

  /** Once no copy is needed, a pass moves what is still counted as left to move; the job goes on to Draining while builds run,
      then to Deleting, and the pass over a Deleting job without builds deletes the node. */
  lemma PassProceeds(s: State, j: nat, now: int, invalid: set<nat>, s': State)
    requires j < |s.jobs| && Running(s.jobs[j]) && !GivesUp(s, s.jobs[j], now, invalid) && !Waits(s, s.jobs[j])
    requires s' == ProcessJob(s, j, now, invalid) && !NodeMissing(s, s.jobs[j])
    ensures var job := s.jobs[j];
            && (if job.migrated < job.total then MovedOver(s, s', job) else s'.deployments == s.deployments)
            && s'.releases == s.releases && s'.history == s.history && KeepsJobs(s, s', j)
            && (forall i :: i in job.rows ==> s'.jobs[j].rows[i] == RowReady)
            && s'.jobs[j].migrated == |job.rows| && s'.jobs[j].activeBuilds == Builds(s, job.node)
            && s'.jobs[j].status == (if Builds(s, job.node) > 0 then JobDraining else if job.status == JobDeleting then JobCompleted else JobDeleting)
            && s'.nodes == (if Builds(s, job.node) == 0 && job.status == JobDeleting
                            then s.nodes[job.node := s.nodes[job.node].(status := NodeDisabled, deleted := true)] else s.nodes)
  {
    ProceedingJob(s, j, now, invalid, s');
    SwitchingMoves(s, s.jobs[j], invalid);
    SettledRowMeans(s, s.jobs[j], invalid);
    RowCount(s.jobs[j].rows);
    RowCount(s'.jobs[j].rows);
  }

  lemma PassMissesNode(s: State, j: nat, now: int, invalid: set<nat>)
    requires j < |s.jobs| && Running(s.jobs[j]) && !GivesUp(s, s.jobs[j], now, invalid) && !Waits(s, s.jobs[j])
    requires NodeMissing(s, s.jobs[j])
    ensures ProcessJob(s, j, now, invalid) == s
  {
    var job := s.jobs[j];
    CanReceiveMeans(s, job, now);
    BuildsMeans(s, job.node);
    CountsMean(s, job, invalid);
  }

  // --- Reports of copies -------------------------------------------------------------------------------

  /** The target of job `j` reports how its copy of deployment `i` stands, while the job lists it and has not given it up. */
  predicate ReportsOn(s: State, a: Action, j: nat, i: nat) {
    && a.AServeReport? && a.deployment == i && a.job_ == Some(j) && a.capable && a.node < |s.nodes|
    && (a.serve == Syncing || a.serve == ServeReady || a.serve == ServeFailed)
    && j < |s.jobs| && s.jobs[j].target == Some(a.node) && i in s.jobs[j].rows && s.jobs[j].rows[i] != RowFailed
    && i < |s.deployments| && s.deployments[i].serveNode != Some(a.node)
  }

  function RowReported(serve: ServeStatus): RowStatus {
    match serve
    case ServeReady => RowReady
    case Syncing => RowSyncing
    case _ => RowFailed
  }

  /** Such a report commits, and writes the row of that deployment in that job and nothing else. */
  lemma ReportWritesRow(s: State, a: Action, j: nat, i: nat)
    requires ReportsOn(s, a, j, i)
    ensures Step(s, a) == s.(jobs := s.jobs[j := s.jobs[j].(rows := s.jobs[j].rows[i := RowReported(a.serve)])])
  {
    assert DeploymentStep(s, a) == ReportServeStatus(s, i, a.node, a.capable, a.serve, a.job_, a.mode);
  }

  /** A request for deletion begins job `j`, or begins it again. */
  predicate Opens(s: State, a: Action, s': State, j: nat) {
    a.AEnqueue? && j < |s'.jobs| && s'.jobs[j].status == JobQueued && (j >= |s.jobs| || s.jobs[j].status == JobFailed)
  }

  function NextReport(s: State, a: Action, s': State, j: nat, i: nat, last: Option<ServeStatus>): Option<ServeStatus> {
    if Opens(s, a, s', j) then None else if ReportsOn(s, a, j, i) then Some(a.serve) else last
  }

  /** What the target last reported of deployment `i` for job `j` since the job was begun. */
  function Reported(actions: seq<Action>, j: nat, i: nat): Option<ServeStatus> {
    if actions == [] then None
    else var before := actions[..|actions| - 1];
         NextReport(Run(before), actions[|actions| - 1], Run(actions), j, i, Reported(before, j, i))
  }

  predicate StandsOn(s: State, i: nat, n: nat) {
    i < |s.deployments| && Occupying(s.deployments[i]) && s.deployments[i].serveNode == Some(n)
  }

  predicate CountsAsReady(s: State, j: nat, i: nat) {
    j < |s.jobs| && Running(s.jobs[j]) && i in s.jobs[j].rows && s.jobs[j].rows[i] == RowReady
  }

  /** Running job `j` counts as copied a deployment that occupies its node and whose copy was not reported ready. */
  predicate Uncopied(s: State, j: nat, i: nat, last: Option<ServeStatus>) {
    CountsAsReady(s, j, i) && StandsOn(s, i, s.jobs[j].node) && last != Some(ServeReady)
  }

  /** A deployment that left the node of the job, and was counted as needing no copy, stands on it again. */
  predicate ComesBack(s: State, s': State, j: nat, i: nat, last: Option<ServeStatus>) {
    && CountsAsReady(s, j, i) && last != Some(ServeReady)
    && !StandsOn(s, i, s.jobs[j].node) && StandsOn(s', i, s.jobs[j].node)
  }

  lemma SameJobDecides(s: State, s': State, j: nat, i: nat, last: Option<ServeStatus>)
    requires !Uncopied(s, j, i, last) && (j < |s.jobs| ==> j < |s'.jobs| && s'.jobs[j] == s.jobs[j])
    requires j >= |s.jobs| ==> j >= |s'.jobs|
    ensures Uncopied(s', j, i, last) <==> ComesBack(s, s', j, i, last)
  {
  }

  lemma ReportDecides(s: State, a: Action, s': State, j: nat, i: nat, last: Option<ServeStatus>)
    requires !Uncopied(s, j, i, last) && a.AServeReport? && a.job_.Some? && ReportsOn(s, a, a.job_.value, a.deployment)
    requires s' == s.(jobs := s.jobs[a.job_.value := s.jobs[a.job_.value].(rows := s.jobs[a.job_.value].rows[a.deployment := RowReported(a.serve)])])
    ensures Uncopied(s', j, i, NextReport(s, a, s', j, i, last)) <==> ComesBack(s, s', j, i, last)
  {
  }

  /** A pass counts as copied what it counted before and what occupies no node any more, and brings nothing to the node it empties. */
  lemma PassCounts(s: State, j: nat, now: int, invalid: set<nat>, i: nat, s': State)
    requires j < |s.jobs| && s' == ProcessJob(s, j, now, invalid)
    ensures |s'.jobs| == |s.jobs| && s'.jobs[j].node == s.jobs[j].node
    ensures CountsAsReady(s', j, i) ==> CountsAsReady(s, j, i) || !StandsOn(s, i, s.jobs[j].node)
    ensures StandsOn(s', i, s.jobs[j].node) ==> StandsOn(s, i, s.jobs[j].node)
    ensures forall k: nat :: k < |s.jobs| && k != j ==> s'.jobs[k] == s.jobs[k]
  {
    var job := s.jobs[j];
    if !Running(job) { EndedStays(s, j, now, invalid); }
    else if GivesUp(s, job, now, invalid) { PassGivesUp(s, j, now, invalid, s'); }
    else if Waits(s, job) { PassWaits(s, j, now, invalid, s'); }
    else if NodeMissing(s, job) { PassMissesNode(s, j, now, invalid); }
    else { PassProceeds(s, j, now, invalid, s'); }
  }

  lemma PassDecides(s: State, a: Action, s': State, j: nat, i: nat, last: Option<ServeStatus>)
    requires !Uncopied(s, j, i, last) && a.AProcessJob? && a.job < |s.jobs| && s' == ProcessJob(s, a.job, a.now, a.invalidArtifacts)
    ensures Uncopied(s', j, i, last) <==> ComesBack(s, s', j, i, last)
  {
    PassCounts(s, a.job, a.now, a.invalidArtifacts, i, s');
    if a.job != j { SameJobDecides(s, s', j, i, last); }
  }

  lemma EnqueueDecides(s: State, a: Action, s': State, j: nat, i: nat, last: Option<ServeStatus>)
    requires !Uncopied(s, j, i, last) && a.AEnqueue? && Enqueue(s, a.node, a.target, a.now) == Ok(s')
    ensures Uncopied(s', j, i, NextReport(s, a, s', j, i, last)) <==> ComesBack(s, s', j, i, last)
  {
    var existing := ActiveJob(s.jobs, |s.jobs|, a.node);
    var begun := if existing.Some? then existing.value else |s.jobs|;
    assert s'.jobs[begun] == NewJob(s, a.node, a.target);
    if j != begun { SameJobDecides(s, s', j, i, last); }
  }

  lemma DeploymentDecides(s: State, a: Action, s': State, j: nat, i: nat, last: Option<ServeStatus>)
    requires !Uncopied(s, j, i, last) && OnDeployment(a) && a.deployment < |s.deployments| && DeploymentStep(s, a) == Ok(s')
    ensures Uncopied(s', j, i, NextReport(s, a, s', j, i, last)) <==> ComesBack(s, s', j, i, last)
  {
    var mid := DeploymentStepEffect(s, a, s');
    if PlainDelivery(s, a) || !a.AServeReport? {
      SameJobDecides(s, s', j, i, last);
    } else {
      ShadowReportExactly(s, a, s');
      ReportDecides(s, a, s', j, i, last);
    }
  }

  /** A report from a node the deployment is not assigned to commits only as the report of a copy. */
  lemma ShadowReportExactly(s: State, a: Action, s': State)
    requires a.AServeReport? && a.deployment < |s.deployments| && DeploymentStep(s, a) == Ok(s')
    requires s.deployments[a.deployment].serveNode != Some(a.node)
    ensures a.job_.Some? && ReportsOn(s, a, a.job_.value, a.deployment)
    ensures s' == s.(jobs := s.jobs[a.job_.value := s.jobs[a.job_.value].(rows := s.jobs[a.job_.value].rows[a.deployment := RowReported(a.serve)])])
  {
  }

  lemma RolledBackDecides(s: State, a: Action, j: nat, i: nat, last: Option<ServeStatus>)
    requires !Uncopied(s, j, i, last) && OnDeployment(a)
    requires a.deployment < |s.deployments| ==> DeploymentStep(s, a).Err?
    ensures !Uncopied(s, j, i, NextReport(s, a, s, j, i, last)) && !ComesBack(s, s, j, i, last)
  {
    ReportsCommit(s, a, j, i);
  }

  lemma ReportsCommit(s: State, a: Action, j: nat, i: nat)
    ensures ReportsOn(s, a, j, i) ==> a.deployment < |s.deployments| && DeploymentStep(s, a).Ok?
  {
    if ReportsOn(s, a, j, i) { assert DeploymentStep(s, a) == ReportServeStatus(s, i, a.node, a.capable, a.serve, a.job_, a.mode); }
  }

  lemma RestDecides(s: State, a: Action, s': State, j: nat, i: nat, last: Option<ServeStatus>)
    requires !Uncopied(s, j, i, last) && s' == Step(s, a) && (a.ACreateNode? || a.ANodeActivity? || a.AMarkStale? || a.AAbortJob? || a.ACreate?)
    ensures Uncopied(s', j, i, last) <==> ComesBack(s, s', j, i, last)
  {
    if a.ACreate? { var _ := CreateShape(s, a); }
    if a.AAbortJob? && a.job < |s.jobs| { AbortEnds(s, a.job); }
    if !(a.AAbortJob? && a.job == j) { SameJobDecides(s, s', j, i, last); }
  }

  lemma AbortEnds(s: State, j: nat)
    requires j < |s.jobs|
    ensures AbortJob(s, j) == s.(jobs := AbortJob(s, j).jobs) && |AbortJob(s, j).jobs| == |s.jobs| && !Running(AbortJob(s, j).jobs[j])
    ensures AbortJob(s, j).jobs[j].node == s.jobs[j].node
    ensures forall k: nat :: k < |s.jobs| && k != j ==> AbortJob(s, j).jobs[k] == s.jobs[k]
  {
  }

  /** One transaction makes a job count a deployment as copied without a report if and only if it brings that deployment back to
      the node of the job. */
  lemma StepDecidesUncopied(s: State, a: Action, s': State, j: nat, i: nat, last: Option<ServeStatus>)
    requires !Uncopied(s, j, i, last) && s' == Step(s, a)
    ensures Uncopied(s', j, i, NextReport(s, a, s', j, i, last)) <==> ComesBack(s, s', j, i, last)
  {
    if OnDeployment(a) {
      StepOnDeployment(s, a);
      if a.deployment < |s.deployments| && DeploymentStep(s, a).Ok? { DeploymentDecides(s, a, s', j, i, last); }
      else { RolledBackDecides(s, a, j, i, last); }
    } else if a.AProcessJob? {
      if a.job < |s.jobs| { PassDecides(s, a, s', j, i, last); }
    } else if a.AEnqueue? {
      if Enqueue(s, a.node, a.target, a.now).Ok? { EnqueueDecides(s, a, s', j, i, last); }
    } else {
      RestDecides(s, a, s', j, i, last);
    }
  }

  // --- Every run ---------------------------------------------------------------------------------------

  ghost predicate CopiesReported(actions: seq<Action>) {
    forall j: nat, i: nat :: !Uncopied(Run(actions), j, i, Reported(actions, j, i))
  }

  ghost predicate BringsBack(actions: seq<Action>, a: Action) {
    exists j: nat, i: nat :: ComesBack(Run(actions), Step(Run(actions), a), j, i, Reported(actions, j, i))
  }

  lemma ReportedNext(actions: seq<Action>, k: nat, j: nat, i: nat)
    requires k < |actions|
    ensures Run(actions[..k + 1]) == Step(Run(actions[..k]), actions[k])
    ensures Reported(actions[..k + 1], j, i)
            == NextReport(Run(actions[..k]), actions[k], Run(actions[..k + 1]), j, i, Reported(actions[..k], j, i))
  {
    RunPrefix(actions, k);
    assert actions[..k + 1][..k] == actions[..k];
  }

  lemma NextCopies(actions: seq<Action>, k: nat)
    requires k < |actions| && CopiesReported(actions[..k])
    ensures CopiesReported(actions[..k + 1]) <==> !BringsBack(actions[..k], actions[k])
  {
    var s, s' := Run(actions[..k]), Run(actions[..k + 1]);
    RunPrefix(actions, k);
    forall j: nat, i: nat
      ensures Uncopied(s', j, i, Reported(actions[..k + 1], j, i)) <==> ComesBack(s, s', j, i, Reported(actions[..k], j, i))
    {
      ReportedNext(actions, k, j, i);
      assert !Uncopied(s, j, i, Reported(actions[..k], j, i));
      StepDecidesUncopied(s, actions[k], s', j, i, Reported(actions[..k], j, i));
    }
    if CopiesReported(actions[..k + 1]) {
      forall j: nat, i: nat ensures !ComesBack(s, s', j, i, Reported(actions[..k], j, i)) {
        assert !Uncopied(s', j, i, Reported(actions[..k + 1], j, i));
      }
    } else {
      var j: nat, i: nat :| Uncopied(s', j, i, Reported(actions[..k + 1], j, i));
      assert ComesBack(s, Step(s, actions[k]), j, i, Reported(actions[..k], j, i));
    }
  }

  lemma {:induction false} CopiesAfter(actions: seq<Action>, k: nat)
    requires k <= |actions| && forall m: nat :: m < k ==> !BringsBack(actions[..m], actions[m])
    ensures CopiesReported(actions[..k])
  {
    if k > 0 {
      CopiesAfter(actions, k - 1);
      NextCopies(actions, k - 1);
    }
  }

  /** Over every run, whatever a job counts as copied and is still on its node was reported ready by the target since the job was
      begun, if and only if no transaction brings a deployment back to a node it had left. */
  lemma CopiesReportedExactly(actions: seq<Action>)
    ensures (forall k: nat :: k <= |actions| ==> CopiesReported(actions[..k]))
            <==> (forall k: nat :: k < |actions| ==> !BringsBack(actions[..k], actions[k]))
  {
    if forall k: nat :: k <= |actions| ==> CopiesReported(actions[..k]) {
      forall k: nat | k < |actions| ensures !BringsBack(actions[..k], actions[k]) {
        assert CopiesReported(actions[..k]) && CopiesReported(actions[..k + 1]);
        NextCopies(actions, k);
      }
    }
    if forall k: nat :: k < |actions| ==> !BringsBack(actions[..k], actions[k]) {
      forall k: nat | k <= |actions| ensures CopiesReported(actions[..k]) { CopiesAfter(actions, k); }
    }
  }

  /** A pass changes only the deployments it moves, and of these each was counted as copied before. */
  lemma PassMovesCounted(s: State, j: nat, now: int, invalid: set<nat>, i: nat, s': State)
    requires j < |s.jobs| && s' == ProcessJob(s, j, now, invalid)
    ensures |s'.deployments| == |s.deployments|
    ensures i < |s.deployments| && s'.deployments[i] != s.deployments[i] ==> CountsAsReady(s, j, i) && StandsOn(s, i, s.jobs[j].node)
  {
    var job := s.jobs[j];
    if !Running(job) { EndedStays(s, j, now, invalid); }
    else if GivesUp(s, job, now, invalid) { PassGivesUp(s, j, now, invalid, s'); }
    else if Waits(s, job) { PassWaits(s, j, now, invalid, s'); }
    else if NodeMissing(s, job) { PassMissesNode(s, j, now, invalid); }
    else { PassProceeds(s, j, now, invalid, s'); }
  }

  /** A cutover moves only deployments whose copy the target reported ready for that job since the job was begun. */
  lemma CutoversMoveCopies(actions: seq<Action>, a: Action, i: nat)
    requires CopiesReported(actions) && a.AProcessJob? && a.job < |Run(actions).jobs|
    requires i < |Run(actions).deployments|
    ensures var s' := Run(actions + [a]);
            && i < |s'.deployments|
            && (s'.deployments[i] != Run(actions).deployments[i] ==> Reported(actions, a.job, i) == Some(ServeReady))
  {
    RunExtends(actions, a);
    var s := Run(actions);
    PassMovesCounted(s, a.job, a.now, a.invalidArtifacts, i, Run(actions + [a]));
    assert !Uncopied(s, a.job, i, Reported(actions, a.job, i));
  }

  // --- Runs without overtaken writes -------------------------------------------------------------------

  /** Nothing comes to stand on a Draining node by a delivery transaction that was not overtaken. */
  lemma DeliveryBringsNothing(s: State, a: Action, s': State, i: nat, n: nat)
    requires OnDeployment(a) && a.deployment < |s.deployments| && DeploymentStep(s, a) == Ok(s') && !RestartsBuild(s, a)
    requires n < |s.nodes| && s.nodes[n].status.NodeDraining? && StandsOn(s', i, n)
    ensures StandsOn(s, i, n)
  {
    var mid := DeploymentStepEffect(s, a, s');
    if PlainDelivery(s, a) { PlacingBringsNothing(s, a.deployment, mid, s', i, n); }
  }

  lemma PlacingBringsNothing(s: State, k: nat, mid: State, s': State, i: nat, n: nat)
    requires (mid == s || Places(s, mid, k)) && Recedes(mid, s')
    requires n < |s.nodes| && s.nodes[n].status.NodeDraining? && StandsOn(s', i, n)
    ensures StandsOn(s, i, n)
  {
    assert RowRecedes(mid.deployments[i], s'.deployments[i]);
  }

  lemma CreateBringsNothing(s: State, a: Action, s': State, i: nat, n: nat)
    requires a.ACreate? && s' == Step(s, a) && n < |s.nodes| && s.nodes[n].status.NodeDraining? && StandsOn(s', i, n)
    ensures StandsOn(s, i, n)
  {
    var d := CreateShape(s, a);
    if d.Some? { PlacementHasRoom(s, a.now, ServeResourcesFor(a.ssr), a.region_, a.selected, a.chosen.value); }
  }

  lemma PassBringsNothing(s: State, j: nat, now: int, invalid: set<nat>, s': State, i: nat, n: nat)
    requires j < |s.jobs| && s' == ProcessJob(s, j, now, invalid)
    requires n < |s.nodes| && s.nodes[n].status.NodeDraining? && StandsOn(s', i, n)
    ensures StandsOn(s, i, n)
  {
    var job := s.jobs[j];
    if !Running(job) { EndedStays(s, j, now, invalid); }
    else if GivesUp(s, job, now, invalid) { PassGivesUp(s, j, now, invalid, s'); }
    else if Waits(s, job) { PassWaits(s, j, now, invalid, s'); }
    else if NodeMissing(s, job) { PassMissesNode(s, j, now, invalid); }
    else { PassProceeds(s, j, now, invalid, s'); }
  }

  lemma StepBringsNothing(s: State, a: Action, s': State, i: nat, n: nat)
    requires s' == Step(s, a) && !RestartsBuild(s, a)
    requires n < |s.nodes| && s.nodes[n].status.NodeDraining? && StandsOn(s', i, n)
    ensures StandsOn(s, i, n)
  {
    if OnDeployment(a) {
      StepOnDeployment(s, a);
      if a.deployment < |s.deployments| && DeploymentStep(s, a).Ok? { DeliveryBringsNothing(s, a, s', i, n); }
    } else if a.AProcessJob? {
      if a.job < |s.jobs| { PassBringsNothing(s, a.job, a.now, a.invalidArtifacts, s', i, n); }
    } else if a.ACreate? {
      CreateBringsNothing(s, a, s', i, n);
    } else {
      StepBesideDeployments(s, a);
    }
  }

  /** While no heartbeat, registration or build report is overtaken, nothing comes back. */
  lemma OrderlyBringsNothingBack(actions: seq<Action>, k: nat)
    requires Orderly(actions) && k < |actions|
    ensures !BringsBack(actions[..k], actions[k])
  {
    var s := Run(actions[..k]);
    OrderlyAt(actions, k, s);
    forall j: nat, i: nat ensures !ComesBack(s, Step(s, actions[k]), j, i, Reported(actions[..k], j, i)) {
      if CountsAsReady(s, j, i) && StandsOn(Step(s, actions[k]), i, s.jobs[j].node) {
        assert JobSound(s, s.jobs[j]);
        StepBringsNothing(s, actions[k], Step(s, actions[k]), i, s.jobs[j].node);
      }
    }
  }

  /** In an orderly run every deployment a cutover moves was reported ready by the target, for that job, since the job was begun. */
  lemma OrderlyCutoversMoveCopies(actions: seq<Action>, a: Action, i: nat)
    requires Orderly(actions) && a.AProcessJob? && a.job < |Run(actions).jobs| && i < |Run(actions).deployments|
    ensures var s' := Run(actions + [a]);
            && i < |s'.deployments|
            && (s'.deployments[i] != Run(actions).deployments[i] ==> Reported(actions, a.job, i) == Some(ServeReady))
  {
    forall k: nat | k < |actions| ensures !BringsBack(actions[..k], actions[k]) { OrderlyBringsNothingBack(actions, k); }
    CopiesAfter(actions, |actions|);
    assert actions[..|actions|] == actions;
    CutoversMoveCopies(actions, a, i);
  }
}
