/** What keeps node deletion safe while no handler overwrites a row that changed after it read it. */
module Evacuation {
  import opened Basics
  import opened Lifecycle
  import opened Scheduler
  import opened Delivery
  import opened ControlPlane
  import opened Effects

  predicate Unfinished(job: Job) { !job.status.JobCompleted? }
  predicate Running(job: Job) { !job.status.JobCompleted? && !job.status.JobFailed? }

  /** Every live deployment on the node of the job has a migration row. */
  ghost predicate Covered(ds: seq<Deployment>, job: Job) {
    forall i: nat :: i < |ds| && LiveOn(ds[i], job.node) ==> i in job.rows
  }

  ghost predicate Vacated(ds: seq<Deployment>, n: nat) {
    forall i: nat :: i < |ds| ==> !LiveOn(ds[i], n)
  }

  ghost predicate JobSound(s: State, job: Job) {
    && job.node < |s.nodes|
    && (Unfinished(job) ==> s.nodes[job.node].status.NodeDraining?)
    && (job.status.JobCompleted? ==> s.nodes[job.node].deleted)
    && (job.status.JobFailed? ==> forall i :: i in job.rows ==> job.rows[i].RowFailed?)
    && (job.rows != map[] ==> job.target.Some?)
    && (job.target.Some? ==> job.target.value != job.node && job.target.value < |s.nodes|)
    && job.total == |job.rows|
    && (forall i :: i in job.rows ==> i < |s.deployments|)
    && (Running(job) ==>
          && job.migrated <= job.total
          && Covered(s.deployments, job)
          && (job.migrated == job.total ==> Vacated(s.deployments, job.node)))
  }

  ghost predicate JobsSound(s: State) {
    && (forall j: nat :: j < |s.jobs| ==> JobSound(s, s.jobs[j]))
    && (forall j: nat, k: nat :: j < |s.jobs| && k < |s.jobs| && j != k && s.jobs[j].node == s.jobs[k].node
          ==> !(Unfinished(s.jobs[j]) && Unfinished(s.jobs[k])))
  }

  /** Assignments and builds only name nodes that exist and are not deleted. */
  ghost predicate NodesSound(s: State) {
    && (forall n: nat :: n < |s.nodes| && s.nodes[n].deleted ==> !s.nodes[n].status.NodeActive?)
    && (forall i: nat :: i < |s.deployments| && Live(s.deployments[i]) && s.deployments[i].serveNode.Some?
          ==> s.deployments[i].serveNode.value < |s.nodes| && !s.nodes[s.deployments[i].serveNode.value].deleted)
    && (forall i: nat :: i < |s.deployments| && ActiveBuild(s.deployments[i]) && s.deployments[i].buildNode.Some?
          ==> s.deployments[i].buildNode.value < |s.nodes| && !s.nodes[s.deployments[i].buildNode.value].deleted)
  }

  ghost predicate EvacuationInvariant(s: State) {
    JobsSound(s) && NodesSound(s)
  }

  // --- Steps that do not touch jobs -------------------------------------------------

  lemma RecedingKeeps(s: State, s': State)
    requires EvacuationInvariant(s) && Recedes(s, s')
    ensures EvacuationInvariant(s')
  {
    forall j: nat | j < |s.jobs| ensures JobSound(s', s'.jobs[j]) {
      assert JobSound(s, s.jobs[j]);
      forall i: nat | i < |s'.deployments| && LiveOn(s'.deployments[i], s.jobs[j].node)
        ensures LiveOn(s.deployments[i], s.jobs[j].node)
      {
        assert RowRecedes(s.deployments[i], s'.deployments[i]);
      }
    }
    forall i: nat | i < |s.deployments| ensures RowRecedes(s.deployments[i], s'.deployments[i]) {}
  }

  /** A new assignment goes to an Active node, and no unfinished job belongs to an Active node. */
  lemma PlacingKeeps(s: State, s': State, i: nat)
    requires EvacuationInvariant(s) && Places(s, s', i)
    ensures EvacuationInvariant(s')
  {
    forall j: nat | j < |s.jobs| ensures JobSound(s', s'.jobs[j]) {
      assert JobSound(s, s.jobs[j]);
    }
  }

  lemma CreatingKeeps(s: State, d: Deployment)
    requires EvacuationInvariant(s)
    requires d.build.BuildPending? && d.serveNode.Some? && HasRoom(s, d.serveNode.value, d.resources)
    ensures EvacuationInvariant(s.(deployments := s.deployments + [d]))
  {
    forall j: nat | j < |s.jobs| ensures JobSound(s.(deployments := s.deployments + [d]), s.jobs[j]) {
      assert JobSound(s, s.jobs[j]);
    }
  }

  lemma ClaimKeeps(s: State, i: nat, n: nat)
    requires EvacuationInvariant(s) && i < |s.deployments| && s.deployments[i].build.BuildPending?
    requires n < |s.nodes| && !s.nodes[n].deleted
    ensures EvacuationInvariant(SetRow(s, i, s.deployments[i].(build := Claimed, buildNode := Some(n))))
  {
    var s' := SetRow(s, i, s.deployments[i].(build := Claimed, buildNode := Some(n)));
    forall j: nat | j < |s.jobs| ensures JobSound(s', s'.jobs[j]) {
      assert JobSound(s, s.jobs[j]);
      assert forall k: nat :: k < |s.deployments| && LiveOn(s'.deployments[k], s.jobs[j].node) ==> LiveOn(s.deployments[k], s.jobs[j].node);
    }
  }

  lemma UploadKeeps(s: State, i: nat, disk: nat)
    requires EvacuationInvariant(s) && i < |s.deployments| && UploadArtifact(s, i, disk).Ok?
    ensures EvacuationInvariant(UploadArtifact(s, i, disk).value)
  {
    var s' := UploadArtifact(s, i, disk).value;
    forall j: nat | j < |s.jobs| ensures JobSound(s', s'.jobs[j]) {
      assert JobSound(s, s.jobs[j]);
      assert forall k: nat :: k < |s.deployments| && LiveOn(s'.deployments[k], s.jobs[j].node) ==> LiveOn(s.deployments[k], s.jobs[j].node);
    }
  }

  /** Steps that leave Draining nodes Draining and do not make deleted nodes Active. */
  lemma NodeStepKeeps(s: State, s': State)
    requires EvacuationInvariant(s)
    requires s' == s.(nodes := s'.nodes) && |s.nodes| <= |s'.nodes|
    requires forall n: nat :: n < |s.nodes| ==>
               && s'.nodes[n].deleted == s.nodes[n].deleted
               && (s.nodes[n].status.NodeDraining? ==> s'.nodes[n].status.NodeDraining?)
               && (s.nodes[n].deleted ==> !s'.nodes[n].status.NodeActive?)
    requires forall n: nat :: |s.nodes| <= n < |s'.nodes| ==> !s'.nodes[n].deleted
    ensures EvacuationInvariant(s')
  {
    forall j: nat | j < |s.jobs| ensures JobSound(s', s'.jobs[j]) {
      assert JobSound(s, s.jobs[j]);
    }
  }

  // --- Steps on one job ---------------------------------------------------------------

  /** Replacing one job of the same node by a sound one keeps all jobs sound. */
  lemma ReplacingJobKeeps(s: State, s': State, j: nat)
    requires EvacuationInvariant(s) && NodesSound(s')
    requires j < |s.jobs| && |s'.jobs| == |s.jobs| && s'.jobs == s.jobs[j := s'.jobs[j]]
    requires s'.jobs[j].node == s.jobs[j].node && (Unfinished(s'.jobs[j]) ==> Unfinished(s.jobs[j]))
    requires JobSound(s', s'.jobs[j])
    requires forall k: nat :: k < |s.jobs| && k != j ==> JobSound(s', s.jobs[k])
    ensures EvacuationInvariant(s')
  {
  }

  lemma ShadowReportKeeps(s: State, i: nat, j: nat, row: RowStatus)
    requires EvacuationInvariant(s) && j < |s.jobs| && i in s.jobs[j].rows && !s.jobs[j].rows[i].RowFailed?
    ensures EvacuationInvariant(s.(jobs := s.jobs[j := s.jobs[j].(rows := s.jobs[j].rows[i := row])]))
  {
    var job := s.jobs[j];
    var s' := s.(jobs := s.jobs[j := job.(rows := job.rows[i := row])]);
    assert JobSound(s, job);
    assert job.rows[i := row].Keys == job.rows.Keys;
    RowCount(job.rows);
    RowCount(job.rows[i := row]);
    ReplacingJobKeeps(s, s', j);
  }

  lemma RowCount(rows: map<nat, RowStatus>)
    ensures |rows| == |rows.Keys|
  {
  }

  /** A fresh job lists every live deployment of its node. */
  lemma NewJobSound(s: State, n: nat, target: Option<nat>, nodes: seq<Node>)
    requires n < |nodes| && nodes[n].status.NodeDraining? && target != Some(n)
    requires target.Some? ==> target.value < |nodes|
    requires AssignedIds(s.deployments, n) != {} ==> target.Some?
    ensures JobSound(s.(nodes := nodes), NewJob(s, n, target))
  {
    var job := NewJob(s, n, target);
    RowCount(job.rows);
    assert target.Some? ==> job.rows.Keys == AssignedIds(s.deployments, n);
    assert forall i: nat :: i < |s.deployments| ==> (i in AssignedIds(s.deployments, n) <==> LiveOn(s.deployments[i], n));
  }

  lemma AppendingJobKeeps(s: State, job: Job)
    requires EvacuationInvariant(s) && JobSound(s, job)
    requires forall j: nat :: j < |s.jobs| && s.jobs[j].node == job.node ==> !Unfinished(s.jobs[j])
    ensures EvacuationInvariant(s.(jobs := s.jobs + [job]))
  {
    var s' := s.(jobs := s.jobs + [job]);
    forall j: nat | j < |s'.jobs| ensures JobSound(s', s'.jobs[j]) {
      if j < |s.jobs| { assert JobSound(s, s.jobs[j]); }
    }
  }

  lemma ReopeningJobKeeps(s: State, j: nat, job: Job)
    requires EvacuationInvariant(s) && JobSound(s, job)
    requires j < |s.jobs| && Unfinished(s.jobs[j]) && s.jobs[j].node == job.node
    ensures EvacuationInvariant(s.(jobs := s.jobs[j := job]))
  {
    var s' := s.(jobs := s.jobs[j := job]);
    forall k: nat | k < |s.jobs| && k != j ensures JobSound(s', s.jobs[k]) { assert JobSound(s, s.jobs[k]); }
    ReplacingJobKeeps(s, s', j);
  }

  lemma EnqueueKeeps(s: State, n: nat, target: Option<nat>, now: int)
    requires EvacuationInvariant(s) && Enqueue(s, n, target, now).Ok?
    ensures EvacuationInvariant(Enqueue(s, n, target, now).value)
  {
    var existing := ActiveJob(s.jobs, |s.jobs|, n);
    var nodes := s.nodes[n := s.nodes[n].(status := NodeDraining)];
    var drained := s.(nodes := nodes);
    var job := NewJob(s, n, target);
    NewJobSound(s, n, target, nodes);
    NodeStepKeeps(s, drained);
    if existing.Some? { ReopeningJobKeeps(drained, existing.value, job); } else { AppendingJobKeeps(drained, job); }
  }

  /** Deletion is accepted exactly for an existing node that no running job is emptying yet, with an eligible
      target when anything is live on it. */
  lemma EnqueueAccepts(s: State, n: nat, target: Option<nat>, now: int)
    requires EvacuationInvariant(s)
    ensures Enqueue(s, n, target, now).Ok? <==>
            && n < |s.nodes| && !s.nodes[n].deleted
            && (!Vacated(s.deployments, n) ==> target.Some? && IsEligibleTarget(s, n, target.value, now))
            && (target.Some? ==> target.value != n && target.value < |s.nodes|)
            && (forall k: nat :: k < |s.jobs| && s.jobs[k].node == n ==> !Running(s.jobs[k]))
  {
    VacatedMeans(s.deployments, n);
  }

  lemma VacatedMeans(ds: seq<Deployment>, n: nat)
    ensures Vacated(ds, n) <==> AssignedIds(ds, n) == {}
  {
    assert forall i: nat :: i in AssignedIds(ds, n) <==> i < |ds| && LiveOn(ds[i], n);
  }

  /** One job of the node, new or reopened after a failure, then lists exactly its live deployments, all still to be
      copied; nothing but that job and the node's status changes. */
  lemma EnqueueLists(s: State, n: nat, target: Option<nat>, now: int, s': State) returns (j: nat)
    requires EvacuationInvariant(s) && Enqueue(s, n, target, now) == Ok(s')
    ensures j < |s'.jobs| && |s.jobs| <= |s'.jobs| <= |s.jobs| + 1
    ensures j == |s.jobs| || (s.jobs[j].node == n && s.jobs[j].status.JobFailed?)
    ensures forall k: nat :: k < |s'.jobs| && k != j ==> k < |s.jobs| && s'.jobs[k] == s.jobs[k]
    ensures s'.jobs[j].node == n && s'.jobs[j].target == target && s'.jobs[j].status.JobQueued? && s'.jobs[j].migrated == 0
    ensures forall i: nat :: i in s'.jobs[j].rows <==> i < |s.deployments| && LiveOn(s.deployments[i], n)
    ensures forall i: nat :: i in s'.jobs[j].rows ==> s'.jobs[j].rows[i].RowPending?
    ensures s' == s.(jobs := s'.jobs, nodes := s.nodes[n := s.nodes[n].(status := NodeDraining)])
  {
    assert forall i: nat :: i in AssignedIds(s.deployments, n) <==> i < |s.deployments| && LiveOn(s.deployments[i], n);
    var existing := ActiveJob(s.jobs, |s.jobs|, n);
    j := if existing.Some? then existing.value else |s.jobs|;
  }

  // --- A pass over a job -----------------------------------------------------------------

  lemma FailingKeeps(s: State, j: nat, base: Job, ready: nat, builds: nat)
    requires EvacuationInvariant(s) && j < |s.jobs| && Running(s.jobs[j])
    requires base.node == s.jobs[j].node && base.target == s.jobs[j].target && base.total == s.jobs[j].total
    requires base.rows.Keys == s.jobs[j].rows.Keys
    ensures EvacuationInvariant(s.(jobs := s.jobs[j := Failed(base, ready, builds)]))
  {
    var job := s.jobs[j];
    var failed := Failed(base, ready, builds);
    assert JobSound(s, job);
    assert failed.rows.Keys == job.rows.Keys;
    RowCount(failed.rows);
    RowCount(job.rows);
    ReplacingJobKeeps(s, s.(jobs := s.jobs[j := failed]), j);
  }

  /** When no row has failed and as many rows are ready as there are rows, all of them are ready. */
  lemma AllReady(rows: map<nat, RowStatus>)
    ensures |RowsWith(rows, RowReady)| <= |rows|
    ensures |RowsWith(rows, RowReady)| == |rows| <==> forall i :: i in rows ==> rows[i].RowReady?
  {
    RowCount(rows);
    FullSubset(RowsWith(rows, RowReady), rows.Keys);
    if forall i :: i in rows ==> rows[i].RowReady? {
      assert RowsWith(rows, RowReady) == rows.Keys;
    } else {
      var i :| i in rows && !rows[i].RowReady?;
      assert i in rows.Keys && i !in RowsWith(rows, RowReady);
    }
  }

  /** The cutover empties the source, moves exactly the rows' live deployments that were still on it, and
      leaves every other row of the table alone. */
  lemma SwitchVacates(s: State, job: Job)
    requires Covered(s.deployments, job) && job.target.Some? && job.target.value != job.node
    ensures var ds := Switched(s.deployments, job);
            && Vacated(ds, job.node)
            && forall i: nat :: i < |ds| ==>
                 && Live(ds[i]) == Live(s.deployments[i])
                 && ds[i].resources == s.deployments[i].resources
                 && (if LiveOn(s.deployments[i], job.node) then ds[i].serveNode == job.target else ds[i] == s.deployments[i])
  {
  }

  /** Where the routes stand after the switch of a pass: the source is empty, and whatever moved went to an
      Active target. */
  lemma SwitchRoutesKeepsNodes(s: State, job: Job, now: int)
    requires EvacuationInvariant(s) && JobSound(s, job) && Running(job)
    requires job.migrated < job.total ==> TargetStillAvailable(s, job, now)
    ensures var s' := SwitchRoutes(s, job);
            && NodesSound(s') && s'.nodes == s.nodes && s'.jobs == s.jobs && |s'.deployments| == |s.deployments|
            && Vacated(s'.deployments, job.node)
            && (forall k: nat :: k < |s.jobs| && s.jobs[k].node != job.node ==> JobSound(s', s.jobs[k]))
  {
    var s' := SwitchRoutes(s, job);
    if job.migrated < job.total {
      assert job.rows != map[];
      SwitchVacates(s, job);
      SwitchKeepsNodes(s, s', job);
      forall k: nat | k < |s.jobs| && s.jobs[k].node != job.node ensures JobSound(s', s.jobs[k]) {
        assert JobSound(s, s.jobs[k]);
        OtherJobsStaySound(s, s', job, s.jobs[k]);
      }
    }
  }

  lemma SwitchKeepsNodes(s: State, s': State, job: Job)
    requires NodesSound(s) && s' == s.(deployments := Switched(s.deployments, job))
    requires job.target.Some? && job.target.value < |s.nodes| && s.nodes[job.target.value].status.NodeActive?
    ensures NodesSound(s')
  {
  }

  /** A cutover to an Active target moves nothing onto a node that another job empties. */
  lemma OtherJobsStaySound(s: State, s': State, job: Job, other: Job)
    requires JobSound(s, other) && other.node != job.node
    requires s' == s.(deployments := Switched(s.deployments, job))
    requires job.target.Some? && job.target.value < |s.nodes| && s.nodes[job.target.value].status.NodeActive?
    ensures JobSound(s', other)
  {
    if Running(other) {
      assert other.node != job.target.value;
      assert forall i: nat :: i < |s.deployments| && LiveOn(s'.deployments[i], other.node) ==> LiveOn(s.deployments[i], other.node);
    }
  }

  /** A pass that reaches Draining or Deleting: the job keeps its rows, all of them ready. */
  lemma PassKeeps(s: State, j: nat, done: Job, now: int)
    requires EvacuationInvariant(s) && j < |s.jobs| && Running(s.jobs[j])
    requires s.jobs[j].migrated < s.jobs[j].total ==> TargetStillAvailable(s, s.jobs[j], now)
    requires done.node == s.jobs[j].node && done.target == s.jobs[j].target && done.total == s.jobs[j].total
    requires done.rows.Keys == s.jobs[j].rows.Keys && done.migrated == done.total
    requires done.status.JobDraining? || done.status.JobDeleting?
    ensures EvacuationInvariant(SwitchRoutes(s, s.jobs[j].(rows := done.rows)).(jobs := s.jobs[j := done]))
  {
    var job := s.jobs[j];
    var settled := job.(rows := done.rows);
    var s' := SwitchRoutes(s, settled).(jobs := s.jobs[j := done]);
    assert JobSound(s, job);
    RowCount(job.rows);
    RowCount(done.rows);
    assert JobSound(s, settled);
    SwitchRoutesKeepsNodes(s, settled, now);
    forall k: nat | k < |s.jobs| && k != j ensures JobSound(s', s.jobs[k]) {
      if s.jobs[k].node == job.node { assert JobSound(s, s.jobs[k]); }
    }
    ReplacingJobKeeps(s, s', j);
  }

  /** Deployment `i` needs no copy any more: its row is ready, or it ended or was retired. */
  predicate Copied(s: State, job: Job, i: nat)
    requires i in job.rows
  {
    job.rows[i] == RowReady || i >= |s.deployments| || !Live(s.deployments[i])
  }

  predicate AllCopied(s: State, job: Job) {
    forall i :: i in job.rows ==> Copied(s, job, i)
  }

  /** The pass over job `j` moves its routes: some deployments still count as not migrated, the target is
      available and no deployment needs a copy any more. */
  predicate Switches(s: State, j: nat, now: int)
    requires j < |s.jobs|
  {
    var job := s.jobs[j];
    && Running(job) && job.migrated < job.total && TargetStillAvailable(s, job, now) && AllCopied(s, job)
    && (job.status.JobDeleting? && ActiveBuildCount(s.deployments, job.node) == 0 ==> job.node < |s.nodes|)
  }

  /** The pass over job `j` deletes the node. */
  predicate Deletes(s: State, j: nat, now: int)
    requires j < |s.jobs|
  {
    var job := s.jobs[j];
    && job.status.JobDeleting? && (job.migrated < job.total ==> TargetStillAvailable(s, job, now)) && AllCopied(s, job)
    && ActiveBuildCount(s.deployments, job.node) == 0 && job.node < |s.nodes|
  }

  /** The pass settles every row as ready exactly when no deployment needs a copy any more. */
  lemma CopiedMeans(s: State, job: Job, invalid: set<nat>)
    ensures AllCopied(s, job) <==> forall i :: i in SettledRows(job, s.deployments, invalid) ==> SettledRows(job, s.deployments, invalid)[i].RowReady?
  {
    var rows := SettledRows(job, s.deployments, invalid);
    forall i | i in job.rows ensures Copied(s, job, i) <==> rows[i].RowReady? {}
    if forall i :: i in rows ==> rows[i].RowReady? {
      forall i | i in job.rows ensures Copied(s, job, i) { assert i in rows; }
    }
  }

  /** What a pass does to deployments and nodes, in any state. */
  lemma PassEffect(s: State, j: nat, now: int, invalid: set<nat>)
    requires j < |s.jobs|
    ensures var job := s.jobs[j];
            var s' := ProcessJob(s, j, now, invalid);
            && s'.deployments == (if Switches(s, j, now) then Switched(s.deployments, job) else s.deployments)
            && s'.nodes == (if Deletes(s, j, now)
                            then s.nodes[job.node := s.nodes[job.node].(status := NodeDisabled, deleted := true)] else s.nodes)
  {
    var job := s.jobs[j];
    if Running(job) {
      var rows := SettledRows(job, s.deployments, invalid);
      RowCount(rows);
      AllReady(rows);
      CopiedMeans(s, job, invalid);
      if AllCopied(s, job) { assert RowsWith(rows, RowFailed) == {}; }
      assert Switched(s.deployments, job.(rows := rows)) == Switched(s.deployments, job);
    }
  }

  lemma ProcessJobKeeps(s: State, j: nat, now: int, invalid: set<nat>)
    requires EvacuationInvariant(s) && j < |s.jobs|
    ensures EvacuationInvariant(ProcessJob(s, j, now, invalid))
  {
    var job := s.jobs[j];
    if !Running(job) { return; }
    assert JobSound(s, job);
    var builds := ActiveBuildCount(s.deployments, job.node);
    if job.migrated < job.total && !TargetStillAvailable(s, job, now) {
      FailingKeeps(s, j, job, |RowsWith(job.rows, RowReady)|, builds);
      return;
    }
    var rows := SettledRows(job, s.deployments, invalid);
    assert rows.Keys == job.rows.Keys;
    RowCount(rows);
    RowCount(job.rows);
    AllReady(rows);
    var settled, ready := job.(rows := rows), |RowsWith(rows, RowReady)|;
    match NextPhase(|rows|, ready, |RowsWith(rows, RowFailed)|, builds) {
      case PhaseFailed => FailingKeeps(s, j, settled, ready, builds);
      case PhaseMigrating => MigratingKeeps(s, j, settled.(status := JobMigrating, migrated := ready, activeBuilds := builds));
      case PhaseDraining => PassKeeps(s, j, settled.(status := JobDraining, migrated := ready, activeBuilds := builds), now);
      case PhaseDeleting =>
        if !job.status.JobDeleting? {
          PassKeeps(s, j, settled.(status := JobDeleting, migrated := ready, activeBuilds := 0), now);
        } else {
          DeletingKeeps(s, j, rows, now);
        }
    }
  }

  lemma MigratingKeeps(s: State, j: nat, waiting: Job)
    requires EvacuationInvariant(s) && j < |s.jobs| && Running(s.jobs[j])
    requires waiting.node == s.jobs[j].node && waiting.target == s.jobs[j].target && waiting.total == s.jobs[j].total
    requires waiting.rows.Keys == s.jobs[j].rows.Keys && waiting.status.JobMigrating? && waiting.migrated < waiting.total
    ensures EvacuationInvariant(s.(jobs := s.jobs[j := waiting]))
  {
    assert JobSound(s, s.jobs[j]);
    RowCount(s.jobs[j].rows);
    RowCount(waiting.rows);
    ReplacingJobKeeps(s, s.(jobs := s.jobs[j := waiting]), j);
  }

  lemma NoActiveBuild(ds: seq<Deployment>, n: nat)
    requires ActiveBuildCount(ds, n) == 0
    ensures forall i: nat :: i < |ds| ==> !BuildingOn(ds[i], n)
  {
    var building := set i: nat | i < |ds| && BuildingOn(ds[i], n);
    forall i: nat | i < |ds| ensures !BuildingOn(ds[i], n) {
      assert i in building <==> BuildingOn(ds[i], n);
    }
  }

  /** The pass that deletes the node: nothing live is left on it and no build runs on it. */
  lemma DeletingKeeps(s: State, j: nat, rows: map<nat, RowStatus>, now: int)
    requires EvacuationInvariant(s) && j < |s.jobs| && Running(s.jobs[j])
    requires s.jobs[j].migrated < s.jobs[j].total ==> TargetStillAvailable(s, s.jobs[j], now)
    requires rows.Keys == s.jobs[j].rows.Keys
    requires ActiveBuildCount(s.deployments, s.jobs[j].node) == 0
    ensures var job := s.jobs[j];
            var settled := job.(rows := rows);
            EvacuationInvariant(SwitchRoutes(s, settled).(
              jobs := s.jobs[j := settled.(status := JobCompleted, migrated := |RowsWith(rows, RowReady)|, activeBuilds := 0)],
              nodes := s.nodes[job.node := s.nodes[job.node].(status := NodeDisabled, deleted := true)]))
  {
    var job := s.jobs[j];
    var settled := job.(rows := rows);
    var n := job.node;
    assert JobSound(s, job);
    RowCount(job.rows);
    RowCount(rows);
    assert JobSound(s, settled);
    SwitchRoutesKeepsNodes(s, settled, now);
    NoActiveBuild(s.deployments, n);
    var moved := SwitchRoutes(s, settled);
    var s' := moved.(
      jobs := s.jobs[j := settled.(status := JobCompleted, migrated := |RowsWith(rows, RowReady)|, activeBuilds := 0)],
      nodes := s.nodes[n := s.nodes[n].(status := NodeDisabled, deleted := true)]);
    DeletedNodeIsIdle(s, settled);
    OtherJobsSurvive(s, moved, j, s');
    ReplacingJobKeeps(s, s', j);
  }

  lemma OtherJobsSurvive(s: State, moved: State, j: nat, s': State)
    requires EvacuationInvariant(s) && j < |s.jobs| && Running(s.jobs[j]) && s.jobs[j].node < |s.nodes|
    requires forall k: nat :: k < |s.jobs| && s.jobs[k].node != s.jobs[j].node ==> JobSound(moved, s.jobs[k])
    requires moved.nodes == s.nodes && |moved.deployments| == |s.deployments| && s'.deployments == moved.deployments
    requires s'.nodes == s.nodes[s.jobs[j].node := s.nodes[s.jobs[j].node].(status := NodeDisabled, deleted := true)]
    ensures forall k: nat :: k < |s.jobs| && k != j ==> JobSound(s', s.jobs[k])
  {
    forall k: nat | k < |s.jobs| && k != j ensures JobSound(s', s.jobs[k]) {
      assert JobSound(s, s.jobs[k]);
      if s.jobs[k].node != s.jobs[j].node { assert JobSound(moved, s.jobs[k]); }
    }
  }

  lemma DeletedNodeIsIdle(s: State, settled: Job)
    requires NodesSound(SwitchRoutes(s, settled)) && settled.node < |s.nodes|
    requires Vacated(SwitchRoutes(s, settled).deployments, settled.node)
    requires forall i: nat :: i < |s.deployments| ==> !BuildingOn(s.deployments[i], settled.node)
    ensures NodesSound(SwitchRoutes(s, settled).(
              nodes := s.nodes[settled.node := s.nodes[settled.node].(status := NodeDisabled, deleted := true)]))
  {
    var moved := SwitchRoutes(s, settled);
    forall i: nat | i < |moved.deployments| && ActiveBuild(moved.deployments[i])
      ensures moved.deployments[i].buildNode != Some(settled.node)
    {
      assert !BuildingOn(s.deployments[i], settled.node);
      assert moved.deployments[i].build == s.deployments[i].build && moved.deployments[i].buildNode == s.deployments[i].buildNode;
    }
  }

  // --- Overtaken writes ------------------------------------------------------------------------

  /** A heartbeat or registration makes a node Active that is Draining or deleted by now: it was overtaken by
      the deletion of the node. */
  predicate RevivesNode(s: State, a: Action) {
    && a.ANodeActivity? && a.node < |s.nodes| && !a.seenNode.NodeDisabled? && !a.seenNode.NodeDraining?
    && (s.nodes[a.node].deleted || s.nodes[a.node].status.NodeDraining?)
  }

  predicate Overtaken(s: State, a: Action) {
    RevivesNode(s, a) || RestartsBuild(s, a)
  }

  /** No heartbeat, registration or build report of the run was overtaken. */
  ghost predicate Orderly(actions: seq<Action>) {
    forall k: nat :: k < |actions| ==> !Overtaken(Run(actions[..k]), actions[k])
  }

  lemma OrderlyEnds(actions: seq<Action>)
    requires Orderly(actions) && actions != []
    ensures Orderly(actions[..|actions| - 1])
    ensures !Overtaken(Run(actions[..|actions| - 1]), actions[|actions| - 1])
  {
    var before := actions[..|actions| - 1];
    forall k: nat | k < |before| ensures !Overtaken(Run(before[..k]), before[k]) {
      assert before[..k] == actions[..k];
    }
  }

  lemma OrderlyPrefix(actions: seq<Action>, k: nat)
    requires Orderly(actions) && k <= |actions|
    ensures Orderly(actions[..k])
  {
    forall j: nat | j < k ensures !Overtaken(Run(actions[..k][..j]), actions[..k][j]) {
      assert actions[..k][..j] == actions[..j];
    }
  }

  // --- Every run ---------------------------------------------------------------------------

  lemma OddEffectKeeps(s: State, a: Action, s': State)
    requires EvacuationInvariant(s) && OnDeployment(a) && a.deployment < |s.deployments| && OddEffect(s, a, s') && !RestartsBuild(s, a)
    ensures EvacuationInvariant(s')
  {
    if a.AClaim? { ClaimKeeps(s, a.deployment, a.node); }
    else if a.AUpload? { UploadKeeps(s, a.deployment, a.disk); }
    else { ShadowReportKeeps(s, a.deployment, a.job_.value, RowFor(a.serve)); }
  }

  lemma DeliveryKeeps(s: State, i: nat, mid: State, s': State)
    requires EvacuationInvariant(s) && (mid == s || Places(s, mid, i)) && Recedes(mid, s')
    ensures EvacuationInvariant(s')
  {
    if mid != s { PlacingKeeps(s, mid, i); }
    RecedingKeeps(mid, s');
  }

  lemma DeploymentStepKeeps(s: State, a: Action, s': State)
    requires EvacuationInvariant(s) && OnDeployment(a) && a.deployment < |s.deployments| && DeploymentStep(s, a) == Ok(s')
    requires !RestartsBuild(s, a)
    ensures EvacuationInvariant(s')
  {
    var mid := DeploymentStepEffect(s, a, s');
    if PlainDelivery(s, a) { DeliveryKeeps(s, a.deployment, mid, s'); } else { OddEffectKeeps(s, a, s'); }
  }

  lemma StepKeeps(s: State, a: Action)
    requires EvacuationInvariant(s) && !Overtaken(s, a)
    ensures EvacuationInvariant(Step(s, a))
  {
    if OnDeployment(a) {
      StepOnDeployment(s, a);
      if a.deployment < |s.deployments| && DeploymentStep(s, a).Ok? { DeploymentStepKeeps(s, a, DeploymentStep(s, a).value); }
    } else if a.ACreateNode? || a.ANodeActivity? || a.AMarkStale? {
      NodeStepKeeps(s, Step(s, a));
    } else if a.ACreate? {
      CreateStepKeeps(s, a);
    } else if a.AEnqueue? {
      EnqueueStepKeeps(s, a.node, a.target, a.now);
    } else {
      JobStepKeeps(s, a);
    }
  }

  lemma CreateStepKeeps(s: State, a: Action)
    requires EvacuationInvariant(s) && a.ACreate?
    ensures EvacuationInvariant(Step(s, a))
  {
    var d := CreateShape(s, a);
    if d.Some? {
      PlacementHasRoom(s, a.now, ServeResourcesFor(a.ssr), a.region_, a.selected, a.chosen.value);
      CreatingKeeps(s, d.value);
    }
  }

  lemma JobStepKeeps(s: State, a: Action)
    requires EvacuationInvariant(s) && (a.AProcessJob? || a.AAbortJob?)
    ensures EvacuationInvariant(if a.job >= |s.jobs| then s else if a.AProcessJob? then ProcessJob(s, a.job, a.now, a.invalidArtifacts) else AbortJob(s, a.job))
  {
    if a.job < |s.jobs| {
      if a.AProcessJob? { ProcessJobKeeps(s, a.job, a.now, a.invalidArtifacts); } else { AbortKeeps(s, a.job); }
    }
  }

  lemma EnqueueStepKeeps(s: State, n: nat, target: Option<nat>, now: int)
    requires EvacuationInvariant(s)
    ensures EvacuationInvariant(Commit(s, Enqueue(s, n, target, now)))
  {
    if Enqueue(s, n, target, now).Ok? { EnqueueKeeps(s, n, target, now); }
  }

  lemma AbortKeeps(s: State, j: nat)
    requires EvacuationInvariant(s) && j < |s.jobs|
    ensures EvacuationInvariant(AbortJob(s, j))
  {
    if Running(s.jobs[j]) { FailingKeeps(s, j, s.jobs[j], s.jobs[j].migrated, s.jobs[j].activeBuilds); }
  }

  lemma {:induction false} RunKeeps(actions: seq<Action>)
    requires Orderly(actions)
    ensures EvacuationInvariant(Run(actions))
  {
    if actions != [] {
      OrderlyEnds(actions);
      RunKeeps(actions[..|actions| - 1]);
      RunEnds(actions);
      StepKeeps(Run(actions[..|actions| - 1]), actions[|actions| - 1]);
    }
  }

  /** Each transaction of an orderly run finds the invariant and is not overtaken. */
  lemma OrderlyAt(actions: seq<Action>, k: nat, s: State)
    requires Orderly(actions) && k < |actions| && s == Run(actions[..k])
    ensures EvacuationInvariant(s) && !Overtaken(s, actions[k]) && Run(actions[..k + 1]) == Step(s, actions[k])
  {
    OrderlyPrefix(actions, k);
    RunKeeps(actions[..k]);
    RunPrefix(actions, k);
  }

  /** In every state an orderly run reaches, whatever ran and in whatever order, a deleted node serves no live
      deployment and runs no build; in particular it did not at the moment it was deleted. */
  lemma DeletedNodesAreIdle(actions: seq<Action>, n: nat)
    requires Orderly(actions)
    requires n < |Run(actions).nodes| && Run(actions).nodes[n].deleted
    ensures forall i: nat :: i < |Run(actions).deployments| ==>
              !LiveOn(Run(actions).deployments[i], n) && !BuildingOn(Run(actions).deployments[i], n)
  {
    RunKeeps(actions);
  }

  // --- Progress ------------------------------------------------------------------------------

  /** Nothing is left to copy and no build is left to wait for. */
  ghost predicate Drained(s: State, j: nat, now: int)
    requires j < |s.jobs|
  {
    var job := s.jobs[j];
    && Running(job)
    && (job.migrated < job.total ==> TargetStillAvailable(s, job, now))
    && ActiveBuildCount(s.deployments, job.node) == 0
    && AllCopied(s, job)
  }

  /** The pass over a drained job: it enters the deleting phase, or completes when it is already there. */
  lemma DrainedPass(s: State, j: nat, now: int, invalid: set<nat>)
    requires EvacuationInvariant(s) && j < |s.jobs| && Drained(s, j, now)
    ensures var s' := ProcessJob(s, j, now, invalid);
            && |s'.jobs| == |s.jobs|
            && if s.jobs[j].status.JobDeleting?
               then s'.jobs[j].status.JobCompleted? && s.jobs[j].node < |s'.nodes| && s'.nodes[s.jobs[j].node].deleted
               else s'.jobs[j].status.JobDeleting? && s'.jobs[j].node == s.jobs[j].node && Drained(s', j, now)
  {
    var job := s.jobs[j];
    assert JobSound(s, job);
    var rows := SettledRows(job, s.deployments, invalid);
    assert rows.Keys == job.rows.Keys;
    RowCount(rows);
    RowCount(job.rows);
    AllReady(rows);
    CopiedMeans(s, job, invalid);
    assert RowsWith(rows, RowFailed) == {};
    if !job.status.JobDeleting? {
      var s' := ProcessJob(s, j, now, invalid);
      SwitchKeepsBuilds(s, job.(rows := rows), job.node);
      assert SettledRows(s'.jobs[j], s'.deployments, invalid).Keys == rows.Keys;
    }
  }

  lemma SwitchKeepsBuilds(s: State, settled: Job, n: nat)
    ensures ActiveBuildCount(SwitchRoutes(s, settled).deployments, n) == ActiveBuildCount(s.deployments, n)
  {
    var ds, ds' := s.deployments, SwitchRoutes(s, settled).deployments;
    assert forall i: nat :: i < |ds| ==> BuildingOn(ds'[i], n) == BuildingOn(ds[i], n);
    assert (set i: nat | i < |ds| && BuildingOn(ds[i], n)) == (set i: nat | i < |ds'| && BuildingOn(ds'[i], n));
  }

  /** A drained deletion job deletes its node within two passes. */
  lemma DrainedJobDeletesItsNode(actions: seq<Action>, s: State, j: nat, now: int, invalid: set<nat>)
    requires Orderly(actions) && s == Run(actions) && j < |s.jobs| && Drained(s, j, now)
    ensures var n := s.jobs[j].node;
            var once := ProcessJob(s, j, now, invalid);
            j < |once.jobs| &&
            var twice := ProcessJob(once, j, now, invalid);
            n < |once.nodes| && n < |twice.nodes| && (once.nodes[n].deleted || twice.nodes[n].deleted)
  {
    RunKeeps(actions);
    TwoPassesDelete(s, j, now, invalid);
  }

  lemma TwoPassesDelete(s: State, j: nat, now: int, invalid: set<nat>)
    requires EvacuationInvariant(s) && j < |s.jobs| && Drained(s, j, now)
    ensures var n := s.jobs[j].node;
            var once := ProcessJob(s, j, now, invalid);
            j < |once.jobs| &&
            var twice := ProcessJob(once, j, now, invalid);
            n < |once.nodes| && n < |twice.nodes| && (once.nodes[n].deleted || twice.nodes[n].deleted)
  {
    assert JobSound(s, s.jobs[j]);
    DrainedPass(s, j, now, invalid);
    ProcessJobKeeps(s, j, now, invalid);
    var once := ProcessJob(s, j, now, invalid);
    assert JobSound(once, once.jobs[j]);
    if !s.jobs[j].status.JobDeleting? {
      DrainedPass(once, j, now, invalid);
    } else {
      DeletionIsFinal(once, j, now, invalid);
    }
  }

  lemma DeletionIsFinal(s: State, j: nat, now: int, invalid: set<nat>)
    requires j < |s.jobs| && s.jobs[j].status.JobCompleted?
    ensures ProcessJob(s, j, now, invalid) == s
  {
  }
}
