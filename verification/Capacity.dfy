/** Every transaction other than an artifact upload or an overtaken write keeps each node within its disk and within two
    deployments over its limit, counting what unfinished deletion jobs will still move onto it. */
module Capacity {
  import opened Basics
  import opened Lifecycle
  import opened Scheduler
  import opened Delivery
  import opened ControlPlane
  import opened Effects
  import opened Evacuation

  /** A migration row that will really move deployment `i` to node `n` at its cutover: the deployment is
      still on the node the job empties. The scheduler also counts rows whose deployment has gone elsewhere. */
  predicate ReservedOn(job: Job, n: nat, i: nat, d: Deployment) {
    ShadowOn(job, n, i, d) && d.serveNode == Some(job.node)
  }

  function ReservedTerm(jobs: seq<Job>, n: nat, i: nat, d: Deployment, m: Measure): nat -> nat {
    (j: nat) => if j < |jobs| && ReservedOn(jobs[j], n, i, d) then Weight(m, d) else 0
  }

  function Reserved(s: State, n: nat, m: Measure, i: nat, d: Deployment): nat {
    Sum(|s.jobs|, ReservedTerm(s.jobs, n, i, d, m))
  }

  function CommittedShare(s: State, n: nat, m: Measure, i: nat): nat {
    if i < |s.deployments|
    then AssignedShare(s.deployments[i], n, m) + Reserved(s, n, m, i, s.deployments[i])
    else 0
  }

  function CommittedTerm(s: State, n: nat, m: Measure): nat -> nat {
    (i: nat) => CommittedShare(s, n, m, i)
  }

  /** What node `n` carries plus what will be moved onto it. */
  function Committed(s: State, n: nat, m: Measure): nat {
    Sum(|s.deployments|, CommittedTerm(s, n, m))
  }

  predicate Hard(m: Measure) { m.Disk? || m.Slots? }

  function Limit(n: Node, m: Measure): nat
    requires Hard(m)
  {
    if m.Disk? then n.capacity.disk else n.capacity.maxDeployments + OVERFLOW_SLOTS
  }

  ghost predicate WithinLimits(s: State, n: nat)
    requires n < |s.nodes|
  {
    forall m: Measure :: Hard(m) ==> Committed(s, n, m) <= Limit(s.nodes[n], m)
  }

  ghost predicate CapacityInvariant(s: State) {
    forall n: nat :: n < |s.nodes| ==> WithinLimits(s, n)
  }

  // --- Committed, scheduled and assigned usage -------------------------------------------

  /** The scheduler never counts less than what is committed. */
  lemma CommittedAtMostScheduled(s: State, n: nat, m: Measure)
    ensures Committed(s, n, m) <= ScheduledUsage(s, n, m)
  {
    forall i: nat | i < |s.deployments| ensures CommittedShare(s, n, m, i) <= UsageShare(s, n, m, i) {
      var d := s.deployments[i];
      SumMonotone(|s.jobs|, ReservedTerm(s.jobs, n, i, d, m), ShadowTerm(s.jobs, n, i, d, m));
    }
    SumMonotone(|s.deployments|, CommittedTerm(s, n, m), UsageTerm(s, n, m));
  }

  lemma AssignedAtMostCommitted(s: State, n: nat, m: Measure)
    ensures AssignedUsage(s.deployments, n, m) <= Committed(s, n, m)
  {
    SumMonotone(|s.deployments|, AssignedTerm(s.deployments, n, m), CommittedTerm(s, n, m));
  }

  lemma SharesBound(s: State, s': State, n: nat, m: Measure)
    requires |s'.deployments| == |s.deployments|
    requires forall i: nat :: i < |s.deployments| ==> CommittedShare(s', n, m, i) <= CommittedShare(s, n, m, i)
    ensures Committed(s', n, m) <= Committed(s, n, m)
  {
    SumMonotone(|s.deployments|, CommittedTerm(s', n, m), CommittedTerm(s, n, m));
  }

  /** Nothing is reserved for a deployment that sits on an Active node: no job empties an Active node. */
  lemma NothingReserved(s: State, n: nat, m: Measure, i: nat, d: Deployment)
    requires JobsSound(s)
    requires d.serveNode.Some? ==> d.serveNode.value < |s.nodes| && s.nodes[d.serveNode.value].status.NodeActive?
                                   && !s.nodes[d.serveNode.value].deleted
    ensures Reserved(s, n, m, i, d) == 0
  {
    forall j: nat | j < |s.jobs| ensures !ReservedOn(s.jobs[j], n, i, d) {
      assert JobSound(s, s.jobs[j]);
    }
    SumZero(|s.jobs|, ReservedTerm(s.jobs, n, i, d, m));
  }

  // --- Delivery steps ------------------------------------------------------------------------

  lemma RecedingShare(s: State, s': State, n: nat, m: Measure, i: nat)
    requires Recedes(s, s') && i < |s.deployments|
    ensures CommittedShare(s', n, m, i) <= CommittedShare(s, n, m, i)
  {
    var d, d' := s.deployments[i], s'.deployments[i];
    assert RowRecedes(d, d');
    SumMonotone(|s.jobs|, ReservedTerm(s.jobs, n, i, d', m), ReservedTerm(s.jobs, n, i, d, m));
  }

  lemma RecedingKeepsCapacity(s: State, s': State)
    requires CapacityInvariant(s) && Recedes(s, s')
    ensures CapacityInvariant(s')
  {
    forall n: nat, m: Measure | n < |s.nodes| && Hard(m) ensures Committed(s', n, m) <= Limit(s.nodes[n], m) {
      assert WithinLimits(s, n);
      forall i: nat | i < |s.deployments| ensures CommittedShare(s', n, m, i) <= CommittedShare(s, n, m, i) {
        RecedingShare(s, s', n, m, i);
      }
      SharesBound(s, s', n, m);
    }
  }

  /** Placing adds the deployment's own share on the chosen node and nothing anywhere else. */
  lemma PlacingAdds(s: State, s': State, i: nat, n: nat, m: Measure)
    requires JobsSound(s) && Places(s, s', i)
    ensures Committed(s', n, m) <= Committed(s, n, m) + (if s'.deployments[i].serveNode == Some(n) then Weight(m, s.deployments[i]) else 0)
  {
    var d' := s'.deployments[i];
    NothingReserved(s, n, m, i, d');
    forall k: nat | k < |s.deployments| && k != i ensures CommittedShare(s', n, m, k) == CommittedShare(s, n, m, k) {}
    SumAt(|s.deployments|, CommittedTerm(s', n, m), CommittedTerm(s, n, m), i);
  }

  lemma PlacingKeepsCapacity(s: State, s': State, i: nat)
    requires JobsSound(s) && CapacityInvariant(s) && Places(s, s', i)
    ensures CapacityInvariant(s')
  {
    forall n: nat, m: Measure | n < |s.nodes| && Hard(m) ensures Committed(s', n, m) <= Limit(s.nodes[n], m) {
      assert WithinLimits(s, n);
      PlacingAdds(s, s', i, n, m);
      CommittedAtMostScheduled(s, n, m);
    }
  }

  lemma CreatingKeepsCapacity(s: State, d: Deployment)
    requires EvacuationInvariant(s) && CapacityInvariant(s)
    requires d.serveNode.Some? && HasRoom(s, d.serveNode.value, d.resources)
    ensures CapacityInvariant(s.(deployments := s.deployments + [d]))
  {
    var s' := s.(deployments := s.deployments + [d]);
    forall n: nat, m: Measure | n < |s.nodes| && Hard(m) ensures Committed(s', n, m) <= Limit(s.nodes[n], m) {
      assert WithinLimits(s, n);
      CreatingAdds(s, d, n, m);
      CommittedAtMostScheduled(s, n, m);
    }
  }

  lemma CreatingAdds(s: State, d: Deployment, n: nat, m: Measure)
    requires EvacuationInvariant(s) && d.serveNode.Some? && HasRoom(s, d.serveNode.value, d.resources)
    ensures Committed(s.(deployments := s.deployments + [d]), n, m) == Committed(s, n, m) + AssignedShare(d, n, m)
  {
    var s' := s.(deployments := s.deployments + [d]);
    CreatedShare(s, d, n, m);
    forall k: nat | k < |s.deployments| ensures CommittedTerm(s', n, m)(k) == CommittedTerm(s, n, m)(k) { OtherShare(s, d, n, m, k); }
    SumEqual(|s.deployments|, CommittedTerm(s', n, m), CommittedTerm(s, n, m));
  }

  lemma CreatedShare(s: State, d: Deployment, n: nat, m: Measure)
    requires EvacuationInvariant(s) && d.serveNode.Some? && HasRoom(s, d.serveNode.value, d.resources)
    ensures CommittedShare(s.(deployments := s.deployments + [d]), n, m, |s.deployments|) == AssignedShare(d, n, m)
  {
    NothingReserved(s, n, m, |s.deployments|, d);
  }

  lemma OtherShare(s: State, d: Deployment, n: nat, m: Measure, k: nat)
    requires k < |s.deployments|
    ensures CommittedShare(s.(deployments := s.deployments + [d]), n, m, k) == CommittedShare(s, n, m, k)
  {
  }

  /** A node that does not exist yet carries and expects nothing. */
  lemma NothingCommitted(s: State, n: nat, m: Measure)
    requires EvacuationInvariant(s) && n >= |s.nodes|
    ensures Committed(s, n, m) == 0
  {
    forall i: nat | i < |s.deployments| ensures CommittedShare(s, n, m, i) == 0 {
      forall j: nat | j < |s.jobs| ensures !ReservedOn(s.jobs[j], n, i, s.deployments[i]) {
        assert JobSound(s, s.jobs[j]);
      }
      SumZero(|s.jobs|, ReservedTerm(s.jobs, n, i, s.deployments[i], m));
    }
    SumZero(|s.deployments|, CommittedTerm(s, n, m));
  }

  /** Steps that leave the deployments, the jobs and the capacities alone. */
  lemma NodeStepKeepsCapacity(s: State, s': State)
    requires CapacityInvariant(s) && EvacuationInvariant(s)
    requires s' == s.(nodes := s'.nodes) && |s.nodes| <= |s'.nodes|
    requires forall n: nat :: n < |s.nodes| ==> s'.nodes[n].capacity == s.nodes[n].capacity
    ensures CapacityInvariant(s')
  {
    forall n: nat, m: Measure | n < |s'.nodes| && Hard(m) ensures Committed(s', n, m) <= Limit(s'.nodes[n], m) {
      if n < |s.nodes| { assert WithinLimits(s, n); } else { NothingCommitted(s, n, m); }
      assert forall i: nat :: CommittedShare(s', n, m, i) == CommittedShare(s, n, m, i);
      SumEqual(|s.deployments|, CommittedTerm(s', n, m), CommittedTerm(s, n, m));
    }
  }

  // --- Jobs ---------------------------------------------------------------------------------------

  /** Replacing job `j` by one that reserves no more for a deployment. */
  lemma ReservedAfterUpdate(s: State, j: nat, job: Job, n: nat, m: Measure, i: nat, d: Deployment)
    requires j < |s.jobs| && (ReservedOn(job, n, i, d) ==> ReservedOn(s.jobs[j], n, i, d))
    ensures Reserved(s.(jobs := s.jobs[j := job]), n, m, i, d) <= Reserved(s, n, m, i, d)
  {
    var jobs := s.jobs[j := job];
    SumMonotone(|s.jobs|, ReservedTerm(jobs, n, i, d, m), ReservedTerm(s.jobs, n, i, d, m));
  }

  /** The rows lose reservations or keep them: a row is never un-failed while its deployment is live. */
  predicate RowsSettle(rows: map<nat, RowStatus>, rows': map<nat, RowStatus>, ds: seq<Deployment>) {
    forall i: nat :: i in rows' && i < |ds| && !rows'[i].RowFailed? && Live(ds[i]) ==> i in rows && !rows[i].RowFailed?
  }

  lemma JobUpdateKeepsCapacity(s: State, j: nat, job: Job)
    requires CapacityInvariant(s) && j < |s.jobs|
    requires job.node == s.jobs[j].node && job.target == s.jobs[j].target
    requires RowsSettle(s.jobs[j].rows, job.rows, s.deployments)
    ensures CapacityInvariant(s.(jobs := s.jobs[j := job]))
  {
    var s' := s.(jobs := s.jobs[j := job]);
    forall n: nat, m: Measure | n < |s.nodes| && Hard(m) ensures Committed(s', n, m) <= Limit(s.nodes[n], m) {
      assert WithinLimits(s, n);
      forall i: nat | i < |s.deployments| ensures CommittedShare(s', n, m, i) <= CommittedShare(s, n, m, i) {
        ReservedAfterUpdate(s, j, job, n, m, i, s.deployments[i]);
      }
      SharesBound(s, s', n, m);
    }
  }

  /** At the cutover each deployment turns its reservation on the target into an assignment there. */
  lemma SwitchShare(s: State, job: Job, j: nat, t: nat, n: nat, m: Measure, i: nat)
    requires EvacuationInvariant(s) && j < |s.jobs| && s.jobs[j] == job && job.target == Some(t) && t != job.node
    requires t < |s.nodes| && s.nodes[t].status.NodeActive? && !s.nodes[t].deleted
    requires i < |s.deployments| && (i in job.rows ==> !job.rows[i].RowFailed?)
    ensures CommittedShare(s.(deployments := Switched(s.deployments, job)), n, m, i) <= CommittedShare(s, n, m, i)
  {
    var s' := s.(deployments := Switched(s.deployments, job));
    var d, d' := s.deployments[i], s'.deployments[i];
    if i in job.rows && LiveOn(d, job.node) {
      NothingReserved(s, n, m, i, d');
      assert Reserved(s', n, m, i, d') == Reserved(s, n, m, i, d');
      if n == t {
        assert ReservedOn(s.jobs[j], n, i, d);
        SumHasTerm(|s.jobs|, ReservedTerm(s.jobs, n, i, d, m), j);
      }
    } else {
      assert d' == d;
    }
  }

  lemma SwitchKeepsCapacity(s: State, j: nat, now: int)
    requires EvacuationInvariant(s) && CapacityInvariant(s) && j < |s.jobs| && Running(s.jobs[j])
    requires s.jobs[j].migrated < s.jobs[j].total ==> TargetStillAvailable(s, s.jobs[j], now)
    requires forall i :: i in s.jobs[j].rows ==> !s.jobs[j].rows[i].RowFailed?
    ensures CapacityInvariant(SwitchRoutes(s, s.jobs[j]))
  {
    var job := s.jobs[j];
    assert JobSound(s, job);
    if job.migrated < job.total {
      assert job.rows != map[];
      var t := job.target.value;
      var s' := SwitchRoutes(s, job);
      forall n: nat, m: Measure | n < |s.nodes| && Hard(m) ensures Committed(s', n, m) <= Limit(s.nodes[n], m) {
        assert WithinLimits(s, n);
        forall i: nat | i < |s.deployments| ensures CommittedShare(s', n, m, i) <= CommittedShare(s, n, m, i) {
          SwitchShare(s, job, j, t, n, m, i);
        }
        SharesBound(s, s', n, m);
      }
    }
  }

  /** The rows settle first, then the routes switch, then the job row and the node are updated. */
  lemma PassKeepsCapacity(s: State, j: nat, now: int, done: Job)
    requires EvacuationInvariant(s) && CapacityInvariant(s) && j < |s.jobs| && Running(s.jobs[j])
    requires s.jobs[j].migrated < s.jobs[j].total ==> TargetStillAvailable(s, s.jobs[j], now)
    requires done.node == s.jobs[j].node && done.target == s.jobs[j].target && done.rows.Keys == s.jobs[j].rows.Keys
    requires RowsSettle(s.jobs[j].rows, done.rows, s.deployments)
    requires forall i :: i in done.rows ==> !done.rows[i].RowFailed?
    ensures CapacityInvariant(SwitchRoutes(s, s.jobs[j].(rows := done.rows)).(jobs := s.jobs[j := done]))
  {
    var settled := s.jobs[j].(rows := done.rows);
    var mid := s.(jobs := s.jobs[j := settled]);
    JobUpdateKeepsCapacity(s, j, settled);
    SettlingKeeps(s, j, done.rows);
    SwitchKeepsCapacity(mid, j, now);
    SwitchedJobUpdate(s, j, settled, done);
  }

  lemma SwitchedJobUpdate(s: State, j: nat, settled: Job, done: Job)
    requires j < |s.jobs| && done.node == settled.node && done.target == settled.target && done.rows == settled.rows
    requires CapacityInvariant(SwitchRoutes(s.(jobs := s.jobs[j := settled]), settled))
    ensures CapacityInvariant(SwitchRoutes(s, settled).(jobs := s.jobs[j := done]))
  {
    var moved := SwitchRoutes(s.(jobs := s.jobs[j := settled]), settled);
    JobUpdateKeepsCapacity(moved, j, done);
    assert moved.(jobs := moved.jobs[j := done]) == SwitchRoutes(s, settled).(jobs := s.jobs[j := done]);
  }

  lemma ProcessJobKeepsCapacity(s: State, j: nat, now: int, invalid: set<nat>)
    requires EvacuationInvariant(s) && CapacityInvariant(s) && j < |s.jobs|
    ensures CapacityInvariant(ProcessJob(s, j, now, invalid))
  {
    var job := s.jobs[j];
    if !Running(job) { return; }
    var builds := ActiveBuildCount(s.deployments, job.node);
    if job.migrated < job.total && !TargetStillAvailable(s, job, now) {
      JobUpdateKeepsCapacity(s, j, Failed(job, |RowsWith(job.rows, RowReady)|, builds));
      return;
    }
    var rows := SettledRows(job, s.deployments, invalid);
    assert rows.Keys == job.rows.Keys;
    AllReady(rows);
    var settled, ready := job.(rows := rows), |RowsWith(rows, RowReady)|;
    assert RowsSettle(job.rows, rows, s.deployments);
    match NextPhase(|rows|, ready, |RowsWith(rows, RowFailed)|, builds) {
      case PhaseFailed => JobUpdateKeepsCapacity(s, j, Failed(settled, ready, builds));
      case PhaseMigrating => JobUpdateKeepsCapacity(s, j, settled.(status := JobMigrating, migrated := ready, activeBuilds := builds));
      case PhaseDraining => PassKeepsCapacity(s, j, now, settled.(status := JobDraining, migrated := ready, activeBuilds := builds));
      case PhaseDeleting =>
        if !job.status.JobDeleting? {
          PassKeepsCapacity(s, j, now, settled.(status := JobDeleting, migrated := ready, activeBuilds := 0));
        } else {
          var done := settled.(status := JobCompleted, migrated := ready, activeBuilds := 0);
          PassKeepsCapacity(s, j, now, done);
          assert JobSound(s, job);
          var moved := SwitchRoutes(s, settled).(jobs := s.jobs[j := done]);
          CapacitiesOnly(moved, moved.(nodes := s.nodes[job.node := s.nodes[job.node].(status := NodeDisabled, deleted := true)]));
        }
    }
  }

  lemma SettlingKeeps(s: State, j: nat, rows: map<nat, RowStatus>)
    requires EvacuationInvariant(s) && j < |s.jobs| && Running(s.jobs[j]) && rows.Keys == s.jobs[j].rows.Keys
    ensures EvacuationInvariant(s.(jobs := s.jobs[j := s.jobs[j].(rows := rows)]))
  {
    assert JobSound(s, s.jobs[j]);
    RowCount(rows);
    RowCount(s.jobs[j].rows);
    ReplacingJobKeeps(s, s.(jobs := s.jobs[j := s.jobs[j].(rows := rows)]), j);
  }

  lemma CapacitiesOnly(s: State, s': State)
    requires CapacityInvariant(s) && s' == s.(nodes := s'.nodes) && |s'.nodes| == |s.nodes|
    requires forall n: nat :: n < |s.nodes| ==> s'.nodes[n].capacity == s.nodes[n].capacity
    ensures CapacityInvariant(s')
  {
    forall n: nat, m: Measure | n < |s'.nodes| && Hard(m) ensures Committed(s', n, m) <= Limit(s'.nodes[n], m) {
      assert WithinLimits(s, n);
      SumEqual(|s.deployments|, CommittedTerm(s', n, m), CommittedTerm(s, n, m));
    }
  }

  // --- Enqueueing reserves within the target's regular limits -----------------------------------------

  lemma {:induction false} RequestedTotalIsExact(ds: seq<Deployment>, k: nat, n: nat, m: Measure)
    requires k <= |ds|
    ensures var total := Sum(k, AssignedTerm(ds, n, m));
            RequestedTotal(ds, k, n, m) == if total <= U64_MAX then Some(total) else None
  {
    if k > 0 { RequestedTotalIsExact(ds, k - 1, n, m); }
  }

  /** The checked 64-bit arithmetic decides exactly whether everything on node `n` fits the candidate. */
  lemma CandidateCanHostMeans(c: Candidate, ds: seq<Deployment>, n: nat)
    ensures CandidateCanHost(c, ds, n) <==>
            && c.usage.cpu + AssignedUsage(ds, n, Cpu) <= c.capacity.cpu
            && c.usage.memory + AssignedUsage(ds, n, Memory) <= c.capacity.memory
            && c.usage.disk + AssignedUsage(ds, n, Disk) <= c.capacity.disk
            && c.usage.deployments + AssignedUsage(ds, n, Slots) <= c.capacity.maxDeployments
  {
    RequestedTotalIsExact(ds, |ds|, n, Cpu);
    RequestedTotalIsExact(ds, |ds|, n, Memory);
    RequestedTotalIsExact(ds, |ds|, n, Disk);
    RequestedTotalIsExact(ds, |ds|, n, Slots);
  }

  /** The job list after an accepted request: the failed job of the node is reopened, or a new one is added. */
  lemma EnqueueShape(s: State, n: nat, target: Option<nat>, now: int) returns (existing: Option<nat>)
    requires Enqueue(s, n, target, now).Ok?
    ensures var s' := Enqueue(s, n, target, now).value;
            && s'.deployments == s.deployments && |s'.nodes| == |s.nodes|
            && (forall t: nat :: t < |s.nodes| ==> s'.nodes[t].capacity == s.nodes[t].capacity)
            && (existing.Some? ==> existing.value < |s.jobs| && s.jobs[existing.value].status.JobFailed?)
            && s'.jobs == if existing.Some? then s.jobs[existing.value := NewJob(s, n, target)] else s.jobs + [NewJob(s, n, target)]
    ensures AssignedIds(s.deployments, n) != {} ==> target.Some? && IsEligibleTarget(s, n, target.value, now)
  {
    existing := ActiveJob(s.jobs, |s.jobs|, n);
  }

  lemma ReservedWithJob(s: State, s': State, job: Job, t: nat, m: Measure, i: nat, d: Deployment, existing: Option<nat>)
    requires existing.Some? ==> existing.value < |s.jobs| && !ReservedOn(s.jobs[existing.value], t, i, d)
    requires s'.jobs == if existing.Some? then s.jobs[existing.value := job] else s.jobs + [job]
    ensures Reserved(s', t, m, i, d) == Reserved(s, t, m, i, d) + (if ReservedOn(job, t, i, d) then Weight(m, d) else 0)
  {
    var before, after := ReservedTerm(s.jobs, t, i, d, m), ReservedTerm(s'.jobs, t, i, d, m);
    if existing.Some? {
      SumAt(|s.jobs|, after, before, existing.value);
    } else {
      SumEqual(|s.jobs|, after, before);
    }
  }

  lemma NewJobShare(s: State, s': State, n: nat, target: Option<nat>, now: int, t: nat, m: Measure, i: nat)
    requires JobsSound(s) && i < |s.deployments| && Enqueue(s, n, target, now) == Ok(s')
    ensures CommittedShare(s', t, m, i) <=
            CommittedShare(s, t, m, i) + (if target == Some(t) then AssignedTerm(s.deployments, n, m)(i) else 0)
  {
    var d := s.deployments[i];
    var existing := EnqueueShape(s, n, target, now);
    if existing.Some? { assert JobSound(s, s.jobs[existing.value]); }
    ReservedWithJob(s, s', NewJob(s, n, target), t, m, i, d, existing);
  }

  lemma EnqueueAdds(s: State, s': State, n: nat, target: Option<nat>, now: int, t: nat, m: Measure)
    requires EvacuationInvariant(s) && Enqueue(s, n, target, now) == Ok(s')
    ensures Committed(s', t, m) <= Committed(s, t, m) + (if target == Some(t) then AssignedUsage(s.deployments, n, m) else 0)
  {
    forall i: nat | i < |s.deployments|
      ensures CommittedShare(s', t, m, i) <= CommittedShare(s, t, m, i) + (if target == Some(t) then AssignedTerm(s.deployments, n, m)(i) else 0)
    {
      NewJobShare(s, s', n, target, now, t, m, i);
    }
    if target == Some(t) {
      SumAdds(|s.deployments|, CommittedTerm(s, t, m), AssignedTerm(s.deployments, n, m), CommittedTerm(s', t, m));
    } else {
      SumMonotone(|s.deployments|, CommittedTerm(s', t, m), CommittedTerm(s, t, m));
    }
  }

  lemma EnqueueKeepsCapacity(s: State, s': State, n: nat, target: Option<nat>, now: int)
    requires EvacuationInvariant(s) && CapacityInvariant(s) && Enqueue(s, n, target, now) == Ok(s')
    ensures CapacityInvariant(s')
  {
    var _ := EnqueueShape(s, n, target, now);
    forall t: nat, m: Measure | t < |s.nodes| && Hard(m) ensures Committed(s', t, m) <= Limit(s.nodes[t], m) {
      assert WithinLimits(s, t);
      EnqueueAdds(s, s', n, target, now, t, m);
      if target == Some(t) { TargetHasRoom(s, n, t, now, m); }
    }
  }

  /** The accepted target has room, within its limits, for everything on the source. */
  lemma TargetHasRoom(s: State, n: nat, t: nat, now: int, m: Measure)
    requires CapacityInvariant(s) && t < |s.nodes| && Hard(m)
    requires AssignedIds(s.deployments, n) != {} ==> IsEligibleTarget(s, n, t, now)
    ensures Committed(s, t, m) + AssignedUsage(s.deployments, n, m) <= Limit(s.nodes[t], m)
  {
    assert WithinLimits(s, t);
    if AssignedIds(s.deployments, n) == {} {
      assert forall i: nat :: i < |s.deployments| ==> (i in AssignedIds(s.deployments, n) <==> LiveOn(s.deployments[i], n));
      SumZero(|s.deployments|, AssignedTerm(s.deployments, n, m));
    } else {
      CandidateCanHostMeans(CandidateFor(s, t), s.deployments, n);
      CommittedAtMostScheduled(s, t, m);
    }
  }

  // --- Every run -----------------------------------------------------------------------------------------

  lemma ClaimKeepsCapacity(s: State, i: nat, n: nat)
    requires CapacityInvariant(s) && i < |s.deployments| && s.deployments[i].build.BuildPending?
    ensures CapacityInvariant(SetRow(s, i, s.deployments[i].(build := Claimed, buildNode := Some(n))))
  {
    var s' := SetRow(s, i, s.deployments[i].(build := Claimed, buildNode := Some(n)));
    forall n: nat, m: Measure | n < |s.nodes| && Hard(m) ensures Committed(s', n, m) <= Limit(s.nodes[n], m) {
      assert WithinLimits(s, n);
      forall k: nat | k < |s.deployments| ensures CommittedShare(s', n, m, k) <= CommittedShare(s, n, m, k) {
        SumMonotone(|s.jobs|, ReservedTerm(s.jobs, n, k, s'.deployments[k], m), ReservedTerm(s.jobs, n, k, s.deployments[k], m));
      }
      SharesBound(s, s', n, m);
    }
  }

  lemma OddEffectKeepsCapacity(s: State, a: Action, s': State)
    requires CapacityInvariant(s) && OnDeployment(a) && !a.AUpload? && a.deployment < |s.deployments|
    requires OddEffect(s, a, s') && !RestartsBuild(s, a)
    ensures CapacityInvariant(s')
  {
    if a.AClaim? {
      ClaimKeepsCapacity(s, a.deployment, a.node);
    } else {
      var job := s.jobs[a.job_.value];
      JobUpdateKeepsCapacity(s, a.job_.value, job.(rows := job.rows[a.deployment := RowFor(a.serve)]));
    }
  }

  lemma DeliveryKeepsCapacity(s: State, i: nat, mid: State, s': State)
    requires JobsSound(s) && CapacityInvariant(s) && (mid == s || Places(s, mid, i)) && Recedes(mid, s')
    ensures CapacityInvariant(s')
  {
    if mid != s { PlacingKeepsCapacity(s, mid, i); }
    RecedingKeepsCapacity(mid, s');
  }

  lemma DeploymentStepKeepsCapacity(s: State, a: Action, s': State)
    requires EvacuationInvariant(s) && CapacityInvariant(s)
    requires OnDeployment(a) && !a.AUpload? && a.deployment < |s.deployments| && DeploymentStep(s, a) == Ok(s') && !RestartsBuild(s, a)
    ensures CapacityInvariant(s')
  {
    var mid := DeploymentStepEffect(s, a, s');
    if PlainDelivery(s, a) { DeliveryKeepsCapacity(s, a.deployment, mid, s'); } else { OddEffectKeepsCapacity(s, a, s'); }
  }

  lemma StepKeepsCapacity(s: State, a: Action)
    requires EvacuationInvariant(s) && CapacityInvariant(s) && !Overtaken(s, a)
    ensures !a.AUpload? ==> CapacityInvariant(Step(s, a))
  {
    if OnDeployment(a) {
      StepOnDeployment(s, a);
      if !a.AUpload? && a.deployment < |s.deployments| && DeploymentStep(s, a).Ok? {
        DeploymentStepKeepsCapacity(s, a, DeploymentStep(s, a).value);
      }
    } else if a.ACreateNode? || a.ANodeActivity? || a.AMarkStale? {
      NodeStepKeepsCapacity(s, Step(s, a));
    } else if a.ACreate? {
      var d := CreateShape(s, a);
      if d.Some? {
        PlacementHasRoom(s, a.now, ServeResourcesFor(a.ssr), a.region_, a.selected, a.chosen.value);
        CreatingKeepsCapacity(s, d.value);
      }
    } else if a.AEnqueue? {
      if Enqueue(s, a.node, a.target, a.now).Ok? { EnqueueKeepsCapacity(s, Step(s, a), a.node, a.target, a.now); }
    } else if a.AProcessJob? {
      if a.job < |s.jobs| { ProcessJobKeepsCapacity(s, a.job, a.now, a.invalidArtifacts); }
    } else if a.job < |s.jobs| {
      JobUpdateKeepsCapacity(s, a.job, AbortJob(s, a.job).jobs[a.job]);
    }
  }
}
