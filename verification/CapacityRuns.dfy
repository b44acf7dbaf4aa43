/** Which orderly runs keep every node within its capacity, reservations included: those whose artifact uploads
    fit everywhere the deployment is or will be. */
module CapacityRuns {
  import opened Basics
  import opened Lifecycle
  import opened Scheduler
  import opened ControlPlane
  import opened Evacuation
  import opened Capacity

  /** Deployment `i` is assigned to node `n`, or an unfinished deletion job will move it there. */
  ghost predicate Occupies(s: State, n: nat, i: nat)
    requires i < |s.deployments|
  {
    LiveOn(s.deployments[i], n) || exists j: nat :: j < |s.jobs| && ReservedOn(s.jobs[j], n, i, s.deployments[i])
  }

  /** At most one job holds a reservation for a deployment, and never on the node it sits on. */
  lemma ReservationIsUnique(s: State, n: nat, i: nat, j: nat, k: nat)
    requires EvacuationInvariant(s) && i < |s.deployments| && j < |s.jobs| && k < |s.jobs|
    requires ReservedOn(s.jobs[j], n, i, s.deployments[i])
    ensures !LiveOn(s.deployments[i], n)
    ensures ReservedOn(s.jobs[k], n, i, s.deployments[i]) ==> k == j
  {
    assert JobSound(s, s.jobs[j]) && JobSound(s, s.jobs[k]);
  }

  lemma ShareIsWeight(s: State, n: nat, m: Measure, i: nat)
    requires EvacuationInvariant(s) && i < |s.deployments|
    ensures CommittedShare(s, n, m, i) == if Occupies(s, n, i) then Weight(m, s.deployments[i]) else 0
  {
    var d := s.deployments[i];
    var reserved := ReservedTerm(s.jobs, n, i, d, m);
    if j: nat :| j < |s.jobs| && ReservedOn(s.jobs[j], n, i, d) {
      forall k: nat | k < |s.jobs| && k != j ensures reserved(k) == 0 { ReservationIsUnique(s, n, i, j, k); }
      ReservationIsUnique(s, n, i, j, j);
      SumSingle(|s.jobs|, reserved, j);
    } else {
      SumZero(|s.jobs|, reserved);
    }
  }

  /** Wherever the deployment is or will be, its new size fits beside everything else. */
  ghost predicate FitsEverywhere(s: State, i: nat, disk: nat)
    requires i < |s.deployments|
  {
    forall n: nat :: n < |s.nodes| && Occupies(s, n, i) ==>
      Committed(s, n, Disk) + disk <= s.nodes[n].capacity.disk + s.deployments[i].resources.disk
  }

  /** An upload exchanges the old size for the new one on every node the deployment occupies. */
  lemma UploadExchanges(s: State, i: nat, disk: nat, n: nat, m: Measure)
    requires EvacuationInvariant(s) && i < |s.deployments| && UploadArtifact(s, i, disk).Ok?
    ensures var s' := UploadArtifact(s, i, disk).value;
            if m.Disk? && Occupies(s, n, i) then Committed(s', n, m) + s.deployments[i].resources.disk == Committed(s, n, m) + disk
            else Committed(s', n, m) == Committed(s, n, m)
  {
    var s' := UploadArtifact(s, i, disk).value;
    var d, d' := s.deployments[i], s'.deployments[i];
    UploadKeeps(s, i, disk);
    ShareIsWeight(s, n, m, i);
    ShareIsWeight(s', n, m, i);
    assert forall j: nat :: j < |s.jobs| ==> ReservedOn(s.jobs[j], n, i, d) == ReservedOn(s'.jobs[j], n, i, d');
    forall k: nat | k < |s.deployments| && k != i ensures CommittedShare(s', n, m, k) == CommittedShare(s, n, m, k) {}
    SumAt(|s.deployments|, CommittedTerm(s', n, m), CommittedTerm(s, n, m), i);
  }

  /** An accepted upload keeps the capacity invariant if and only if the artifact fits on its own node and
      on the node its deletion job will move it to. The code checks its own node only, and without the
      reservations. */
  lemma UploadExactly(s: State, i: nat, disk: nat)
    requires EvacuationInvariant(s) && CapacityInvariant(s) && i < |s.deployments| && UploadArtifact(s, i, disk).Ok?
    ensures CapacityInvariant(UploadArtifact(s, i, disk).value) <==> FitsEverywhere(s, i, disk)
  {
    var s' := UploadArtifact(s, i, disk).value;
    forall n: nat, m: Measure | n < |s.nodes| && Hard(m)
      ensures Committed(s', n, m) <= Limit(s'.nodes[n], m) <==>
              (m.Disk? && Occupies(s, n, i) ==> Committed(s, n, Disk) + disk <= s.nodes[n].capacity.disk + s.deployments[i].resources.disk)
    {
      assert WithinLimits(s, n);
      UploadExchanges(s, i, disk, n, m);
    }
    if CapacityInvariant(s') {
      forall n: nat | n < |s.nodes| && Occupies(s, n, i)
        ensures Committed(s, n, Disk) + disk <= s.nodes[n].capacity.disk + s.deployments[i].resources.disk
      {
        assert WithinLimits(s', n) && Hard(Disk);
        assert Committed(s', n, Disk) <= Limit(s'.nodes[n], Disk);
      }
    }
  }

  // --- Every run -----------------------------------------------------------------------------------------

  /** An accepted upload fits everywhere; other transactions always do. */
  ghost predicate UploadFits(s: State, a: Action) {
    a.AUpload? && a.deployment < |s.deployments| && UploadArtifact(s, a.deployment, a.disk).Ok? ==>
      FitsEverywhere(s, a.deployment, a.disk)
  }

  lemma StepDecidesCapacity(s: State, a: Action)
    requires EvacuationInvariant(s) && CapacityInvariant(s) && !Overtaken(s, a)
    ensures CapacityInvariant(Step(s, a)) <==> UploadFits(s, a)
  {
    StepKeepsCapacity(s, a);
    if a.AUpload? { UploadStepDecides(s, a); }
  }

  lemma UploadStepDecides(s: State, a: Action)
    requires EvacuationInvariant(s) && CapacityInvariant(s) && a.AUpload?
    ensures CapacityInvariant(Step(s, a)) <==> UploadFits(s, a)
  {
    if a.deployment < |s.deployments| {
      assert DeploymentStep(s, a) == UploadArtifact(s, a.deployment, a.disk);
      if UploadArtifact(s, a.deployment, a.disk).Ok? { UploadExactly(s, a.deployment, a.disk); }
    }
  }

  ghost predicate UploadsFit(actions: seq<Action>) {
    forall k: nat :: k < |actions| ==> UploadFits(Run(actions[..k]), actions[k])
  }

  lemma {:induction false} CapacityAfter(actions: seq<Action>, k: nat)
    requires Orderly(actions) && UploadsFit(actions) && k <= |actions|
    ensures CapacityInvariant(Run(actions[..k]))
  {
    if k > 0 {
      CapacityAfter(actions, k - 1);
      OrderlyAt(actions, k - 1, Run(actions[..k - 1]));
      assert UploadFits(Run(actions[..k - 1]), actions[k - 1]);
      FittingStepKeeps(Run(actions[..k - 1]), actions[k - 1], Run(actions[..k]));
    }
  }

  lemma FittingStepKeeps(s: State, a: Action, s': State)
    requires EvacuationInvariant(s) && CapacityInvariant(s) && !Overtaken(s, a) && UploadFits(s, a) && s' == Step(s, a)
    ensures CapacityInvariant(s')
  {
    StepDecidesCapacity(s, a);
  }

  /** Over whole orderly runs: every node stays within what it can hold, counting both what is assigned to it and
      what will be moved onto it, if and only if every accepted upload fitted everywhere. */
  lemma CapacityThroughout(actions: seq<Action>)
    requires Orderly(actions)
    ensures (forall k: nat :: k <= |actions| ==> CapacityInvariant(Run(actions[..k]))) <==> UploadsFit(actions)
  {
    if forall k: nat :: k <= |actions| ==> CapacityInvariant(Run(actions[..k])) {
      forall k: nat | k < |actions| ensures UploadFits(Run(actions[..k]), actions[k]) {
        OrderlyAt(actions, k, Run(actions[..k]));
        StepDecidesCapacity(Run(actions[..k]), actions[k]);
        assert CapacityInvariant(Run(actions[..k + 1]));
      }
    }
    if UploadsFit(actions) {
      forall k: nat | k <= |actions| ensures CapacityInvariant(Run(actions[..k])) { CapacityAfter(actions, k); }
    }
  }

  /** Over any such run of placements, retirements, failures, retries, uploads and cutovers, the deployments
      assigned to a node never need more disk than it has and never exceed its limit by more than two. */
  lemma NodesNeverOverfull(actions: seq<Action>, n: nat)
    requires Orderly(actions) && UploadsFit(actions) && n < |Run(actions).nodes|
    ensures var s := Run(actions);
            && AssignedUsage(s.deployments, n, Disk) <= s.nodes[n].capacity.disk
            && AssignedUsage(s.deployments, n, Slots) <= s.nodes[n].capacity.maxDeployments + OVERFLOW_SLOTS
  {
    CapacityAfter(actions, |actions|);
    assert actions[..|actions|] == actions;
    var s := Run(actions);
    assert WithinLimits(s, n);
    AssignedAtMostCommitted(s, n, Disk);
    AssignedAtMostCommitted(s, n, Slots);
  }
}
