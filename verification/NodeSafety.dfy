/** When deleted nodes are idle and the nodes of unfinished jobs drain, over every run and with every stale
    read: the exact transactions that break either. */
module NodeSafety {
  import opened Basics
  import opened Lifecycle
  import opened Scheduler
  import opened Delivery
  import opened ControlPlane
  import opened Effects
  import opened Evacuation

  // --- Deleted nodes ------------------------------------------------------------------------

  predicate IsDeleted(s: State, n: Option<nat>) {
    n.Some? && n.value < |s.nodes| && s.nodes[n.value].deleted
  }

  /** The row is not live on a deleted node and does not build on one. */
  predicate RowIdle(s: State, d: Deployment) {
    !(Live(d) && IsDeleted(s, d.serveNode)) && !(ActiveBuild(d) && IsDeleted(s, d.buildNode))
  }

  ghost predicate Idle(s: State) {
    forall i: nat :: i < |s.deployments| ==> RowIdle(s, s.deployments[i])
  }

  /** A build report restarts a build whose node is gone, or that keeps its place on a node that is gone. */
  predicate RestartsOnDeleted(s: State, a: Action) {
    RestartsBuild(s, a)
    && var d := s.deployments[a.deployment];
    IsDeleted(s, d.buildNode) || (!d.serve.Retired? && IsDeleted(s, d.serveNode))
  }

  /** Deployment `i` is moved by a cutover of `job`. */
  predicate Moves(ds: seq<Deployment>, job: Job, i: nat) {
    i < |ds| && job.target.Some? && i in job.rows && LiveOn(ds[i], job.node)
  }

  /** A pass moves something to a target that is deleted by then. */
  ghost predicate MovesToDeleted(s: State, a: Action) {
    && a.AProcessJob? && a.job < |s.jobs| && Switches(s, a.job, a.now)
    && IsDeleted(s, s.jobs[a.job].target) && exists i: nat :: Moves(s.deployments, s.jobs[a.job], i)
  }

  /** A pass deletes the node while something live stays on it, which the job does not list or does not move. */
  ghost predicate DeletesInUse(s: State, a: Action) {
    && a.AProcessJob? && a.job < |s.jobs| && Deletes(s, a.job, a.now)
    && var job := s.jobs[a.job];
    exists i: nat :: i < |s.deployments| && LiveOn(s.deployments[i], job.node)
      && !(Switches(s, a.job, a.now) && Moves(s.deployments, job, i) && job.target != Some(job.node))
  }

  ghost predicate EndangersDeleted(s: State, a: Action) {
    RestartsOnDeleted(s, a) || MovesToDeleted(s, a) || DeletesInUse(s, a)
  }

  lemma RecedingIsIdle(s: State, s': State)
    requires Idle(s) && Recedes(s, s')
    ensures Idle(s')
  {
    forall i: nat | i < |s'.deployments| ensures RowIdle(s', s'.deployments[i]) {
      assert RowRecedes(s.deployments[i], s'.deployments[i]) && RowIdle(s, s.deployments[i]);
    }
  }

  /** Replacing one row decides by that row. */
  lemma RowDecidesIdle(s: State, i: nat, d': Deployment)
    requires Idle(s) && i < |s.deployments|
    ensures Idle(SetRow(s, i, d')) <==> RowIdle(s, d')
  {
    var s' := SetRow(s, i, d');
    forall k: nat | k < |s.deployments| && k != i ensures RowIdle(s', s'.deployments[k]) { assert RowIdle(s, s.deployments[k]); }
    assert s'.deployments[i] == d' && RowIdle(s', d') == RowIdle(s, d');
  }

  lemma PlacingIsIdle(s: State, s': State, i: nat)
    requires Idle(s) && Places(s, s', i)
    ensures Idle(s')
  {
    assert RowIdle(s, s.deployments[i]);
    RowDecidesIdle(s, i, s'.deployments[i]);
  }

  /** Claims, uploads, restarted builds and the reports of shadow targets. */
  lemma OddEffectDecidesIdle(s: State, a: Action, s': State)
    requires Idle(s) && OnDeployment(a) && a.deployment < |s.deployments| && OddEffect(s, a, s')
    ensures Idle(s') <==> !RestartsOnDeleted(s, a)
  {
    var d := s.deployments[a.deployment];
    assert RowIdle(s, d);
    if a.AServeReport? {
      forall i: nat | i < |s'.deployments| ensures RowIdle(s', s'.deployments[i]) { assert RowIdle(s, s.deployments[i]); }
    } else {
      RowDecidesIdle(s, a.deployment, s'.deployments[a.deployment]);
    }
  }

  lemma DeploymentStepDecidesIdle(s: State, a: Action, s': State)
    requires Idle(s) && OnDeployment(a) && a.deployment < |s.deployments| && DeploymentStep(s, a) == Ok(s')
    ensures Idle(s') <==> !RestartsOnDeleted(s, a)
  {
    var mid := DeploymentStepEffect(s, a, s');
    if PlainDelivery(s, a) { DeliveryIsIdle(s, a.deployment, mid, s'); } else { OddEffectDecidesIdle(s, a, s'); }
  }

  lemma DeliveryIsIdle(s: State, i: nat, mid: State, s': State)
    requires Idle(s) && (mid == s || Places(s, mid, i)) && Recedes(mid, s')
    ensures Idle(s')
  {
    if mid != s { PlacingIsIdle(s, mid, i); }
    RecedingIsIdle(mid, s');
  }

  lemma PassDecidesIdle(s: State, a: Action)
    requires Idle(s) && a.AProcessJob? && a.job < |s.jobs|
    ensures Idle(Step(s, a)) <==> !EndangersDeleted(s, a)
  {
    var s', job := Step(s, a), s.jobs[a.job];
    PassEffect(s, a.job, a.now, a.invalidArtifacts);
    if Deletes(s, a.job, a.now) { NoActiveBuild(s.deployments, job.node); }
    var switches, deletes := Switches(s, a.job, a.now), Deletes(s, a.job, a.now);
    if Idle(s') { IdlePassMeans(s, job, switches, deletes, s'); }
    if !EndangersDeleted(s, a) { SafePassIsIdle(s, job, switches, deletes, s'); }
  }

  lemma IdlePassMeans(s: State, job: Job, switches: bool, deletes: bool, s': State)
    requires Idle(s') && |s'.nodes| == |s.nodes| && (deletes ==> job.node < |s.nodes|)
    requires s'.deployments == if switches then Switched(s.deployments, job) else s.deployments
    requires forall n: nat :: n < |s.nodes| ==> s'.nodes[n].deleted == (s.nodes[n].deleted || (deletes && n == job.node))
    ensures forall i: nat :: Moves(s.deployments, job, i) && switches ==> !IsDeleted(s, job.target)
    ensures forall i: nat :: i < |s.deployments| && LiveOn(s.deployments[i], job.node) && deletes ==>
              switches && Moves(s.deployments, job, i) && job.target != Some(job.node)
  {
    forall i: nat | i < |s.deployments| && LiveOn(s.deployments[i], job.node)
      ensures Moves(s.deployments, job, i) && switches ==> !IsDeleted(s, job.target)
      ensures deletes ==> switches && Moves(s.deployments, job, i) && job.target != Some(job.node)
    {
      assert RowIdle(s', s'.deployments[i]);
    }
  }

  lemma SafePassIsIdle(s: State, job: Job, switches: bool, deletes: bool, s': State)
    requires Idle(s) && |s'.nodes| == |s.nodes| && (deletes ==> job.node < |s.nodes|)
    requires s'.deployments == if switches then Switched(s.deployments, job) else s.deployments
    requires forall n: nat :: n < |s.nodes| ==> s'.nodes[n].deleted == (s.nodes[n].deleted || (deletes && n == job.node))
    requires deletes ==> forall i: nat :: i < |s.deployments| ==> !BuildingOn(s.deployments[i], job.node)
    requires forall i: nat :: Moves(s.deployments, job, i) && switches ==> !IsDeleted(s, job.target)
    requires forall i: nat :: i < |s.deployments| && LiveOn(s.deployments[i], job.node) && deletes ==>
               switches && Moves(s.deployments, job, i) && job.target != Some(job.node)
    ensures Idle(s')
  {
    forall i: nat | i < |s.deployments| ensures RowIdle(s', s'.deployments[i]) {
      assert RowIdle(s, s.deployments[i]);
      assert Moves(s.deployments, job, i) || !Moves(s.deployments, job, i);
    }
  }

  /** One transaction keeps deleted nodes idle if and only if it does not restart a build that belongs to a
      deleted node, move a deployment to one, or delete a node that something live stays on. */
  lemma StepDecidesIdle(s: State, a: Action)
    requires Idle(s)
    ensures Idle(Step(s, a)) <==> !EndangersDeleted(s, a)
  {
    if OnDeployment(a) {
      StepOnDeployment(s, a);
      if a.deployment < |s.deployments| && DeploymentStep(s, a).Ok? { DeploymentStepDecidesIdle(s, a, DeploymentStep(s, a).value); }
      else if RestartsOnDeleted(s, a) { RestartCommits(s, a); }
    } else if a.AProcessJob? {
      if a.job < |s.jobs| { PassDecidesIdle(s, a); }
    } else if a.ACreate? {
      CreateIsIdle(s, a);
    } else {
      OtherStepsAreIdle(s, a);
    }
  }

  lemma CreateIsIdle(s: State, a: Action)
    requires Idle(s) && a.ACreate?
    ensures Idle(Step(s, a))
  {
    var d := CreateShape(s, a);
    if d.Some? {
      PlacementHasRoom(s, a.now, ServeResourcesFor(a.ssr), a.region_, a.selected, a.chosen.value);
      var s' := Step(s, a);
      forall i: nat | i < |s'.deployments| ensures RowIdle(s', s'.deployments[i]) {
        if i < |s.deployments| { assert RowIdle(s, s.deployments[i]); }
      }
    }
  }

  lemma OtherStepsAreIdle(s: State, a: Action)
    requires Idle(s) && !OnDeployment(a) && !a.AProcessJob? && !a.ACreate?
    ensures Idle(Step(s, a))
  {
    var s' := Step(s, a);
    StepBesideDeployments(s, a);
    forall i: nat | i < |s.deployments| ensures RowIdle(s', s'.deployments[i]) {
      assert RowIdle(s, s.deployments[i]);
    }
  }

  ghost predicate NeverEndangersDeleted(actions: seq<Action>) {
    forall k: nat :: k < |actions| ==> !EndangersDeleted(Run(actions[..k]), actions[k])
  }

  /** Deleted nodes are idle in every state of a run if and only if no transaction of the run endangers one. */
  lemma DeletedNodesIdleExactly(actions: seq<Action>)
    ensures (forall k: nat :: k <= |actions| ==> Idle(Run(actions[..k]))) <==> NeverEndangersDeleted(actions)
  {
    if forall k: nat :: k <= |actions| ==> Idle(Run(actions[..k])) {
      forall k: nat | k < |actions| ensures !EndangersDeleted(Run(actions[..k]), actions[k]) {
        RunPrefix(actions, k);
        assert Idle(Run(actions[..k])) && Idle(Run(actions[..k + 1]));
        StepDecidesIdle(Run(actions[..k]), actions[k]);
      }
    }
    if NeverEndangersDeleted(actions) {
      forall k: nat | k <= |actions| ensures Idle(Run(actions[..k])) { IdleAfter(actions, k); }
    }
  }

  lemma {:induction false} IdleAfter(actions: seq<Action>, k: nat)
    requires NeverEndangersDeleted(actions) && k <= |actions|
    ensures Idle(Run(actions[..k]))
  {
    if k > 0 {
      IdleAfter(actions, k - 1);
      RunPrefix(actions, k - 1);
      assert !EndangersDeleted(Run(actions[..k - 1]), actions[k - 1]);
      SafeStepIsIdle(Run(actions[..k - 1]), actions[k - 1], Run(actions[..k]));
    }
  }

  lemma SafeStepIsIdle(s: State, a: Action, s': State)
    requires Idle(s) && !EndangersDeleted(s, a) && s' == Step(s, a)
    ensures Idle(s')
  {
    StepDecidesIdle(s, a);
  }

  // --- Draining nodes -----------------------------------------------------------------------

  /** A job names an existing node, and at most one unfinished job names each. */
  ghost predicate JobsNamed(s: State) {
    && (forall j: nat :: j < |s.jobs| ==> s.jobs[j].node < |s.nodes|)
    && (forall j: nat, k: nat :: j < |s.jobs| && k < |s.jobs| && j != k && s.jobs[j].node == s.jobs[k].node
          ==> !(Unfinished(s.jobs[j]) && Unfinished(s.jobs[k])))
  }

  ghost predicate Drains(s: State) {
    forall j: nat :: j < |s.jobs| && Unfinished(s.jobs[j]) && s.jobs[j].node < |s.nodes| ==> s.nodes[s.jobs[j].node].status.NodeDraining?
  }

  /** A heartbeat or registration that authenticated before the node began to drain, and is written while a job
      for the node is unfinished. */
  ghost predicate ReactivatesDraining(s: State, a: Action) {
    && a.ANodeActivity? && a.node < |s.nodes| && !a.seenNode.NodeDisabled? && !a.seenNode.NodeDraining?
    && exists j: nat :: j < |s.jobs| && s.jobs[j].node == a.node && Unfinished(s.jobs[j])
  }

  /** Nodes stay, and jobs keep their node and status. */
  ghost predicate JobsKept(s: State, s': State) {
    && s'.nodes == s.nodes && |s'.jobs| == |s.jobs|
    && forall j: nat :: j < |s.jobs| ==> s'.jobs[j].node == s.jobs[j].node && s'.jobs[j].status == s.jobs[j].status
  }

  lemma OddEffectKeepsJobs(s: State, a: Action, s': State)
    requires OnDeployment(a) && a.deployment < |s.deployments| && OddEffect(s, a, s')
    ensures JobsKept(s, s')
  {
  }

  lemma DeploymentStepKeepsJobs(s: State, a: Action, s': State)
    requires OnDeployment(a) && a.deployment < |s.deployments| && DeploymentStep(s, a) == Ok(s')
    ensures JobsKept(s, s')
  {
    var mid := DeploymentStepEffect(s, a, s');
    if !PlainDelivery(s, a) { OddEffectKeepsJobs(s, a, s'); }
  }

  lemma JobsKeptDrain(s: State, s': State)
    requires JobsNamed(s) && JobsKept(s, s')
    ensures JobsNamed(s') && (Drains(s) ==> Drains(s'))
  {
  }

  lemma PassKeepsOtherJobs(s: State, j: nat, now: int, invalid: set<nat>)
    requires j < |s.jobs|
    ensures var s' := ProcessJob(s, j, now, invalid);
            && |s'.jobs| == |s.jobs| && s'.jobs[j].node == s.jobs[j].node
            && (forall k: nat :: k < |s.jobs| && k != j ==> s'.jobs[k] == s.jobs[k])
            && (Unfinished(s'.jobs[j]) ==> Unfinished(s.jobs[j]))
            && |s'.nodes| == |s.nodes|
            && (s'.nodes == s.nodes ||
                (s.jobs[j].node < |s.nodes| && Running(s.jobs[j]) && !Unfinished(s'.jobs[j])
                 && forall n: nat :: n < |s.nodes| && n != s.jobs[j].node ==> s'.nodes[n] == s.nodes[n]))
  {
  }

  /** One transaction keeps the nodes of unfinished jobs Draining if and only if it is not a late heartbeat or
      registration of such a node. */
  lemma StepDecidesDraining(s: State, a: Action)
    requires JobsNamed(s)
    ensures JobsNamed(Step(s, a))
    ensures Drains(s) ==> (Drains(Step(s, a)) <==> !ReactivatesDraining(s, a))
  {
    if OnDeployment(a) {
      StepOnDeployment(s, a);
      if a.deployment < |s.deployments| && DeploymentStep(s, a).Ok? { DeploymentStepKeepsJobs(s, a, DeploymentStep(s, a).value); }
      JobsKeptDrain(s, Step(s, a));
    } else if a.AProcessJob? {
      PassDrains(s, a);
    } else if a.AEnqueue? {
      EnqueueDrains(s, a);
    } else if a.ANodeActivity? {
      ActivityDecidesDraining(s, a);
    } else if a.ACreate? {
      var _ := CreateShape(s, a);
    } else if a.AAbortJob? {
      AbortDrains(s, a);
    }
  }

  lemma AbortDrains(s: State, a: Action)
    requires JobsNamed(s) && a.AAbortJob?
    ensures JobsNamed(Step(s, a)) && (Drains(s) ==> Drains(Step(s, a)))
  {
    var s' := Step(s, a);
    assert forall j: nat :: j < |s.jobs| ==> s'.jobs[j].node == s.jobs[j].node && (Unfinished(s'.jobs[j]) <==> Unfinished(s.jobs[j]));
  }

  lemma PassDrains(s: State, a: Action)
    requires JobsNamed(s) && a.AProcessJob?
    ensures JobsNamed(Step(s, a)) && (Drains(s) ==> Drains(Step(s, a)))
  {
    if a.job < |s.jobs| { PassStaysDraining(s, a.job, a.now, a.invalidArtifacts, ProcessJob(s, a.job, a.now, a.invalidArtifacts)); }
  }

  lemma PassStaysDraining(s: State, j: nat, now: int, invalid: set<nat>, s': State)
    requires JobsNamed(s) && j < |s.jobs| && s' == ProcessJob(s, j, now, invalid)
    ensures JobsNamed(s') && (Drains(s) ==> Drains(s'))
  {
    PassKeepsOtherJobs(s, j, now, invalid);
    OneJobChanges(s, s', j);
  }

  lemma OneJobChanges(s: State, s': State, j: nat)
    requires JobsNamed(s) && j < |s.jobs| && |s'.jobs| == |s.jobs| && s'.jobs[j].node == s.jobs[j].node
    requires forall k: nat :: k < |s.jobs| && k != j ==> s'.jobs[k] == s.jobs[k]
    requires Unfinished(s'.jobs[j]) ==> Unfinished(s.jobs[j])
    requires |s'.nodes| == |s.nodes|
    requires s'.nodes == s.nodes ||
             (Running(s.jobs[j]) && !Unfinished(s'.jobs[j]) && forall n: nat :: n < |s.nodes| && n != s.jobs[j].node ==> s'.nodes[n] == s.nodes[n])
    ensures JobsNamed(s') && (Drains(s) ==> Drains(s'))
  {
  }

  lemma ActivityDecidesDraining(s: State, a: Action)
    requires JobsNamed(s) && a.ANodeActivity?
    ensures JobsNamed(Step(s, a))
    ensures Drains(s) ==> (Drains(Step(s, a)) <==> !ReactivatesDraining(s, a))
  {
    var s' := Step(s, a);
    if j: nat :| j < |s.jobs| && s.jobs[j].node == a.node && Unfinished(s.jobs[j]) {
      assert s'.jobs[j].node == a.node;
    }
  }

  lemma EnqueueDrains(s: State, a: Action)
    requires JobsNamed(s) && a.AEnqueue?
    ensures JobsNamed(Step(s, a)) && (Drains(s) ==> Drains(Step(s, a)))
  {
    if Enqueue(s, a.node, a.target, a.now).Ok? {
      var existing := ActiveJob(s.jobs, |s.jobs|, a.node);
      JobEntersDraining(s, a.node, NewJob(s, a.node, a.target), existing);
    }
  }

  lemma JobEntersDraining(s: State, n: nat, job: Job, existing: Option<nat>)
    requires JobsNamed(s) && n < |s.nodes| && job.node == n
    requires if existing.Some? then existing.value < |s.jobs| && s.jobs[existing.value].node == n && Unfinished(s.jobs[existing.value])
             else forall j: nat :: j < |s.jobs| && s.jobs[j].node == n ==> !Unfinished(s.jobs[j])
    ensures var s' := s.(jobs := if existing.Some? then s.jobs[existing.value := job] else s.jobs + [job],
                         nodes := s.nodes[n := s.nodes[n].(status := NodeDraining)]);
            JobsNamed(s') && (Drains(s) ==> Drains(s'))
  {
  }

  lemma {:induction false} RunKeepsJobsNamed(actions: seq<Action>)
    ensures JobsNamed(Run(actions))
  {
    if actions != [] {
      RunKeepsJobsNamed(actions[..|actions| - 1]);
      RunEnds(actions);
      StepDecidesDraining(Run(actions[..|actions| - 1]), actions[|actions| - 1]);
    }
  }

  /** The nodes of unfinished jobs are Draining in every state of a run if and only if no heartbeat or
      registration of the run came late. */
  lemma UnfinishedJobsDrain(actions: seq<Action>)
    ensures (forall k: nat :: k <= |actions| ==> Drains(Run(actions[..k])))
            <==> (forall k: nat :: k < |actions| ==> !ReactivatesDraining(Run(actions[..k]), actions[k]))
  {
    if forall k: nat :: k <= |actions| ==> Drains(Run(actions[..k])) {
      forall k: nat | k < |actions| ensures !ReactivatesDraining(Run(actions[..k]), actions[k]) {
        RunPrefix(actions, k);
        RunKeepsJobsNamed(actions[..k]);
        assert Drains(Run(actions[..k])) && Drains(Run(actions[..k + 1]));
        StepDecidesDraining(Run(actions[..k]), actions[k]);
      }
    }
    if forall k: nat :: k < |actions| ==> !ReactivatesDraining(Run(actions[..k]), actions[k]) {
      forall k: nat | k <= |actions| ensures Drains(Run(actions[..k])) { DrainsAfter(actions, k); }
    }
  }

  lemma {:induction false} DrainsAfter(actions: seq<Action>, k: nat)
    requires forall k: nat :: k < |actions| ==> !ReactivatesDraining(Run(actions[..k]), actions[k])
    requires k <= |actions|
    ensures Drains(Run(actions[..k]))
  {
    if k > 0 {
      DrainsAfter(actions, k - 1);
      RunPrefix(actions, k - 1);
      RunKeepsJobsNamed(actions[..k - 1]);
      assert !ReactivatesDraining(Run(actions[..k - 1]), actions[k - 1]);
      TimelyStepDrains(Run(actions[..k - 1]), actions[k - 1], Run(actions[..k]));
    }
  }

  lemma TimelyStepDrains(s: State, a: Action, s': State)
    requires JobsNamed(s) && Drains(s) && !ReactivatesDraining(s, a) && s' == Step(s, a)
    ensures Drains(s')
  {
    StepDecidesDraining(s, a);
  }
}
