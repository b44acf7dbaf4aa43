/** Which deployments of a project environment keep a Serve assignment
    (apps/control-api/src/domain/delivery.rs). */
module Delivery {
  import opened Basics
  import opened Lifecycle

  datatype DeliveryCandidate = DeliveryCandidate(
    id: nat,
    environment: Environment,
    build: BuildStatus,
    serve: ServeStatus,
    release: ReleaseStatus,
    pendingRelease: bool,
    createdAt: int)

  // --- The declarative meaning of a desired delivery -----------------------------

  predicate Before(a: DeliveryCandidate, b: DeliveryCandidate) {
    a.createdAt < b.createdAt || (a.createdAt == b.createdAt && a.id < b.id)
  }

  predicate Deliverable(c: DeliveryCandidate) {
    c.build.BuildReady? && (!c.serve.Retired? || c.pendingRelease)
  }

  predicate Serving(c: DeliveryCandidate) {
    c.build.BuildReady? && c.serve.ServeReady?
  }

  /** The last one in (created_at, id) order among the candidates with property `p`. */
  predicate LastAmong(candidates: seq<DeliveryCandidate>, c: DeliveryCandidate, p: DeliveryCandidate -> bool) {
    c in candidates && p(c) && forall other :: other in candidates && p(other) && other != c ==> Before(other, c)
  }

  predicate Pinned(c: DeliveryCandidate) {
    InProgress(c.build) || c.pendingRelease || (c.environment.Production? && c.release.Active?)
  }

  /** In progress, waiting for its release, the published production deployment, the newest
      deliverable build, or the newest build that is serving. */
  predicate Desired(candidates: seq<DeliveryCandidate>, c: DeliveryCandidate) {
    c in candidates && (Pinned(c) || LastAmong(candidates, c, Deliverable) || LastAmong(candidates, c, Serving))
  }

  predicate DistinctIds(candidates: seq<DeliveryCandidate>) {
    forall a, b :: a in candidates && b in candidates && a.id == b.id ==> a == b
  }

  // --- The algorithm --------------------------------------------------------------

  /** `sort_by_key` on (created_at, id). */
  function SortByKey(candidates: seq<DeliveryCandidate>): (sorted: seq<DeliveryCandidate>)
    ensures |sorted| == |candidates|
    ensures forall c :: c in sorted <==> c in candidates
    ensures forall i, j :: 0 <= i < j < |sorted| ==> !Before(sorted[j], sorted[i])
  {
    if candidates == [] then [] else Insert(SortByKey(candidates[1..]), candidates[0])
  }

  function Insert(sorted: seq<DeliveryCandidate>, c: DeliveryCandidate): (r: seq<DeliveryCandidate>)
    requires forall i, j :: 0 <= i < j < |sorted| ==> !Before(sorted[j], sorted[i])
    ensures |r| == |sorted| + 1
    ensures forall x :: x in r <==> x == c || x in sorted
    ensures forall i, j :: 0 <= i < j < |r| ==> !Before(r[j], r[i])
  {
    if sorted == [] || !Before(sorted[0], c) then
      assert forall k :: 0 < k < |sorted| ==> !Before(sorted[k], sorted[0]);
      [c] + sorted
    else
      var rest := Insert(sorted[1..], c);
      assert forall j :: 0 <= j < |rest| ==> rest[j] in rest;
      [sorted[0]] + rest
  }

  ghost function Ids(candidates: seq<DeliveryCandidate>, p: DeliveryCandidate -> bool): set<nat> {
    set c | c in candidates && p(c) :: c.id
  }

  ghost function DesiredIds(candidates: seq<DeliveryCandidate>): set<nat> {
    set c | c in candidates && Desired(candidates, c) :: c.id
  }

  method PinnedIds(candidates: seq<DeliveryCandidate>) returns (desired: set<nat>)
    ensures desired == Ids(candidates, Pinned)
  {
    desired := {};
    for i := 0 to |candidates|
      invariant desired == Ids(candidates[..i], Pinned)
    {
      var candidate := candidates[i];
      IdsSnoc(candidates, i, Pinned);
      if InProgress(candidate.build) {
        desired := desired + {candidate.id};
      }
      if candidate.pendingRelease || (candidate.environment.Production? && candidate.release.Active?) {
        desired := desired + {candidate.id};
      }
    }
    assert candidates[..|candidates|] == candidates;
  }

  /** The reverse search: the position after the last serving one, or 0. */
  method AfterLastServing(builds: seq<DeliveryCandidate>) returns (i: nat)
    ensures i <= |builds| && (i > 0 ==> builds[i - 1].serve.ServeReady?)
    ensures forall k :: i <= k < |builds| ==> !builds[k].serve.ServeReady?
  {
    i := |builds|;
    while i > 0 && !builds[i - 1].serve.ServeReady?
      invariant 0 <= i <= |builds|
      invariant forall k :: i <= k < |builds| ==> !builds[k].serve.ServeReady?
    {
      i := i - 1;
    }
  }

  method DesiredDeliveryIds(candidates: seq<DeliveryCandidate>) returns (desired: set<nat>)
    requires DistinctIds(candidates)
    ensures desired == DesiredIds(candidates)
  {
    desired := PinnedIds(candidates);
    var readyBuilds := SortByKey(Filter(candidates, Deliverable));
    if readyBuilds == [] {
      NoDeliverable(candidates);
      return;
    }
    var newest := readyBuilds[|readyBuilds| - 1];
    readyBuilds := readyBuilds[..|readyBuilds| - 1];
    desired := desired + {newest.id};
    NewestIsLast(candidates, readyBuilds, newest);
    if newest.serve.ServeReady? {
      AssembleDesired(candidates, newest, Some(newest));
      return;
    }
    var i := AfterLastServing(readyBuilds);
    PreviousIsLastServing(candidates, readyBuilds, newest, i);
    AssembleDesired(candidates, newest, if i > 0 then Some(readyBuilds[i - 1]) else None);
    if i > 0 { desired := desired + {readyBuilds[i - 1].id}; }
  }

  lemma IdsSnoc(candidates: seq<DeliveryCandidate>, i: nat, p: DeliveryCandidate -> bool)
    requires i < |candidates|
    ensures Ids(candidates[..i + 1], p) == Ids(candidates[..i], p) + (if p(candidates[i]) then {candidates[i].id} else {})
  {
    assert candidates[..i + 1] == candidates[..i] + [candidates[i]];
  }

  lemma NoDeliverable(candidates: seq<DeliveryCandidate>)
    requires SortByKey(Filter(candidates, Deliverable)) == []
    ensures DesiredIds(candidates) == Ids(candidates, Pinned)
  {
    var deliverable := Filter(candidates, Deliverable);
    forall c | c in candidates ensures Desired(candidates, c) <==> Pinned(c) {
      assert c in deliverable <==> Deliverable(c);
      assert Serving(c) ==> Deliverable(c);
    }
  }

  lemma NewestIsLast(candidates: seq<DeliveryCandidate>, older: seq<DeliveryCandidate>, newest: DeliveryCandidate)
    requires DistinctIds(candidates)
    requires SortByKey(Filter(candidates, Deliverable)) == older + [newest]
    ensures LastAmong(candidates, newest, Deliverable)
    ensures newest.serve.ServeReady? ==> LastAmong(candidates, newest, Serving)
  {
    var sorted := older + [newest];
    assert newest in sorted && sorted[|older|] == newest;
    forall other | other in candidates && Deliverable(other) && other != newest ensures Before(other, newest) {
      assert other in sorted;
      var k :| 0 <= k < |sorted| && sorted[k] == other;
    }
  }

  /** The reverse search stopped at `i`: the entry before it is the last serving one, or none is serving. */
  lemma PreviousIsLastServing(candidates: seq<DeliveryCandidate>, older: seq<DeliveryCandidate>,
                              newest: DeliveryCandidate, i: nat)
    requires DistinctIds(candidates)
    requires SortByKey(Filter(candidates, Deliverable)) == older + [newest]
    requires !newest.serve.ServeReady? && i <= |older|
    requires i > 0 ==> older[i - 1].serve.ServeReady?
    requires forall k :: i <= k < |older| ==> !older[k].serve.ServeReady?
    ensures i > 0 ==> LastAmong(candidates, older[i - 1], Serving)
    ensures i == 0 ==> forall c :: c in candidates ==> !Serving(c)
  {
    var sorted := older + [newest];
    forall c | c in candidates && Serving(c)
      ensures i > 0 && (c == older[i - 1] || Before(c, older[i - 1]))
    {
      assert c in sorted;
      var k :| 0 <= k < |sorted| && sorted[k] == c;
      assert k < i;
      assert i > 0 && sorted[i - 1] in sorted;
    }
    if i > 0 { assert sorted[i - 1] in sorted; }
  }

  /** At most one candidate is last in each class, so the classes add one id each. */
  lemma AssembleDesired(candidates: seq<DeliveryCandidate>, newest: DeliveryCandidate, serving: Option<DeliveryCandidate>)
    requires LastAmong(candidates, newest, Deliverable)
    requires serving.Some? ==> LastAmong(candidates, serving.value, Serving)
    requires serving.None? ==> forall c :: c in candidates ==> !Serving(c)
    ensures DesiredIds(candidates) ==
            Ids(candidates, Pinned) + {newest.id} + (if serving.Some? then {serving.value.id} else {})
  {
    forall c | c in candidates
      ensures LastAmong(candidates, c, Deliverable) <==> c == newest
      ensures LastAmong(candidates, c, Serving) <==> serving == Some(c)
    {
    }
  }

  // --- The effective preview ------------------------------------------------------

  /** `max_by_key`: the last maximum of a non-empty list. */
  function NewestOf(candidates: seq<DeliveryCandidate>): (c: DeliveryCandidate)
    requires candidates != []
    ensures c in candidates
    ensures forall other :: other in candidates ==> !Before(c, other)
  {
    var last := candidates[|candidates| - 1];
    if |candidates| == 1 then last
    else
      var best := NewestOf(candidates[..|candidates| - 1]);
      assert candidates == candidates[..|candidates| - 1] + [last];
      if Before(last, best) then best else last
  }

  function EffectivePreviewId(candidates: seq<DeliveryCandidate>): Option<nat> {
    var ready := Filter(candidates, (c: DeliveryCandidate) => c.build.BuildReady?);
    if ready == [] then None
    else
      var newest := NewestOf(ready);
      if newest.serve.ServeReady? then Some(newest.id) else None
  }

  /** The deployment behind the preview host never loses its assignment. */
  lemma EffectivePreviewIsDesired(candidates: seq<DeliveryCandidate>)
    requires DistinctIds(candidates) && EffectivePreviewId(candidates).Some?
    ensures EffectivePreviewId(candidates).value in DesiredIds(candidates)
  {
    var ready := Filter(candidates, (c: DeliveryCandidate) => c.build.BuildReady?);
    var newest := NewestOf(ready);
    assert newest in candidates;
    forall other | other in candidates && Serving(other) && other != newest ensures Before(other, newest) {
      assert other in ready;
    }
    assert LastAmong(candidates, newest, Serving);
  }

  /** A candidate is behind the preview host exactly when it is served and no other ready build was created after it, ids deciding
      between those created at the same time. */
  lemma EffectivePreviewExactly(candidates: seq<DeliveryCandidate>, c: DeliveryCandidate)
    requires DistinctIds(candidates) && c in candidates
    ensures EffectivePreviewId(candidates) == Some(c.id) <==>
            && c.build == BuildReady && c.serve == ServeReady
            && forall other :: other in candidates && other.build == BuildReady && other != c ==>
                 other.createdAt < c.createdAt || (other.createdAt == c.createdAt && other.id < c.id)
  {
    var ready := Filter(candidates, (x: DeliveryCandidate) => x.build.BuildReady?);
    assert c in ready <==> c.build.BuildReady?;
    if ready != [] {
      var newest := NewestOf(ready);
      assert newest in candidates;
      forall other | other in candidates && other.build.BuildReady? && other != newest ensures Before(other, newest) { assert other in ready; }
    }
  }

  /** Some candidate with property `p` is last among them as soon as there is one. */
  lemma {:induction false} LastExists(candidates: seq<DeliveryCandidate>, p: DeliveryCandidate -> bool, some: DeliveryCandidate)
    returns (last: DeliveryCandidate)
    requires DistinctIds(candidates) && some in candidates && p(some)
    ensures LastAmong(candidates, last, p)
  {
    var having := Filter(candidates, p);
    assert some in having;
    last := NewestOf(having);
  }

  // --- Reconciliation of one environment --------------------------------------------

  function CandidateOf(ds: seq<Deployment>, i: nat): DeliveryCandidate
    requires i < |ds|
  {
    var d := ds[i];
    DeliveryCandidate(i, d.environment, d.build, d.serve, d.release, d.pending.Some?, d.createdAt)
  }

  predicate InEnvironment(d: Deployment, project: nat, environment: Environment) {
    d.project == project && d.environment == environment
  }

  function Candidates(ds: seq<Deployment>, project: nat, environment: Environment): seq<DeliveryCandidate> {
    CandidatesBelow(ds, |ds|, project, environment)
  }

  function CandidatesBelow(ds: seq<Deployment>, n: nat, project: nat, environment: Environment): (cs: seq<DeliveryCandidate>)
    requires n <= |ds|
    ensures forall c :: c in cs <==> c.id < n && InEnvironment(ds[c.id], project, environment) && c == CandidateOf(ds, c.id)
  {
    if n == 0 then []
    else
      var before := CandidatesBelow(ds, n - 1, project, environment);
      if InEnvironment(ds[n - 1], project, environment) then before + [CandidateOf(ds, n - 1)] else before
  }

  predicate IsDesired(ds: seq<Deployment>, project: nat, environment: Environment, i: nat)
    requires i < |ds|
  {
    Desired(Candidates(ds, project, environment), CandidateOf(ds, i))
  }

  function Unassigned(d: Deployment): Deployment {
    d.(serve := Retired, serveNode := None)
  }

  /** The table after `reconcile_environment`: finished deployments of the environment that are not
      desired are retired and lose their node, every other row is untouched. */
  function Reconciled(ds: seq<Deployment>, project: nat, environment: Environment): (r: seq<Deployment>)
    ensures |r| == |ds|
  {
    seq(|ds|, i requires 0 <= i < |ds| =>
      if InEnvironment(ds[i], project, environment) && !InProgress(ds[i].build) && !IsDesired(ds, project, environment, i)
      then Unassigned(ds[i]) else ds[i])
  }

  /** Reconciling does not change which deployments are desired. */
  lemma ReconcileKeepsDesired(ds: seq<Deployment>, project: nat, environment: Environment, i: nat)
    requires i < |ds|
    ensures IsDesired(Reconciled(ds, project, environment), project, environment, i) <==> IsDesired(ds, project, environment, i)
  {
    var after := Reconciled(ds, project, environment);
    var cs, cs' := Candidates(ds, project, environment), Candidates(after, project, environment);
    var c, c' := CandidateOf(ds, i), CandidateOf(after, i);
    if Desired(cs, c) {
      assert c' == c && c' in cs';
      forall p: DeliveryCandidate -> bool | (p == Deliverable || p == Serving) && LastAmong(cs, c, p)
        ensures LastAmong(cs', c', p)
      {
        forall other | other in cs' && p(other) && other != c' ensures Before(other, c') {
          SurvivorUnchanged(ds, project, environment, other);
        }
      }
    }
    if Desired(cs', c') {
      SurvivorUnchanged(ds, project, environment, c');
    }
  }

  /** After reconciling, a candidate that can still matter was desired before and is unchanged. */
  lemma SurvivorUnchanged(ds: seq<Deployment>, project: nat, environment: Environment, c: DeliveryCandidate)
    requires c in Candidates(Reconciled(ds, project, environment), project, environment)
    requires Pinned(c) || Deliverable(c)
    ensures c in Candidates(ds, project, environment)
    ensures Desired(Candidates(ds, project, environment), c)
  {
    assert c.id < |ds|;
    assert CandidateOf(ds, c.id) in Candidates(ds, project, environment);
    assert Pinned(c) ==> Pinned(CandidateOf(ds, c.id));
  }

  lemma ReconcileIdempotent(ds: seq<Deployment>, project: nat, environment: Environment)
    ensures Reconciled(Reconciled(ds, project, environment), project, environment) == Reconciled(ds, project, environment)
  {
    var after := Reconciled(ds, project, environment);
    forall i: nat | i < |ds| ensures Reconciled(after, project, environment)[i] == after[i] {
      ReconcileKeepsDesired(ds, project, environment, i);
    }
  }

  /** After reconciling, the finished deployments that hold an assignment are exactly the desired ones that
      held one before; nothing else of the environment is assigned, and no other row changed. */
  lemma ReconcileLeavesExactlyDesired(ds: seq<Deployment>, project: nat, environment: Environment, i: nat)
    requires i < |ds|
    ensures var after := Reconciled(ds, project, environment);
            && (IsDesired(after, project, environment, i) ==> after[i] == ds[i])
            && (!InEnvironment(ds[i], project, environment) ==> after[i] == ds[i])
            && (InEnvironment(ds[i], project, environment) && !IsDesired(after, project, environment, i)
                ==> after[i].serve.Retired? && after[i].serveNode.None?)
  {
    ReconcileKeepsDesired(ds, project, environment, i);
    assert CandidateOf(ds, i) in Candidates(ds, project, environment) <==> InEnvironment(ds[i], project, environment);
  }

  /** Deployment `i` is the last of its environment with the property, by its creation and then by its id. */
  predicate NewestRow(ds: seq<Deployment>, project: nat, environment: Environment, i: nat, keep: Deployment -> bool)
    requires i < |ds|
  {
    && ds[i].project == project && ds[i].environment == environment && keep(ds[i])
    && forall k: nat :: k < |ds| && k != i && ds[k].project == project && ds[k].environment == environment && keep(ds[k]) ==>
         ds[k].createdAt < ds[i].createdAt || (ds[k].createdAt == ds[i].createdAt && k < i)
  }

  predicate DeliverableRow(d: Deployment) { d.build == BuildReady && (d.serve != Retired || d.pending != None) }
  predicate ServingRow(d: Deployment) { d.build == BuildReady && d.serve == ServeReady }

  /** What an environment needs: its builds in progress, its waiting release, its published production deployment, its newest ready
      build that has a node or waits for one, and its newest served one. */
  predicate Needed(ds: seq<Deployment>, project: nat, environment: Environment, i: nat)
    requires i < |ds|
  {
    && ds[i].project == project && ds[i].environment == environment
    && (ds[i].build in {BuildPending, Claimed, Queued, Building} || ds[i].pending != None
        || (environment == Production && ds[i].release == Active)
        || NewestRow(ds, project, environment, i, DeliverableRow) || NewestRow(ds, project, environment, i, ServingRow))
  }

  lemma NewestMeans(ds: seq<Deployment>, project: nat, environment: Environment, i: nat, p: DeliveryCandidate -> bool, keep: Deployment -> bool)
    requires i < |ds| && forall k: nat :: k < |ds| ==> (p(CandidateOf(ds, k)) <==> keep(ds[k]))
    ensures LastAmong(Candidates(ds, project, environment), CandidateOf(ds, i), p) <==> NewestRow(ds, project, environment, i, keep)
  {
    var cs := Candidates(ds, project, environment);
    if LastAmong(cs, CandidateOf(ds, i), p) {
      forall k: nat | k < |ds| && k != i && ds[k].project == project && ds[k].environment == environment && keep(ds[k])
        ensures ds[k].createdAt < ds[i].createdAt || (ds[k].createdAt == ds[i].createdAt && k < i)
      {
        assert CandidateOf(ds, k) in cs && p(CandidateOf(ds, k)) && CandidateOf(ds, k) != CandidateOf(ds, i);
        assert Before(CandidateOf(ds, k), CandidateOf(ds, i));
      }
    }
    if NewestRow(ds, project, environment, i, keep) {
      assert CandidateOf(ds, i) in cs;
      forall other | other in cs && p(other) && other != CandidateOf(ds, i) ensures Before(other, CandidateOf(ds, i)) {
        assert other == CandidateOf(ds, other.id);
      }
    }
  }

  /** Reconciling takes from their nodes exactly the ended builds their environment does not need. */
  lemma ReconciledExactly(ds: seq<Deployment>, project: nat, environment: Environment, i: nat)
    requires i < |ds|
    ensures Reconciled(ds, project, environment)[i] ==
            if ds[i].project == project && ds[i].environment == environment && !Needed(ds, project, environment, i)
            then ds[i].(serve := Retired, serveNode := None) else ds[i]
  {
    NewestMeans(ds, project, environment, i, Deliverable, DeliverableRow);
    NewestMeans(ds, project, environment, i, Serving, ServingRow);
    assert CandidateOf(ds, i) in Candidates(ds, project, environment) <==> InEnvironment(ds[i], project, environment);
  }

  /** An environment that was serving a ready build still serves its newest one. */
  lemma ReconcileNeverGoesDark(ds: seq<Deployment>, project: nat, environment: Environment, i: nat) returns (k: nat)
    requires i < |ds| && InEnvironment(ds[i], project, environment)
    requires ds[i].build.BuildReady? && ds[i].serve.ServeReady?
    ensures k < |ds| && InEnvironment(ds[k], project, environment)
    ensures ds[k].build.BuildReady? && ds[k].serve.ServeReady?
    ensures k == i || Before(CandidateOf(ds, i), CandidateOf(ds, k))
    ensures Reconciled(ds, project, environment)[k] == ds[k]
  {
    var cs := Candidates(ds, project, environment);
    var last := LastExists(cs, Serving, CandidateOf(ds, i));
    k := last.id;
    assert IsDesired(ds, project, environment, k);
  }

  // --- How many finished builds stay assigned -----------------------------------------

  ghost function FinishedAssigned(ds: seq<Deployment>, project: nat, environment: Environment): set<nat> {
    set i: nat | i < |ds| && InEnvironment(ds[i], project, environment) && !InProgress(ds[i].build) && !ds[i].serve.Retired?
  }

  /** Every project environment has at most one Active and at most one waiting release. */
  predicate OnePerEnvironment(ds: seq<Deployment>) {
    forall i: nat, k: nat :: i < |ds| && k < |ds| && i != k && SameEnvironment(ds[i], ds[k])
      ==> !(ds[i].release.Active? && ds[k].release.Active?) && !(ds[i].pending.Some? && ds[k].pending.Some?)
  }

  lemma {:induction false} AtMostOne(s: set<nat>)
    requires forall a, b :: a in s && b in s ==> a == b
    ensures |s| <= 1
  {
    if s != {} {
      var a :| a in s;
      assert s == {a};
    }
  }

  /** With one Active and one waiting release per environment, at most four finished builds keep
      an assignment: those two, the newest deliverable one and the newest serving one. */
  lemma AtMostFourFinished(ds: seq<Deployment>, project: nat, environment: Environment)
    requires OnePerEnvironment(ds)
    ensures |FinishedAssigned(Reconciled(ds, project, environment), project, environment)| <= 4
  {
    var cs := Candidates(ds, project, environment);
    var kept := FinishedAssigned(Reconciled(ds, project, environment), project, environment);
    var pending := set i: nat | i < |ds| && InEnvironment(ds[i], project, environment) && ds[i].pending.Some?;
    var active := set i: nat | i < |ds| && InEnvironment(ds[i], project, environment) && ds[i].release.Active?;
    var newest, serving := LastIds(ds, cs, Deliverable), LastIds(ds, cs, Serving);
    forall i | i in kept ensures i in pending + active + newest + serving {
      FinishedIsClassed(ds, project, environment, i);
    }
    AtMostOne(pending);
    AtMostOne(active);
    LastIsOne(ds, cs, Deliverable);
    LastIsOne(ds, cs, Serving);
    FullSubset(kept, pending + active + newest + serving);
    UnionSize(pending, active);
    UnionSize(pending + active, newest);
    UnionSize(pending + active + newest, serving);
  }

  ghost function LastIds(ds: seq<Deployment>, cs: seq<DeliveryCandidate>, p: DeliveryCandidate -> bool): set<nat> {
    set i: nat | i < |ds| && LastAmong(cs, CandidateOf(ds, i), p)
  }

  lemma LastIsOne(ds: seq<Deployment>, cs: seq<DeliveryCandidate>, p: DeliveryCandidate -> bool)
    ensures |LastIds(ds, cs, p)| <= 1
  {
    AtMostOne(LastIds(ds, cs, p));
  }

  lemma FinishedIsClassed(ds: seq<Deployment>, project: nat, environment: Environment, i: nat)
    requires i in FinishedAssigned(Reconciled(ds, project, environment), project, environment)
    ensures var cs := Candidates(ds, project, environment);
            && i < |ds| && InEnvironment(ds[i], project, environment)
            && (ds[i].pending.Some? || ds[i].release.Active? || i in LastIds(ds, cs, Deliverable) || i in LastIds(ds, cs, Serving))
  {
    assert IsDesired(ds, project, environment, i);
  }

  lemma UnionSize(a: set<nat>, b: set<nat>)
    ensures |a + b| <= |a| + |b|
  {
    assert a + b == a + (b - a) && a !! (b - a);
    FullSubset(b - a, b);
  }
}
