/** What the placement query and the scheduler decide, measured on the tables. */
module Placements {
  import opened Basics
  import opened Lifecycle
  import opened Scheduler
  import opened Delivery
  import opened ControlPlane
  import opened Effects
  import opened Capacity

  // --- Loads ----------------------------------------------------------------------------------------

  /** The deployment occupies its node: its build has not ended without success and it is not retired. */
  predicate Occupying(d: Deployment) {
    d.build != BuildFailed && d.build != BuildCanceled && d.serve != Retired
  }

  /** The migration row of the job will bring the deployment to node `n`, where it is not yet. */
  predicate Expects(job: Job, n: nat, i: nat, d: Deployment) {
    job.target == Some(n) && i in job.rows && job.rows[i] != RowFailed && Occupying(d) && d.serveNode != Some(n)
  }

  function ExpectsAt(s: State, n: nat, i: nat): nat -> bool {
    (j: nat) => j < |s.jobs| && i < |s.deployments| && Expects(s.jobs[j], n, i, s.deployments[i])
  }

  /** The jobs that will bring deployment `i` to node `n`. */
  function Expecting(s: State, n: nat, i: nat): set<nat> {
    Below(|s.jobs|, ExpectsAt(s, n, i))
  }

  /** How often node `n` carries or expects deployment `i`. */
  ghost function Uses(s: State, n: nat, i: nat): nat
    requires i < |s.deployments|
  {
    (if Occupying(s.deployments[i]) && s.deployments[i].serveNode == Some(n) then 1 else 0) + |Expecting(s, n, i)|
  }

  function Size(m: Measure, r: ServeResources): nat {
    match m
    case Cpu => r.cpu
    case Memory => r.memory
    case Disk => r.disk
    case Slots => 1
  }

  function Times(a: nat, b: nat): nat { a * b }

  ghost function LoadShare(s: State, n: nat, m: Measure, i: nat): nat {
    if i < |s.deployments| then Times(Uses(s, n, i), Size(m, s.deployments[i].resources)) else 0
  }

  ghost function LoadTerm(s: State, n: nat, m: Measure): nat -> nat {
    (i: nat) => LoadShare(s, n, m, i)
  }

  /** What node `n` carries and expects of one resource, or how many deployments. */
  ghost function Load(s: State, n: nat, m: Measure): nat {
    Sum(|s.deployments|, LoadTerm(s, n, m))
  }

  lemma OneMoreTime(a: nat, b: nat)
    ensures Times(a + 1, b) == Times(a, b) + b
  {
    assert (a + 1) * b == a * b + b;
  }

  lemma {:induction false} ShadowSum(s: State, n: nat, i: nat, m: Measure, k: nat)
    requires i < |s.deployments| && k <= |s.jobs|
    ensures Sum(k, ShadowTerm(s.jobs, n, i, s.deployments[i], m))
            == Times(|Below(k, ExpectsAt(s, n, i))|, Size(m, s.deployments[i].resources))
  {
    if k > 0 {
      ShadowSum(s, n, i, m, k - 1);
      BelowNext(k - 1, ExpectsAt(s, n, i));
      ShadowIsExpected(s, n, i, m, k - 1);
      OneMoreTime(|Below(k - 1, ExpectsAt(s, n, i))|, Size(m, s.deployments[i].resources));
    }
  }

  lemma ShadowIsExpected(s: State, n: nat, i: nat, m: Measure, j: nat)
    requires i < |s.deployments| && j < |s.jobs|
    ensures ShadowTerm(s.jobs, n, i, s.deployments[i], m)(j) == if ExpectsAt(s, n, i)(j) then Size(m, s.deployments[i].resources) else 0
  {
  }

  lemma ShareIsLoad(s: State, n: nat, m: Measure, i: nat)
    requires i < |s.deployments|
    ensures UsageShare(s, n, m, i) == LoadShare(s, n, m, i)
  {
    ShadowSum(s, n, i, m, |s.jobs|);
    OneMoreTime(|Expecting(s, n, i)|, Size(m, s.deployments[i].resources));
  }

  /** The query sums, for each resource, what a node carries and expects. */
  lemma ScheduledIsLoad(s: State, n: nat, m: Measure)
    ensures ScheduledUsage(s, n, m) == Load(s, n, m)
  {
    forall i: nat | i < |s.deployments| ensures UsageTerm(s, n, m)(i) == LoadTerm(s, n, m)(i) { ShareIsLoad(s, n, m, i); }
    SumEqual(|s.deployments|, UsageTerm(s, n, m), LoadTerm(s, n, m));
  }

  // --- Which nodes can take a deployment ------------------------------------------------------------

  /** The node serves, was heard of in the last 90 seconds and has some of everything. */
  predicate Serves(node: Node, now: int) {
    && !node.deleted && node.status == NodeActive && node.serveEnabled && node.hasBaseUrl
    && node.lastHeartbeat.Some? && now - node.lastHeartbeat.value <= 90_000
    && node.capacity.cpu > 0 && node.capacity.memory > 0 && node.capacity.disk > 0 && node.capacity.maxDeployments > 0
  }

  predicate IsLocal(node: Node, region: Option<string>) {
    region.Some? ==> node.region == region.value
  }

  /** Node `n` serves, is in the region, and has all four beside what it carries and expects. */
  ghost predicate HasAll(s: State, n: nat, r: ServeResources)
    requires n < |s.nodes|
  {
    var c := s.nodes[n].capacity;
    && Load(s, n, Cpu) + r.cpu <= c.cpu && Load(s, n, Memory) + r.memory <= c.memory
    && Load(s, n, Disk) + r.disk <= c.disk && Load(s, n, Slots) + 1 <= c.maxDeployments
  }

  /** Node `n` has the disk, and a place among those it allows and two more. */
  ghost predicate HasDiskAndPlace(s: State, n: nat, r: ServeResources)
    requires n < |s.nodes|
  {
    Load(s, n, Disk) + r.disk <= s.nodes[n].capacity.disk && Load(s, n, Slots) + 1 <= s.nodes[n].capacity.maxDeployments + 2
  }

  ghost predicate Open(s: State, now: int, region: Option<string>, n: nat) {
    n < |s.nodes| && Serves(s.nodes[n], now) && IsLocal(s.nodes[n], region)
  }

  function Capped(x: nat): nat { if x > 0xFFFF_FFFF_FFFF_FFFF then 0xFFFF_FFFF_FFFF_FFFF else x }

  function Larger(a: real, b: real): real { if a <= b then b else a }

  function Share(used: nat, capacity: nat): real
    requires capacity > 0
  {
    Capped(used) as real / capacity as real
  }

  /** The largest of the four shares of its capacity that node `n` would use. */
  ghost function Pressure(s: State, n: nat, r: ServeResources): real
    requires n < |s.nodes|
    requires var c := s.nodes[n].capacity; c.cpu > 0 && c.memory > 0 && c.disk > 0 && c.maxDeployments > 0
  {
    var c := s.nodes[n].capacity;
    Larger(Larger(Share(Load(s, n, Cpu) + r.cpu, c.cpu), Share(Load(s, n, Memory) + r.memory, c.memory)),
           Larger(Share(Load(s, n, Disk) + r.disk, c.disk), Share(Load(s, n, Slots) + 1, c.maxDeployments)))
  }

  /** The candidate row of a node carries its loads. */
  lemma CandidateLoads(s: State, n: nat)
    requires n < |s.nodes|
    ensures var c := CandidateFor(s, n);
            && c.nodeId == n && c.region == s.nodes[n].region && c.capacity == s.nodes[n].capacity
            && c.usage == NodeUsage(Load(s, n, Cpu), Load(s, n, Memory), Load(s, n, Disk), Load(s, n, Slots))
  {
    ScheduledIsLoad(s, n, Cpu);
    ScheduledIsLoad(s, n, Memory);
    ScheduledIsLoad(s, n, Disk);
    ScheduledIsLoad(s, n, Slots);
  }

  lemma CandidateMeans(s: State, n: nat, now: int, r: ServeResources)
    requires n < |s.nodes| && Serves(s.nodes[n], now)
    ensures HasPositiveCapacity(CandidateFor(s, n))
    ensures Fits(CandidateFor(s, n), r) <==> HasAll(s, n, r)
    ensures CanOverflow(CandidateFor(s, n), r) <==> HasDiskAndPlace(s, n, r)
  {
    CandidateLoads(s, n);
    FitsMeans(CandidateFor(s, n), r);
    OverflowMeans(CandidateFor(s, n), r);
  }

  lemma ScoreIsPressure(s: State, n: nat, now: int, r: ServeResources)
    requires n < |s.nodes| && Serves(s.nodes[n], now)
    ensures Score(CandidateFor(s, n), r) == Finite(Pressure(s, n, r))
  {
    CandidateLoads(s, n);
  }

  lemma EligibleMeans(s: State, n: nat, now: int)
    requires n < |s.nodes|
    ensures IsEligible(s.nodes[n], now) <==> Serves(s.nodes[n], now)
  {
  }

  lemma CandidateIsOpen(s: State, now: int, region: Option<string>, c: Candidate)
    requires c in InRegion(EligibleCandidates(s, now), region)
    ensures Open(s, now, region, c.nodeId) && c == CandidateFor(s, c.nodeId)
  {
    EligibleMeans(s, c.nodeId, now);
  }

  lemma OpenIsCandidate(s: State, now: int, region: Option<string>, n: nat)
    requires Open(s, now, region, n)
    ensures CandidateFor(s, n) in InRegion(EligibleCandidates(s, now), region)
  {
    EligibleMeans(s, n, now);
    assert CandidateFor(s, n) in EligibleCandidates(s, now);
  }

  /** The candidates of a region are the rows of its open nodes. */
  lemma LocalCandidates(s: State, now: int, region: Option<string>, c: Candidate)
    ensures c in InRegion(EligibleCandidates(s, now), region) <==> Open(s, now, region, c.nodeId) && c == CandidateFor(s, c.nodeId)
  {
    if c in InRegion(EligibleCandidates(s, now), region) { CandidateIsOpen(s, now, region, c); }
    if Open(s, now, region, c.nodeId) { OpenIsCandidate(s, now, region, c.nodeId); }
  }

  // --- Placements -----------------------------------------------------------------------------------

  /** Node `n` is under no more pressure than any other open node with the property. */
  ghost predicate LeastPressed(s: State, now: int, region: Option<string>, r: ServeResources, n: nat, all: bool)
    requires Open(s, now, region, n)
  {
    forall k: nat :: Open(s, now, region, k) && (if all then HasAll(s, k, r) else HasDiskAndPlace(s, k, r)) ==> Pressure(s, n, r) <= Pressure(s, k, r)
  }

  ghost predicate SomeHasAll(s: State, now: int, region: Option<string>, r: ServeResources) {
    exists k: nat :: Open(s, now, region, k) && HasAll(s, k, r)
  }

  /** The scheduler's answers, on the tables: an open node with disk and a place, marked overcommitted exactly when it lacks one
      of the four; the selected node, or else, among the open nodes that have all four, or, when there are none, among those
      with disk and a place, one under the least pressure. */
  ghost predicate IsGranted(s: State, now: int, r: ServeResources, region: Option<string>, selected: Option<nat>, p: Placement) {
    && Open(s, now, region, p.nodeId) && p.region == s.nodes[p.nodeId].region && p.overcommitted == !HasAll(s, p.nodeId, r)
    && HasDiskAndPlace(s, p.nodeId, r) && p.mode == (if selected.Some? then Manual else Automatic)
    && (if selected.Some? then p.nodeId == selected.value
        else && (SomeHasAll(s, now, region, r) ==> HasAll(s, p.nodeId, r))
             && LeastPressed(s, now, region, r, p.nodeId, SomeHasAll(s, now, region, r)))
  }

  lemma LocalMeans(s: State, now: int, region: Option<string>, r: ServeResources, c: Candidate)
    requires c in InRegion(EligibleCandidates(s, now), region)
    ensures Open(s, now, region, c.nodeId) && c == CandidateFor(s, c.nodeId) && HasPositiveCapacity(c)
    ensures Fits(c, r) <==> HasAll(s, c.nodeId, r)
    ensures CanOverflow(c, r) <==> HasDiskAndPlace(s, c.nodeId, r)
    ensures Score(c, r) == Finite(Pressure(s, c.nodeId, r))
  {
    LocalCandidates(s, now, region, c);
    CandidateMeans(s, c.nodeId, now, r);
    ScoreIsPressure(s, c.nodeId, now, r);
  }

  lemma OpenMeans(s: State, now: int, region: Option<string>, r: ServeResources, n: nat)
    requires Open(s, now, region, n)
    ensures var c := CandidateFor(s, n);
            && c in InRegion(EligibleCandidates(s, now), region) && c.nodeId == n && HasPositiveCapacity(c)
            && (Fits(c, r) <==> HasAll(s, n, r)) && (CanOverflow(c, r) <==> HasDiskAndPlace(s, n, r))
            && Score(c, r) == Finite(Pressure(s, n, r))
  {
    CandidateLoads(s, n);
    LocalCandidates(s, now, region, CandidateFor(s, n));
    LocalMeans(s, now, region, r, CandidateFor(s, n));
  }

  function Fitting(s: State, now: int, region: Option<string>, r: ServeResources): seq<Candidate> {
    Filter(Eligible(InRegion(EligibleCandidates(s, now), region)), x => Fits(x, r))
  }

  /** The candidates the automatic choice looks at: those with all four, or, when there are none, with disk and a place. */
  function Considered(s: State, now: int, region: Option<string>, r: ServeResources): seq<Candidate> {
    if Fitting(s, now, region, r) != [] then Fitting(s, now, region, r)
    else Filter(Eligible(InRegion(EligibleCandidates(s, now), region)), x => CanOverflow(x, r))
  }

  lemma FittingHasAll(s: State, now: int, region: Option<string>, r: ServeResources)
    requires Fitting(s, now, region, r) != []
    ensures SomeHasAll(s, now, region, r)
  {
    var c := Fitting(s, now, region, r)[0];
    assert c in Fitting(s, now, region, r);
    LocalMeans(s, now, region, r, c);
  }

  lemma HavingAllFits(s: State, now: int, region: Option<string>, r: ServeResources)
    requires SomeHasAll(s, now, region, r)
    ensures Fitting(s, now, region, r) != []
  {
    var k: nat :| Open(s, now, region, k) && HasAll(s, k, r);
    OpenFits(s, now, region, r, k);
  }

  lemma OpenFits(s: State, now: int, region: Option<string>, r: ServeResources, n: nat)
    requires Open(s, now, region, n) && HasAll(s, n, r)
    ensures CandidateFor(s, n) in Fitting(s, now, region, r)
  {
    OpenMeans(s, now, region, r, n);
  }

  /** Some candidate fits exactly when some open node has all four. */
  lemma SomeFits(s: State, now: int, region: Option<string>, r: ServeResources)
    ensures Fitting(s, now, region, r) != [] <==> SomeHasAll(s, now, region, r)
  {
    if Fitting(s, now, region, r) != [] { FittingHasAll(s, now, region, r); }
    if SomeHasAll(s, now, region, r) { HavingAllFits(s, now, region, r); }
  }

  lemma ConsideredMeans(s: State, now: int, region: Option<string>, r: ServeResources, c: Candidate)
    ensures c in Considered(s, now, region, r) <==>
            && c in InRegion(EligibleCandidates(s, now), region)
            && (if SomeHasAll(s, now, region, r) then HasAll(s, c.nodeId, r) else HasDiskAndPlace(s, c.nodeId, r))
  {
    SomeFits(s, now, region, r);
    if c in InRegion(EligibleCandidates(s, now), region) { LocalMeans(s, now, region, r, c); }
  }

  lemma AutomaticMeans(s: State, now: int, r: ServeResources, region: Option<string>, c: Candidate)
    requires c in InRegion(EligibleCandidates(s, now), region)
    ensures Open(s, now, region, c.nodeId)
    ensures AutomaticChoice(c, InRegion(EligibleCandidates(s, now), region), r) <==>
            && (if SomeHasAll(s, now, region, r) then HasAll(s, c.nodeId, r) else HasDiskAndPlace(s, c.nodeId, r))
            && LeastPressed(s, now, region, r, c.nodeId, SomeHasAll(s, now, region, r))
  {
    LocalMeans(s, now, region, r, c);
    ConsideredMeans(s, now, region, r, c);
    assert AutomaticChoice(c, InRegion(EligibleCandidates(s, now), region), r) <==>
           c in Considered(s, now, region, r) && Lowest(c, Considered(s, now, region, r), r);
    if c in Considered(s, now, region, r) { LowestIsLeastPressed(s, now, r, region, c); }
  }

  lemma LowestIsLeastPressed(s: State, now: int, r: ServeResources, region: Option<string>, c: Candidate)
    requires c in Considered(s, now, region, r)
    ensures Open(s, now, region, c.nodeId)
    ensures Lowest(c, Considered(s, now, region, r), r) <==> LeastPressed(s, now, region, r, c.nodeId, SomeHasAll(s, now, region, r))
  {
    ConsideredMeans(s, now, region, r, c);
    LocalMeans(s, now, region, r, c);
    if Lowest(c, Considered(s, now, region, r), r) {
      forall k: nat | Open(s, now, region, k) && (if SomeHasAll(s, now, region, r) then HasAll(s, k, r) else HasDiskAndPlace(s, k, r))
        ensures Pressure(s, c.nodeId, r) <= Pressure(s, k, r)
      {
        OpenMeans(s, now, region, r, k);
        ConsideredMeans(s, now, region, r, CandidateFor(s, k));
      }
    }
    if LeastPressed(s, now, region, r, c.nodeId, SomeHasAll(s, now, region, r)) {
      forall other | other in Considered(s, now, region, r) ensures RatioAtMost(Score(c, r), Score(other, r)) {
        ConsideredMeans(s, now, region, r, other);
        LocalMeans(s, now, region, r, other);
      }
    }
  }

  /** A placement is possible if and only if it is granted on the tables. */
  lemma PlacementExactly(s: State, now: int, r: ServeResources, region: Option<string>, selected: Option<nat>, p: Placement)
    ensures PlacementIsPossible(s, now, r, region, selected, p) <==> IsGranted(s, now, r, region, selected, p)
  {
    if PlacementIsPossible(s, now, r, region, selected, p) { PossibleIsGranted(s, now, r, region, selected, p); }
    if IsGranted(s, now, r, region, selected, p) { GrantedIsPossible(s, now, r, region, selected, p); }
  }

  lemma PossibleIsGranted(s: State, now: int, r: ServeResources, region: Option<string>, selected: Option<nat>, p: Placement)
    requires PlacementIsPossible(s, now, r, region, selected, p)
    ensures IsGranted(s, now, r, region, selected, p)
  {
    var local := InRegion(EligibleCandidates(s, now), region);
    var c :| c in local && p == Placement(c.nodeId, c.region, !Fits(c, r), if selected.Some? then Manual else Automatic)
             && (if selected.Some? then c.nodeId == selected.value && ManualChoice(c, local, r) else AutomaticChoice(c, local, r));
    LocalMeans(s, now, region, r, c);
    CandidateLoads(s, c.nodeId);
    if selected.None? { AutomaticMeans(s, now, r, region, c); }
  }

  lemma GrantedIsPossible(s: State, now: int, r: ServeResources, region: Option<string>, selected: Option<nat>, p: Placement)
    requires IsGranted(s, now, r, region, selected, p)
    ensures PlacementIsPossible(s, now, r, region, selected, p)
  {
    var c := CandidateFor(s, p.nodeId);
    OpenMeans(s, now, region, r, p.nodeId);
    CandidateLoads(s, p.nodeId);
    if selected.None? { AutomaticMeans(s, now, r, region, c); }
  }

  /** The scheduler has no place, or only an overcommitted one, exactly when no open node has disk and a place, or all four. */
  lemma NoPlaceExactly(s: State, now: int, r: ServeResources, region: Option<string>)
    ensures (forall c :: c in InRegion(EligibleCandidates(s, now), region) ==> !CanOverflow(c, r)) <==>
            (forall n: nat :: Open(s, now, region, n) ==> !HasDiskAndPlace(s, n, r))
  {
    if forall c :: c in InRegion(EligibleCandidates(s, now), region) ==> !CanOverflow(c, r) {
      forall n: nat | Open(s, now, region, n) ensures !HasDiskAndPlace(s, n, r) { OpenMeans(s, now, region, r, n); }
    } else {
      var c :| c in InRegion(EligibleCandidates(s, now), region) && CanOverflow(c, r);
      LocalMeans(s, now, region, r, c);
    }
  }

  // --- Loads after a placement ------------------------------------------------------------------------

  function Allowed(node: Node, m: Measure): nat {
    match m
    case Cpu => node.capacity.cpu
    case Memory => node.capacity.memory
    case Disk => node.capacity.disk
    case Slots => node.capacity.maxDeployments
  }

  ghost predicate WithinCapacity(s: State, n: nat)
    requires n < |s.nodes|
  {
    forall m: Measure :: Load(s, n, m) <= Allowed(s.nodes[n], m)
  }

  lemma OneTime(b: nat)
    ensures Times(1, b) == b
  {
  }

  lemma GrantedHasAll(s: State, now: int, r: ServeResources, region: Option<string>, selected: Option<nat>, p: Placement)
    requires PlacementIsPossible(s, now, r, region, selected, p) && !p.overcommitted
    ensures p.nodeId < |s.nodes| && HasAll(s, p.nodeId, r)
  {
    PlacementExactly(s, now, r, region, selected, p);
  }

  /** A created deployment that is not marked overcommitted leaves its node within its capacity in all four. */
  lemma CreationWithinCapacity(s: State, project: nat, environment: Environment, ssr: bool, region: Option<string>,
                               selected: Option<nat>, p: Placement, now: int, s': State)
    requires CreateDeployment(s, project, environment, ssr, region, selected, Some(p), now) == Ok(s') && !p.overcommitted
    ensures p.nodeId < |s'.nodes| && WithinCapacity(s', p.nodeId)
  {
    GrantedHasAll(s, now, ServeResourcesFor(ssr), region, selected, p);
    CreatedWithinCapacity(s, NewDeployment(project, environment, ssr, p, now), p.nodeId, s');
  }

  lemma CreatedWithinCapacity(s: State, d: Deployment, n: nat, s': State)
    requires s' == s.(deployments := s.deployments + [d]) && d.serveNode == Some(n)
    requires n < |s.nodes| && HasAll(s, n, d.resources)
    ensures WithinCapacity(s', n)
  {
    forall m: Measure ensures Load(s', n, m) <= Allowed(s'.nodes[n], m) { CreatedLoad(s, d, n, m); }
  }

  lemma OldLoadStays(s: State, d: Deployment, n: nat, m: Measure, i: nat)
    requires i < |s.deployments|
    ensures LoadShare(s.(deployments := s.deployments + [d]), n, m, i) == LoadShare(s, n, m, i)
  {
    assert Expecting(s.(deployments := s.deployments + [d]), n, i) == Expecting(s, n, i);
  }

  lemma CreatedLoad(s: State, d: Deployment, n: nat, m: Measure)
    requires d.serveNode == Some(n)
    ensures Load(s.(deployments := s.deployments + [d]), n, m) <= Load(s, n, m) + Size(m, d.resources)
  {
    var s' := s.(deployments := s.deployments + [d]);
    forall i: nat | i < |s.deployments| ensures LoadTerm(s', n, m)(i) == LoadTerm(s, n, m)(i) { OldLoadStays(s, d, n, m, i); }
    SumEqual(|s.deployments|, LoadTerm(s', n, m), LoadTerm(s, n, m));
    ShareOnNode(s', |s.deployments|, n, m);
  }

  lemma OtherLoadStays(s: State, s': State, i: nat, n: nat, m: Measure, k: nat)
    requires i < |s.deployments| && i < |s'.deployments| && s' == SetRow(s, i, s'.deployments[i]) && k < |s.deployments| && k != i
    ensures LoadShare(s', n, m, k) == LoadShare(s, n, m, k)
  {
    assert Expecting(s', n, k) == Expecting(s, n, k);
  }

  lemma ShareOnNode(s: State, i: nat, n: nat, m: Measure)
    requires i < |s.deployments| && s.deployments[i].serveNode == Some(n)
    ensures LoadShare(s, n, m, i) <= Size(m, s.deployments[i].resources)
  {
    assert Expecting(s, n, i) == {};
    OneTime(Size(m, s.deployments[i].resources));
  }

  /** The row of deployment `i` moves to node `n`. */
  lemma PlacedLoad(s: State, s': State, i: nat, n: nat, m: Measure)
    requires i < |s.deployments| && i < |s'.deployments| && s' == SetRow(s, i, s'.deployments[i])
    requires s'.deployments[i].serveNode == Some(n) && s'.deployments[i].resources == s.deployments[i].resources
    ensures Load(s', n, m) <= Load(s, n, m) + Size(m, s.deployments[i].resources)
  {
    forall k: nat | k < |s.deployments| && k != i ensures LoadTerm(s', n, m)(k) == LoadTerm(s, n, m)(k) {
      OtherLoadStays(s, s', i, n, m, k);
    }
    SumAt(|s.deployments|, LoadTerm(s', n, m), LoadTerm(s, n, m), i);
    ShareOnNode(s', i, n, m);
  }

  lemma MoreTimes(a: nat, b: nat, c: nat)
    requires a <= b
    ensures Times(a, c) <= Times(b, c)
  {
    assert b * c == a * c + (b - a) * c;
  }

  lemma RecedingLoad(s: State, s': State, n: nat, m: Measure)
    requires Recedes(s, s')
    ensures Load(s', n, m) <= Load(s, n, m)
  {
    forall i: nat | i < |s.deployments| ensures LoadTerm(s', n, m)(i) <= LoadTerm(s, n, m)(i) {
      assert RowRecedes(s.deployments[i], s'.deployments[i]);
      FullSubset(Expecting(s', n, i), Expecting(s, n, i));
      MoreTimes(Uses(s', n, i), Uses(s, n, i), Size(m, s.deployments[i].resources));
    }
    SumMonotone(|s.deployments|, LoadTerm(s', n, m), LoadTerm(s, n, m));
  }

  lemma PlacedWithinCapacity(s: State, placed: State, i: nat, n: nat, s': State)
    requires i < |s.deployments| && i < |placed.deployments| && placed == SetRow(s, i, placed.deployments[i])
    requires placed.deployments[i].serveNode == Some(n) && placed.deployments[i].resources == s.deployments[i].resources
    requires n < |s.nodes| && HasAll(s, n, s.deployments[i].resources) && Recedes(placed, s')
    ensures WithinCapacity(s', n)
  {
    forall m: Measure ensures Load(s', n, m) <= Allowed(s'.nodes[n], m) {
      PlacedLoad(s, placed, i, n, m);
      RecedingLoad(placed, s', n, m);
    }
  }

  /** So does a release request that brings its deployment back to a node without marking it overcommitted. */
  lemma RequestWithinCapacity(s: State, i: nat, reason: ReleaseReason, p: Placement, now: int, s': State)
    requires i < |s.deployments| && RequestRelease(s, i, reason, Some(p), now) == Ok(s')
    requires (s.deployments[i].serveNode.None? || s.deployments[i].serve == Retired) && !p.overcommitted
    ensures p.nodeId < |s'.nodes| && WithinCapacity(s', p.nodeId)
  {
    var d := s.deployments[i];
    var queued := RequestShape(s, i, reason, Some(p), now);
    assert queued == SetRow(s, i, Placed(d, p).(pending := Some(reason)));
    GrantedHasAll(s, now, d.resources, Some(d.region), None, p);
    ReconcileRecedes(queued, d.project, d.environment);
    PlacedWithinCapacity(s, queued, i, p.nodeId, s');
  }

  // --- Targets of a deletion ------------------------------------------------------------------------

  function CarriedShare(s: State, n: nat, m: Measure, i: nat): nat {
    if i < |s.deployments| && Occupying(s.deployments[i]) && s.deployments[i].serveNode == Some(n)
    then Size(m, s.deployments[i].resources) else 0
  }

  function CarriedTerm(s: State, n: nat, m: Measure): nat -> nat {
    (i: nat) => CarriedShare(s, n, m, i)
  }

  /** What node `n` carries of one resource, or how many deployments. */
  function Carried(s: State, n: nat, m: Measure): nat {
    Sum(|s.deployments|, CarriedTerm(s, n, m))
  }

  lemma AssignedIsCarried(s: State, n: nat, m: Measure)
    ensures AssignedUsage(s.deployments, n, m) == Carried(s, n, m)
  {
    SumEqual(|s.deployments|, AssignedTerm(s.deployments, n, m), CarriedTerm(s, n, m));
  }

  /** A node can take over from another if and only if it is another one, serves, and has all four for everything that one
      carries beside what it carries and expects itself. */
  lemma TargetExactly(s: State, n: nat, target: nat, now: int)
    ensures IsEligibleTarget(s, n, target, now) <==>
            && target != n && target < |s.nodes| && Serves(s.nodes[target], now)
            && Load(s, target, Cpu) + Carried(s, n, Cpu) <= s.nodes[target].capacity.cpu
            && Load(s, target, Memory) + Carried(s, n, Memory) <= s.nodes[target].capacity.memory
            && Load(s, target, Disk) + Carried(s, n, Disk) <= s.nodes[target].capacity.disk
            && Load(s, target, Slots) + Carried(s, n, Slots) <= s.nodes[target].capacity.maxDeployments
  {
    if target < |s.nodes| {
      CandidateLoads(s, target);
      CandidateCanHostMeans(CandidateFor(s, target), s.deployments, n);
      AssignedIsCarried(s, n, Cpu);
      AssignedIsCarried(s, n, Memory);
      AssignedIsCarried(s, n, Disk);
      AssignedIsCarried(s, n, Slots);
    }
  }
}
