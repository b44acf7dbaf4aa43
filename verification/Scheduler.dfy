/** Placement of a deployment on a Serve Node
    (apps/control-api/src/domain/scheduler.rs). */
module Scheduler {
  import opened Basics
  import opened Lifecycle

  const U64_MAX: nat := 0xFFFF_FFFF_FFFF_FFFF
  const I64_MAX: nat := 0x7FFF_FFFF_FFFF_FFFF
  const OVERFLOW_SLOTS: nat := 2

  /** Capacities are stored as non-negative 64-bit signed integers. */
  type StoredCapacity = x: nat | x <= I64_MAX

  datatype NodeResources = NodeResources(
    cpu: StoredCapacity, memory: StoredCapacity, disk: StoredCapacity, maxDeployments: StoredCapacity)

  datatype NodeUsage = NodeUsage(cpu: nat, memory: nat, disk: nat, deployments: nat)

  datatype Candidate = Candidate(nodeId: nat, region: string, capacity: NodeResources, usage: NodeUsage)

  datatype PlacementMode = Automatic | Manual

  datatype Placement = Placement(nodeId: nat, region: string, overcommitted: bool, mode: PlacementMode)

  datatype ScheduleError = NoCapacity | NoCapacityInRegion | SelectedNodeUnavailable | SelectedNodeCapacity

  function SaturatingAdd(a: nat, b: nat): nat {
    if a + b > U64_MAX then U64_MAX else a + b
  }

  /** `used / capacity`, infinite for a zero capacity. Rounding of the original's doubles is not modelled. */
  datatype Ratio = Finite(value: real) | Infinite

  function MakeRatio(used: nat, capacity: nat): Ratio {
    if capacity == 0 then Infinite else Finite(used as real / capacity as real)
  }

  predicate RatioAtMost(a: Ratio, b: Ratio) {
    b.Infinite? || (a.Finite? && a.value <= b.value)
  }

  function RatioMax(a: Ratio, b: Ratio): Ratio {
    if RatioAtMost(a, b) then b else a
  }

  datatype ProjectedUsage = ProjectedUsage(
    cpuRatio: Ratio, memoryRatio: Ratio, diskRatio: Ratio, deploymentRatio: Ratio, disk: nat, deployments: nat)
  {
    predicate AllAtMostOne() {
      && RatioAtMost(cpuRatio, Finite(1.0))
      && RatioAtMost(memoryRatio, Finite(1.0))
      && RatioAtMost(diskRatio, Finite(1.0))
      && RatioAtMost(deploymentRatio, Finite(1.0))
    }

    function DominantRatio(): Ratio {
      RatioMax(RatioMax(RatioMax(cpuRatio, memoryRatio), diskRatio), deploymentRatio)
    }
  }

  predicate HasPositiveCapacity(c: Candidate) {
    c.capacity.cpu > 0 && c.capacity.memory > 0 && c.capacity.disk > 0 && c.capacity.maxDeployments > 0
  }

  function Projected(c: Candidate, requested: ServeResources): ProjectedUsage {
    var cpu := SaturatingAdd(c.usage.cpu, requested.cpu);
    var memory := SaturatingAdd(c.usage.memory, requested.memory);
    var disk := SaturatingAdd(c.usage.disk, requested.disk);
    var deployments := SaturatingAdd(c.usage.deployments, 1);
    ProjectedUsage(
      MakeRatio(cpu, c.capacity.cpu),
      MakeRatio(memory, c.capacity.memory),
      MakeRatio(disk, c.capacity.disk),
      MakeRatio(deployments, c.capacity.maxDeployments),
      disk, deployments)
  }

  predicate Fits(c: Candidate, requested: ServeResources) {
    Projected(c, requested).AllAtMostOne()
  }

  predicate CanOverflow(c: Candidate, requested: ServeResources) {
    var projected := Projected(c, requested);
    projected.disk <= c.capacity.disk
    && projected.deployments <= SaturatingAdd(c.capacity.maxDeployments, OVERFLOW_SLOTS)
  }

  function Score(c: Candidate, requested: ServeResources): Ratio {
    Projected(c, requested).DominantRatio()
  }

  // --- Saturation and ratios against plain arithmetic ---------------------------

  lemma RatioAtMostOne(used: nat, capacity: nat)
    ensures RatioAtMost(MakeRatio(used, capacity), Finite(1.0)) <==> capacity > 0 && used <= capacity
  {
    if capacity > 0 {
      var u, c := used as real, capacity as real;
      assert u == (u / c) * c;
      if u / c <= 1.0 { assert u <= c; }
      if u <= c { assert u / c <= c / c; }
    }
  }

  /** Saturation never hides an overrun, because stored capacities stay below the saturation point. */
  lemma FitsMeans(c: Candidate, requested: ServeResources)
    requires HasPositiveCapacity(c)
    ensures Fits(c, requested) <==>
            && c.usage.cpu + requested.cpu <= c.capacity.cpu
            && c.usage.memory + requested.memory <= c.capacity.memory
            && c.usage.disk + requested.disk <= c.capacity.disk
            && c.usage.deployments + 1 <= c.capacity.maxDeployments
  {
    RatioAtMostOne(SaturatingAdd(c.usage.cpu, requested.cpu), c.capacity.cpu);
    RatioAtMostOne(SaturatingAdd(c.usage.memory, requested.memory), c.capacity.memory);
    RatioAtMostOne(SaturatingAdd(c.usage.disk, requested.disk), c.capacity.disk);
    RatioAtMostOne(SaturatingAdd(c.usage.deployments, 1), c.capacity.maxDeployments);
  }

  lemma OverflowMeans(c: Candidate, requested: ServeResources)
    ensures CanOverflow(c, requested) <==>
            && c.usage.disk + requested.disk <= c.capacity.disk
            && c.usage.deployments + 1 <= c.capacity.maxDeployments + OVERFLOW_SLOTS
  {
  }

  lemma FittingCanOverflow(c: Candidate, requested: ServeResources)
    requires HasPositiveCapacity(c) && Fits(c, requested)
    ensures CanOverflow(c, requested)
  {
    FitsMeans(c, requested);
    OverflowMeans(c, requested);
  }

  // --- Choice ---------------------------------------------------------------------

  predicate Lowest(c: Candidate, among: seq<Candidate>, requested: ServeResources) {
    forall other :: other in among ==> RatioAtMost(Score(c, requested), Score(other, requested))
  }

  /** The result the random tie break may return: any candidate of minimal score. */
  method ChooseLowestRandom(candidates: seq<Candidate>, requested: ServeResources, random: nat)
    returns (chosen: Option<Candidate>)
    ensures chosen.None? <==> candidates == []
    ensures chosen.Some? ==> chosen.value in candidates && Lowest(chosen.value, candidates, requested)
    ensures forall c :: c in candidates && Lowest(c, candidates, requested) && chosen.Some?
                        ==> Score(c, requested) == Score(chosen.value, requested)
  {
    var minimum: Option<Ratio> := None;
    var tied: seq<Candidate> := [];
    for i := 0 to |candidates|
      invariant minimum.None? <==> i == 0
      invariant minimum.None? <==> tied == []
      invariant forall c :: c in tied ==> c in candidates[..i] && Score(c, requested) == minimum.value
      invariant minimum.Some? ==> forall c :: c in candidates[..i] ==> RatioAtMost(minimum.value, Score(c, requested))
    {
      var candidate := candidates[i];
      var score := Score(candidate, requested);
      assert candidates[..i + 1] == candidates[..i] + [candidate];
      if minimum.None? || !RatioAtMost(minimum.value, score) {
        minimum := Some(score);
        tied := [candidate];
      } else if score == minimum.value {
        tied := tied + [candidate];
      }
    }
    assert candidates[..|candidates|] == candidates;
    chosen := if tied == [] then None else Some(tied[random % |tied|]);
  }

  function Eligible(candidates: seq<Candidate>): seq<Candidate> {
    Filter(candidates, c => HasPositiveCapacity(c))
  }

  /** A candidate of positive capacity that the automatic placement may pick: the lowest one that fits,
      or, when none fits, the lowest one that still has an overflow slot. */
  predicate AutomaticChoice(c: Candidate, candidates: seq<Candidate>, requested: ServeResources) {
    var fitting := Filter(Eligible(candidates), x => Fits(x, requested));
    var overflowing := Filter(Eligible(candidates), x => CanOverflow(x, requested));
    if fitting != [] then c in fitting && Lowest(c, fitting, requested)
    else c in overflowing && Lowest(c, overflowing, requested)
  }

  predicate ManualChoice(c: Candidate, candidates: seq<Candidate>, requested: ServeResources) {
    c in candidates && HasPositiveCapacity(c) && CanOverflow(c, requested)
  }

  /** The relation between the candidates and any placement `choose_candidate_in_region` may return. */
  predicate IsPlacement(p: Placement, candidates: seq<Candidate>, requested: ServeResources,
                        region: Option<string>, selected: Option<nat>)
  {
    var local := InRegion(candidates, region);
    exists c :: c in local && p == Placement(c.nodeId, c.region, !Fits(c, requested), if selected.Some? then Manual else Automatic)
      && (if selected.Some? then c.nodeId == selected.value && ManualChoice(c, local, requested)
          else AutomaticChoice(c, local, requested))
  }

  function InRegion(candidates: seq<Candidate>, region: Option<string>): seq<Candidate> {
    if region.None? then candidates else Filter(candidates, IsIn(region.value))
  }

  function IsIn(region: string): Candidate -> bool {
    (c: Candidate) => c.region == region
  }

  predicate IsSelected(c: Candidate, selected: nat) {
    c.nodeId == selected && HasPositiveCapacity(c)
  }

  /** Candidate `i` is the first one of positive capacity with the selected id. */
  predicate FirstSelected(candidates: seq<Candidate>, selected: nat, i: nat) {
    i < |candidates| && IsSelected(candidates[i], selected) && forall k :: 0 <= k < i ==> !IsSelected(candidates[k], selected)
  }

  predicate DistinctIds(candidates: seq<Candidate>) {
    forall a, b :: 0 <= a < b < |candidates| ==> candidates[a].nodeId != candidates[b].nodeId
  }

  method ChooseCandidate(candidates: seq<Candidate>, requested: ServeResources, selected: Option<nat>, random: nat)
    returns (r: Result<Placement, ScheduleError>)
    ensures r.Ok? ==> IsPlacement(r.value, candidates, requested, None, selected)
    ensures selected.None? ==>
              (r.Err? <==> forall c :: c in candidates && HasPositiveCapacity(c) ==> !CanOverflow(c, requested))
    ensures selected.Some? ==>
              (r == Err(SelectedNodeUnavailable) <==>
               forall c :: c in candidates && HasPositiveCapacity(c) ==> c.nodeId != selected.value)
    ensures r == Err(SelectedNodeCapacity) <==>
              selected.Some? && exists i: nat :: FirstSelected(candidates, selected.value, i) && !CanOverflow(candidates[i], requested)
    ensures DistinctIds(candidates) ==>
              (r == Err(SelectedNodeCapacity) <==>
               selected.Some? && exists c :: c in candidates && IsSelected(c, selected.value) && !CanOverflow(c, requested))
    ensures r.Err? ==> r.error == if selected.None? then NoCapacity else if r.error.SelectedNodeUnavailable? then r.error else SelectedNodeCapacity
  {
    if selected.Some? {
      var i := 0;
      while i < |candidates| && !(candidates[i].nodeId == selected.value && HasPositiveCapacity(candidates[i]))
        invariant i <= |candidates|
        invariant forall k :: 0 <= k < i ==> !IsSelected(candidates[k], selected.value)
      {
        i := i + 1;
      }
      if i == |candidates| { return Err(SelectedNodeUnavailable); }
      assert FirstSelected(candidates, selected.value, i);
      var candidate := candidates[i];
      if !CanOverflow(candidate, requested) { return Err(SelectedNodeCapacity); }
      return Ok(Placement(candidate.nodeId, candidate.region, !Fits(candidate, requested), Manual));
    }
    forall c | c in candidates && HasPositiveCapacity(c) && Fits(c, requested) ensures CanOverflow(c, requested) {
      FittingCanOverflow(c, requested);
    }
    var fitting := Filter(Eligible(candidates), x => Fits(x, requested));
    var overflowing := Filter(Eligible(candidates), x => CanOverflow(x, requested));
    var best := ChooseLowestRandom(fitting, requested, random);
    if best.Some? {
      return Ok(Placement(best.value.nodeId, best.value.region, false, Automatic));
    }
    best := ChooseLowestRandom(overflowing, requested, random);
    if best.None? { return Err(NoCapacity); }
    assert best.value !in fitting;
    r := Ok(Placement(best.value.nodeId, best.value.region, true, Automatic));
  }

  method ChooseCandidateInRegion(candidates: seq<Candidate>, requested: ServeResources,
                                 region: Option<string>, selected: Option<nat>, random: nat)
    returns (r: Result<Placement, ScheduleError>)
    ensures r.Ok? ==> IsPlacement(r.value, candidates, requested, region, selected)
    ensures r.Ok? && region.Some? ==> r.value.region == region.value
    ensures r == Err(NoCapacityInRegion) <==> region.Some? && forall c :: c in candidates ==> c.region != region.value
    ensures selected.None? ==>
              (r.Err? <==> forall c :: c in InRegion(candidates, region) && HasPositiveCapacity(c) ==> !CanOverflow(c, requested))
    ensures r == Err(SelectedNodeCapacity) <==>
              && selected.Some?
              && exists i: nat :: FirstSelected(InRegion(candidates, region), selected.value, i)
                                  && !CanOverflow(InRegion(candidates, region)[i], requested)
  {
    var local := InRegion(candidates, region);
    assert region.Some? ==> forall c :: c in candidates && c.region == region.value ==> c in local;
    if region.Some? && local == [] { return Err(NoCapacityInRegion); }
    assert region.Some? ==> local[0] in candidates && local[0].region == region.value by { assert region.Some? ==> local[0] in local; }
    r := ChooseCandidate(local, requested, selected, random);
  }

  /** Whatever the choice, the chosen node keeps its disk capacity and at most two slots over its limit. */
  lemma PlacementRespectsCapacity(p: Placement, candidates: seq<Candidate>, requested: ServeResources,
                                  region: Option<string>, selected: Option<nat>)
    requires IsPlacement(p, candidates, requested, region, selected)
    ensures exists c :: && c in candidates && c.nodeId == p.nodeId && c.region == p.region
                        && c.usage.disk + requested.disk <= c.capacity.disk
                        && c.usage.deployments + 1 <= c.capacity.maxDeployments + OVERFLOW_SLOTS
                        && (!p.overcommitted ==>
                              && c.usage.cpu + requested.cpu <= c.capacity.cpu
                              && c.usage.memory + requested.memory <= c.capacity.memory
                              && c.usage.deployments + 1 <= c.capacity.maxDeployments)
  {
    var local := InRegion(candidates, region);
    var c :| c in local && p == Placement(c.nodeId, c.region, !Fits(c, requested), if selected.Some? then Manual else Automatic)
      && (if selected.Some? then c.nodeId == selected.value && ManualChoice(c, local, requested)
          else AutomaticChoice(c, local, requested));
    assert c in candidates && HasPositiveCapacity(c);
    FitsMeans(c, requested);
    if selected.None? && Fits(c, requested) { FittingCanOverflow(c, requested); }
    OverflowMeans(c, requested);
  }
}
