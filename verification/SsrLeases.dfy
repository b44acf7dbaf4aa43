/** Leases of server-side rendering processes, charged in blocks of one hour
    (apps/control-api/src/domain/ssr_leases.rs). Times are microseconds. A lease operation commits its lease first and
    records its quota events in transactions of their own; between the two they are due. */
module SsrLeases {
  import opened Basics
  import opened Quotas

  const LEASE_TTL := 90_000_000
  const HOUR_BLOCK := 3_600_000_000

  datatype LeaseError = NotAssigned | ProcessQuota | HourQuota | LeaseNotFound | WrongNode

  datatype Lease = Lease(
    deployment: nat,
    team: nat,
    node: nat,
    startedAt: int,
    renewedAt: int,
    expiresAt: int,
    hourBlockStart: int,
    releasedAt: Option<int>)

  datatype State = State(leases: seq<Lease>, due: seq<Event>, ledger: Ledger)

  type Limits = map<(nat, Dimension), int>

  function UnixSecond(t: int): int { t / 1_000_000 }

  function WholeHours(t: int): int { t / 3_600_000_000 }

  predicate IsOpen(l: Lease) { l.releasedAt.None? }

  predicate OpenFor(l: Lease, deployment: nat, node: nat) {
    l.deployment == deployment && l.node == node && IsOpen(l)
  }

  predicate ExpiredFor(l: Lease, deployment: nat, node: nat, now: int) {
    OpenFor(l, deployment, node) && l.expiresAt <= now
  }

  predicate IsLive(l: Lease, now: int) {
    IsOpen(l) && l.expiresAt > now
  }

  /** Some lease below `k` with the property, as a query for one row returns it. */
  function Find(leases: seq<Lease>, k: nat, p: Lease -> bool): (found: Option<nat>)
    requires k <= |leases|
    ensures found.Some? ==> found.value < k && p(leases[found.value])
    ensures found.None? ==> forall i: nat :: i < k ==> !p(leases[i])
  {
    if k == 0 then None else if p(leases[k - 1]) then Some(k - 1) else Find(leases, k - 1, p)
  }

  function Count(leases: seq<Lease>, p: Lease -> bool): nat {
    if leases == [] then 0
    else Count(leases[..|leases| - 1], p) + if p(leases[|leases| - 1]) then 1 else 0
  }

  function LiveOf(team: nat, now: int): Lease -> bool {
    (l: Lease) => l.team == team && IsLive(l, now)
  }

  function OpenOf(team: nat): Lease -> bool {
    (l: Lease) => l.team == team && IsOpen(l)
  }

  // --- The four recorders -------------------------------------------------------------------

  function ProcessEvent(i: nat, l: Lease): Event {
    Event(l.team, SsrProcesses, Consume, 1, Some(i), Some(ProcessKey(i)), 0)
  }

  function ProcessReleaseEvent(i: nat, l: Lease): Event {
    Event(l.team, SsrProcesses, Release, -1, Some(i), Some(ProcessReleaseKey(i)), 0)
  }

  /** Charged in the month `window`. */
  function BlockEvent(i: nat, l: Lease, window: int): Event {
    Event(l.team, SsrHoursMonthly, Consume, 1, Some(i), Some(HourKey(i, UnixSecond(l.hourBlockStart))), window)
  }

  function BlockReleaseEvent(i: nat, l: Lease): Event {
    Event(l.team, SsrHoursMonthly, Release, -1, Some(i), Some(HourReleaseKey(i, UnixSecond(l.hourBlockStart))), 0)
  }

  // --- The operations -------------------------------------------------------------------------

  predicate AtLimit(limits: Limits, team: nat, d: Dimension, usage: int) {
    var limit := LimitFor(limits, team, d);
    limit.Some? && usage >= limit.value
  }

  function Released(l: Lease, now: int): Lease { l.(releasedAt := Some(now)) }

  function NewLease(deployment: nat, team: nat, node: nat, now: int): Lease {
    Lease(deployment, team, node, now, now, now + LEASE_TTL, now, None)
  }

  /** `served`: the deployment is a ready SSR deployment served by the node and not rejected. `team`: its team, unless
      that is deleted. `seenLive` and `seenHours`: the live leases and the hours of the team that the transaction counted
      without a lock. `now`, in the month `window`, is read before the transaction. */
  function Acquire(s: State, limits: Limits, deployment: nat, node: nat, served: bool, team: Option<nat>, seenLive: nat, seenHours: int, window: int, now: int)
    : Result<(State, nat), LeaseError>
  {
    if !served then Err(NotAssigned) else
    var expired := Find(s.leases, |s.leases|, l => ExpiredFor(l, deployment, node, now));
    var leases := if expired.Some? then s.leases[expired.value := Released(s.leases[expired.value], now)] else s.leases;
    var existing := Find(leases, |leases|, l => OpenFor(l, deployment, node));
    if existing.Some? then Ok((s.(leases := leases), existing.value))
    else if team.None? then Err(NotAssigned)
    else if AtLimit(limits, team.value, SsrProcesses, seenLive) then Err(ProcessQuota)
    else if AtLimit(limits, team.value, SsrHoursMonthly, seenHours) then Err(HourQuota)
    else
      var lease, i := NewLease(deployment, team.value, node, now), |leases|;
      var freed := if expired.Some? then [ProcessReleaseEvent(expired.value, s.leases[expired.value])] else [];
      Ok((State(leases + [lease], s.due + freed + [ProcessEvent(i, lease)] + [BlockEvent(i, lease, window)], s.ledger), i))
  }

  /** `team`: the team of the deployment, if both still exist; it is read only when a new block begins. */
  function Renew(s: State, limits: Limits, i: nat, deployment: nat, node: nat, team: Option<nat>, seenHours: int, window: int, now: int)
    : Result<State, LeaseError>
  {
    if i >= |s.leases| || s.leases[i].deployment != deployment then Err(LeaseNotFound) else
    var l := s.leases[i];
    if l.node != node then Err(WrongNode)
    else if l.releasedAt.Some? || l.expiresAt <= now then Err(LeaseNotFound)
    else if now >= l.hourBlockStart + HOUR_BLOCK then
      if team.None? then Err(LeaseNotFound)
      else if AtLimit(limits, team.value, SsrHoursMonthly, seenHours) then Err(HourQuota)
      else
        var renewed := l.(renewedAt := now, expiresAt := now + LEASE_TTL, hourBlockStart := l.hourBlockStart + HOUR_BLOCK);
        Ok(State(s.leases[i := renewed], s.due + [BlockEvent(i, renewed, window)], s.ledger))
    else Ok(s.(leases := s.leases[i := l.(renewedAt := now, expiresAt := now + LEASE_TTL)]))
  }

  function ReleaseLease(s: State, i: nat, deployment: nat, node: nat, now: int): Result<(State, bool), LeaseError> {
    if i >= |s.leases| || s.leases[i].deployment != deployment then Ok((s, false)) else
    var l := s.leases[i];
    if l.node != node then Err(WrongNode)
    else if l.releasedAt.Some? then Ok((s, false))
    else
      var refund := if now < l.hourBlockStart + HOUR_BLOCK then [BlockReleaseEvent(i, l)] else [];
      Ok((State(s.leases[i := Released(l, now)], s.due + [ProcessReleaseEvent(i, l)] + refund, s.ledger), true))
  }

  /** One due event is recorded, in the month `window`, by a transaction that read its counter as `read`. */
  function RecordDue(s: State, k: nat, read: Read, window: int): Result<State, RecordError>
    requires k < |s.due|
  {
    var ledger :- RecordOnce(s.ledger, s.due[k].(window := window), read);
    Ok(State(s.leases, Without(s.due, k), ledger))
  }

  /** The release of one listed lease by the sweep; an error is ignored. */
  function SweepOne(s: State, i: nat, l: Lease, now: int): (r: State)
    ensures |r.leases| == |s.leases|
  {
    if !IsStale(l, now) then s
    else
      var r := ReleaseLease(s, i, l.deployment, l.node, now);
      if r.Ok? then r.value.0 else s
  }

  /** The sweep over the first `k` leases when nothing else runs: the leases that had expired when it began are
      released in turn. */
  function ReleaseExpired(s: State, k: nat, now: int): (r: State)
    requires k <= |s.leases|
    ensures |r.leases| == |s.leases|
  {
    if k == 0 then s else SweepOne(ReleaseExpired(s, k - 1, now), k - 1, s.leases[k - 1], now)
  }

  predicate IsStale(l: Lease, now: int) {
    IsOpen(l) && l.expiresAt <= now
  }

  lemma {:induction false} SweepLeavesLater(s: State, k: nat, now: int, i: nat)
    requires k <= i < |s.leases|
    ensures ReleaseExpired(s, k, now).leases[i] == s.leases[i]
  {
    if k > 0 { SweepLeavesLater(s, k - 1, now, i); }
  }

  // --- The table, updated in place ----------------------------------------------------------------

  class LeaseTable {
    var leases: seq<Lease>
    /** What operations that have committed their lease still record. */
    var due: seq<Event>
    const ledger: LedgerTable

    ghost function Snapshot(): State
      reads this, ledger
    {
      State(leases, due, ledger.Contents())
    }

    constructor ()
      ensures Snapshot() == INITIAL && fresh(ledger)
    {
      leases, due := [], [];
      ledger := new LedgerTable();
    }

    method FindRow(p: Lease -> bool) returns (found: Option<nat>)
      ensures found == Find(leases, |leases|, p)
    {
      var k := |leases|;
      while k > 0
        invariant 0 <= k <= |leases|
        invariant Find(leases, k, p) == Find(leases, |leases|, p)
      {
        if p(leases[k - 1]) { return Some(k - 1); }
        k := k - 1;
      }
      found := None;
    }

    method CountRows(p: Lease -> bool) returns (n: nat)
      ensures n == Count(leases, p)
    {
      n := 0;
      for k := 0 to |leases|
        invariant n == Count(leases[..k], p)
      {
        assert leases[..k + 1][..k] == leases[..k];
        if p(leases[k]) { n := n + 1; }
      }
      assert leases[..|leases|] == leases;
    }

    /** The count of live leases, which takes no lock. */
    method CountLive(team: nat, now: int) returns (live: nat)
      ensures live == Count(leases, LiveOf(team, now))
    {
      live := CountRows(LiveOf(team, now));
    }

    /** The durable usage, which takes no lock. */
    method ReadUsage(c: CounterId) returns (used: int)
      ensures used == Used(ledger.Contents(), c)
    {
      var read := ledger.ReadRow(c);
      used := if read.NoRow? then 0 else read.used;
    }

    /** `seenLive` and `seenHours` are what `CountLive` and `ReadUsage` returned in this transaction; other
        transactions may have committed since. */
    method AcquireRow(limits: Limits, deployment: nat, node: nat, served: bool, team: Option<nat>, seenLive: nat, seenHours: int, window: int, now: int)
      returns (r: Result<nat, LeaseError>)
      modifies this
      ensures var spec := Acquire(old(Snapshot()), limits, deployment, node, served, team, seenLive, seenHours, window, now);
              if spec.Ok? then Snapshot() == spec.value.0 && r == Ok(spec.value.1)
              else Snapshot() == old(Snapshot()) && r == Err(spec.error)
    {
      if !served { return Err(NotAssigned); }
      var saved := leases;
      var expired := FindRow(l => ExpiredFor(l, deployment, node, now));
      if expired.Some? {
        leases := leases[expired.value := Released(leases[expired.value], now)];
      }
      var existing := FindRow(l => OpenFor(l, deployment, node));
      if existing.Some? { return Ok(existing.value); }
      if team.None? { leases := saved; return Err(NotAssigned); }
      var limit := LimitFor(limits, team.value, SsrProcesses);
      if limit.Some? && seenLive >= limit.value { leases := saved; return Err(ProcessQuota); }
      limit := LimitFor(limits, team.value, SsrHoursMonthly);
      if limit.Some? && seenHours >= limit.value { leases := saved; return Err(HourQuota); }
      var i := |leases|;
      var freed := if expired.Some? then [ProcessReleaseEvent(expired.value, saved[expired.value])] else [];
      InsertLease(Lease(deployment, team.value, node, now, now, now + LEASE_TTL, now, None), freed, window);
      r := Ok(i);
    }

    /** The new row, and the events of the lease it replaces and of its own. */
    method InsertLease(lease: Lease, freed: seq<Event>, window: int)
      modifies this`leases, this`due
      ensures leases == old(leases) + [lease]
      ensures due == old(due) + freed + [ProcessEvent(|old(leases)|, lease)] + [BlockEvent(|old(leases)|, lease, window)]
    {
      var i := |leases|;
      leases := leases + [lease];
      due := due + freed;
      due := due + [ProcessEvent(i, lease)];
      due := due + [BlockEvent(i, lease, window)];
    }

    method RenewRow(limits: Limits, i: nat, deployment: nat, node: nat, team: Option<nat>, seenHours: int, window: int, now: int)
      returns (r: Result<(), LeaseError>)
      modifies this
      ensures var spec := Renew(old(Snapshot()), limits, i, deployment, node, team, seenHours, window, now);
              if spec.Ok? then Snapshot() == spec.value && r.Ok?
              else Snapshot() == old(Snapshot()) && r == Err(spec.error)
    {
      if i >= |leases| || leases[i].deployment != deployment { return Err(LeaseNotFound); }
      var lease := leases[i];
      if lease.node != node { return Err(WrongNode); }
      if lease.releasedAt.Some? || lease.expiresAt <= now { return Err(LeaseNotFound); }
      var nextBlock: Option<int> := None;
      if now >= lease.hourBlockStart + HOUR_BLOCK {
        if team.None? { return Err(LeaseNotFound); }
        var limit := LimitFor(limits, team.value, SsrHoursMonthly);
        if limit.Some? && seenHours >= limit.value { return Err(HourQuota); }
        nextBlock := Some(lease.hourBlockStart + HOUR_BLOCK);
      }
      lease := lease.(renewedAt := now, expiresAt := now + LEASE_TTL);
      if nextBlock.Some? { lease := lease.(hourBlockStart := nextBlock.value); }
      leases := leases[i := lease];
      if nextBlock.Some? { due := due + [BlockEvent(i, lease, window)]; }
      r := Ok(());
    }

    method ReleaseRow(i: nat, deployment: nat, node: nat, now: int) returns (r: Result<bool, LeaseError>)
      modifies this
      ensures var spec := ReleaseLease(old(Snapshot()), i, deployment, node, now);
              if spec.Ok? then Snapshot() == spec.value.0 && r == Ok(spec.value.1)
              else Snapshot() == old(Snapshot()) && r == Err(spec.error)
    {
      if i >= |leases| || leases[i].deployment != deployment { return Ok(false); }
      var lease := leases[i];
      if lease.node != node { return Err(WrongNode); }
      if lease.releasedAt.Some? { return Ok(false); }
      leases := leases[i := lease.(releasedAt := Some(now))];
      due := due + [ProcessReleaseEvent(i, lease)];
      if now < lease.hourBlockStart + HOUR_BLOCK { due := due + [BlockReleaseEvent(i, lease)]; }
      r := Ok(true);
    }

    /** The transaction of one due event; after an error it stays due. */
    method RecordDueRow(k: nat, read: Read, window: int) returns (r: Result<bool, RecordError>)
      requires k < |due|
      modifies this`due, ledger
      ensures match RecordDue(old(Snapshot()), k, read, window)
              case Ok(s) => r.Ok? && Snapshot() == s
              case Err(error) => r == Err(error) && Snapshot() == old(Snapshot())
    {
      r := ledger.RecordOnceRow(due[k].(window := window), read);
      if r.Ok? { due := due[..k] + due[k + 1..]; }
    }

    /** When nothing else runs, every lease that had expired when the sweep began is released, and the sweep counts them. */
    method SweepExpired(now: int) returns (released: nat)
      modifies this
      ensures Snapshot() == ReleaseExpired(old(Snapshot()), |old(leases)|, now)
      ensures released == Count(old(leases), l => IsStale(l, now))
    {
      var listed := leases;
      ghost var before := Snapshot();
      ghost var stale := (l: Lease) => IsStale(l, now);
      released := 0;
      for k := 0 to |listed|
        invariant Snapshot() == ReleaseExpired(before, k, now)
        invariant released == Count(listed[..k], stale)
      {
        assert listed[..k + 1][..k] == listed[..k];
        var lease := listed[k];
        SweepLeavesLater(before, k, now, k);
        if lease.releasedAt.None? && lease.expiresAt <= now {
          var r := ReleaseRow(k, lease.deployment, lease.node, now);
          if r.Ok? { released := released + 1; }
        }
      }
      assert listed[..|listed|] == listed;
    }
  }

  // --- Runs ------------------------------------------------------------------------------------

  /** The transactions of lease operations, of any number of nodes. A sweep is a sequence of releases. `at` is the time
      of the commit. */
  datatype Op =
    | OAcquire(deployment: nat, node: nat, served: bool, team: Option<nat>, seenLive: nat, seenHours: int, window: int, now: int, at: int)
    | ORenew(lease: nat, deployment: nat, node: nat, team: Option<nat>, seenHours: int, window: int, now: int, at: int)
    | ORelease(lease: nat, deployment: nat, node: nat, now: int, at: int)
    | ORecord(entry: nat, read: Read, window: int, at: int)

  function Step(s: State, limits: Limits, op: Op): State {
    match op
    case OAcquire(d, n, ok, team, live, hours, window, now, _) =>
      var r := Acquire(s, limits, d, n, ok, team, live, hours, window, now); if r.Ok? then r.value.0 else s
    case ORenew(i, d, n, team, hours, window, now, _) =>
      var r := Renew(s, limits, i, d, n, team, hours, window, now); if r.Ok? then r.value else s
    case ORelease(i, d, n, now, _) =>
      var r := ReleaseLease(s, i, d, n, now); if r.Ok? then r.value.0 else s
    case ORecord(k, read, window, _) =>
      if k >= |s.due| then s else var r := RecordDue(s, k, read, window); if r.Ok? then r.value else s
  }

  const INITIAL := State([], [], EMPTY)

  function Run(limits: Limits, ops: seq<Op>): State {
    if ops == [] then INITIAL else Step(Run(limits, ops[..|ops| - 1]), limits, ops[|ops| - 1])
  }

  lemma RunPrefix(limits: Limits, ops: seq<Op>, k: nat)
    requires k < |ops|
    ensures Run(limits, ops[..k + 1]) == Step(Run(limits, ops[..k]), limits, ops[k])
  {
    assert ops[..k + 1][..k] == ops[..k];
  }

  lemma RunExtends(limits: Limits, ops: seq<Op>, op: Op)
    ensures Run(limits, ops + [op]) == Step(Run(limits, ops), limits, op)
  {
    assert (ops + [op])[..|ops|] == ops;
  }

  /** A sweep that runs alone is the run of the releases of the leases it listed. */
  function SweepOps(leases: seq<Lease>, k: nat, now: int, at: int): seq<Op>
    requires k <= |leases|
  {
    if k == 0 then []
    else if !IsStale(leases[k - 1], now) then SweepOps(leases, k - 1, now, at)
    else SweepOps(leases, k - 1, now, at) + [ORelease(k - 1, leases[k - 1].deployment, leases[k - 1].node, now, at)]
  }

  lemma {:induction false} SweepIsReleases(limits: Limits, ops: seq<Op>, s: State, k: nat, now: int, at: int)
    requires s == Run(limits, ops) && k <= |s.leases|
    ensures Run(limits, ops + SweepOps(s.leases, k, now, at)) == ReleaseExpired(s, k, now)
  {
    if k == 0 {
      SweepOfNone(limits, ops, s, now, at);
    } else {
      var before := ops + SweepOps(s.leases, k - 1, now, at);
      SweepIsReleases(limits, ops, s, k - 1, now, at);
      SweepNext(limits, ops, s, k, now, at, before);
    }
  }

  lemma SweepOfNone(limits: Limits, ops: seq<Op>, s: State, now: int, at: int)
    requires s == Run(limits, ops)
    ensures Run(limits, ops + SweepOps(s.leases, 0, now, at)) == ReleaseExpired(s, 0, now)
  {
    assert ops + SweepOps(s.leases, 0, now, at) == ops;
  }

  lemma ReleaseNext(s: State, k: nat, now: int)
    requires 0 < k <= |s.leases|
    ensures ReleaseExpired(s, k, now) == SweepOne(ReleaseExpired(s, k - 1, now), k - 1, s.leases[k - 1], now)
  {
  }

  lemma SweepNext(limits: Limits, ops: seq<Op>, s: State, k: nat, now: int, at: int, before: seq<Op>)
    requires 0 < k <= |s.leases| && before == ops + SweepOps(s.leases, k - 1, now, at)
    requires Run(limits, before) == ReleaseExpired(s, k - 1, now)
    ensures Run(limits, ops + SweepOps(s.leases, k, now, at)) == ReleaseExpired(s, k, now)
  {
    var l := s.leases[k - 1];
    SweepExtends(limits, before, ReleaseExpired(s, k - 1, now), k - 1, l, now, at);
    SweepOpsSnoc(ops, s.leases, k, now, at);
    ReleaseNext(s, k, now);
  }

  function SweepOp(i: nat, l: Lease, now: int, at: int): seq<Op> {
    if IsStale(l, now) then [ORelease(i, l.deployment, l.node, now, at)] else []
  }

  lemma SweepOpsSnoc(ops: seq<Op>, leases: seq<Lease>, k: nat, now: int, at: int)
    requires 0 < k <= |leases|
    ensures ops + SweepOps(leases, k, now, at) == (ops + SweepOps(leases, k - 1, now, at)) + SweepOp(k - 1, leases[k - 1], now, at)
  {
  }

  lemma SweepExtends(limits: Limits, before: seq<Op>, s: State, i: nat, l: Lease, now: int, at: int)
    requires Run(limits, before) == s
    ensures Run(limits, before + SweepOp(i, l, now, at)) == SweepOne(s, i, l, now)
  {
    if IsStale(l, now) {
      SweepOneIsRelease(s, limits, i, l, now, at);
      RunExtends(limits, before, ORelease(i, l.deployment, l.node, now, at));
    } else {
      assert before + [] == before;
    }
  }

  lemma SweepOneIsRelease(s: State, limits: Limits, i: nat, l: Lease, now: int, at: int)
    requires IsStale(l, now)
    ensures Step(s, limits, ORelease(i, l.deployment, l.node, now, at)) == SweepOne(s, i, l, now)
  {
  }
}
