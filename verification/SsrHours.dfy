/** What each lease operation answers and does, and exactly which runs keep a team within its hours of a month. */
module SsrHours {
  import opened Basics
  import opened Quotas
  import opened SsrLeases
  import opened SsrLeaseRuns

  // --- Answers ------------------------------------------------------------------------------------

  /** The plan names a positive number of processes (or hours of the month), and that many are in use. */
  predicate UsedUp(limits: Limits, team: nat, d: Dimension, usage: int) {
    (team, d) in limits && limits[(team, d)] > 0 && usage >= limits[(team, d)]
  }

  lemma UsedUpMeans(limits: Limits, team: nat, d: Dimension, usage: int)
    requires d.SsrProcesses? || d.SsrHoursMonthly?
    ensures AtLimit(limits, team, d, usage) <==> UsedUp(limits, team, d, usage)
  {
  }

  /** Lease `i` exists and is of this deployment. */
  predicate Known(s: State, i: nat, deployment: nat) {
    i < |s.leases| && s.leases[i].deployment == deployment
  }

  /** The lease runs at `now`: it is not released and its 90 seconds are not over. */
  predicate Runs(l: Lease, now: int) {
    l.releasedAt.None? && now < l.renewedAt + 90_000_000
  }

  predicate BlockOver(l: Lease, now: int) { now >= l.hourBlockStart + 3_600_000_000 }

  /** A renewal succeeds if and only if the lease is the caller's and runs, and, when its block is over, its team exists and has
      hours left by the count that was read; each error has its one cause. */
  lemma RenewAnswers(s: State, limits: Limits, i: nat, deployment: nat, node: nat, team: Option<nat>, seenHours: int, window: int, now: int)
    requires LeaseInvariant(s)
    ensures var r := Renew(s, limits, i, deployment, node, team, seenHours, window, now);
            if !Known(s, i, deployment) then r == Err(LeaseNotFound)
            else var l := s.leases[i];
                 if l.node != node then r == Err(WrongNode)
                 else if !Runs(l, now) || (BlockOver(l, now) && team.None?) then r == Err(LeaseNotFound)
                 else if BlockOver(l, now) && UsedUp(limits, team.value, SsrHoursMonthly, seenHours) then r == Err(HourQuota)
                 else r.Ok?
  {
    if i < |s.leases| { assert RowSound(s.leases[i]); }
    if team.Some? { UsedUpMeans(limits, team.value, SsrHoursMonthly, seenHours); }
  }

  /** Then the lease runs 90 seconds from `now`; when its block was over it is one block further and one hour of it falls due. */
  lemma RenewEffect(s: State, limits: Limits, i: nat, deployment: nat, node: nat, team: Option<nat>, seenHours: int, window: int, now: int, s': State)
    requires LeaseInvariant(s) && Renew(s, limits, i, deployment, node, team, seenHours, window, now) == Ok(s')
    ensures |s'.leases| == |s.leases| && s'.ledger == s.ledger
    ensures forall k: nat :: k < |s.leases| && k != i ==> s'.leases[k] == s.leases[k]
    ensures var l, l' := s.leases[i], s'.leases[i];
            && Runs(l', now) && l'.renewedAt == now && l'.releasedAt == l.releasedAt && l'.startedAt == l.startedAt
            && l'.deployment == l.deployment && l'.team == l.team && l'.node == l.node
            && (if BlockOver(l, now) then l'.hourBlockStart - l.hourBlockStart == 3_600_000_000 && Charged(s', i) == Charged(s, i) + 1
                else l'.hourBlockStart == l.hourBlockStart && s'.due == s.due)
  {
    var l' := s'.leases[i];
    assert RowSound(s.leases[i]);
    if BlockOver(s.leases[i], now) { SumSnoc(s.due, BlockEvent(i, l', window), HourOf(i)); }
  }

  /** The place has a lease that runs. */
  predicate Held(s: State, deployment: nat, node: nat, now: int) {
    exists k: nat :: k < |s.leases| && s.leases[k].deployment == deployment && s.leases[k].node == node && Runs(s.leases[k], now)
  }

  /** An acquisition succeeds if and only if the deployment is served there and its place has a running lease already, or
      its team exists and has processes and hours left by the counts that were read; each error has its one cause. */
  lemma AcquireAnswers(s: State, limits: Limits, op: Op)
    requires LeaseInvariant(s) && op.OAcquire?
    ensures var r := Acquire(s, limits, op.deployment, op.node, op.served, op.team, op.seenLive, op.seenHours, op.window, op.now);
            if !op.served then r == Err(NotAssigned)
            else if Held(s, op.deployment, op.node, op.now) then r.Ok? && r.value.0 == s && r.value.1 < |s.leases|
            else if op.team.None? then r == Err(NotAssigned)
            else if UsedUp(limits, op.team.value, SsrProcesses, op.seenLive) then r == Err(ProcessQuota)
            else if UsedUp(limits, op.team.value, SsrHoursMonthly, op.seenHours) then r == Err(HourQuota)
            else r.Ok? && r.value.1 == |s.leases|
  {
    var r := Acquire(s, limits, op.deployment, op.node, op.served, op.team, op.seenLive, op.seenHours, op.window, op.now);
    if op.team.Some? {
      UsedUpMeans(limits, op.team.value, SsrProcesses, op.seenLive);
      UsedUpMeans(limits, op.team.value, SsrHoursMonthly, op.seenHours);
    }
    HeldMeansExisting(s, op.deployment, op.node, op.now);
    if r.Ok? { AcquireShape(s, limits, op); }
  }

  /** A running lease of the place is what the query for an existing one finds after the expired one is released. */
  lemma HeldMeansExisting(s: State, deployment: nat, node: nat, now: int)
    requires LeaseInvariant(s)
    ensures var expired := Find(s.leases, |s.leases|, l => ExpiredFor(l, deployment, node, now));
            var leases := if expired.Some? then s.leases[expired.value := Released(s.leases[expired.value], now)] else s.leases;
            && Find(leases, |leases|, l => OpenFor(l, deployment, node)).Some? == Held(s, deployment, node, now)
            && (Held(s, deployment, node, now) ==> expired.None?)
  {
    forall k: nat | k < |s.leases| ensures s.leases[k].expiresAt == s.leases[k].renewedAt + 90_000_000 { assert RowSound(s.leases[k]); }
    var expired := Find(s.leases, |s.leases|, l => ExpiredFor(l, deployment, node, now));
    var leases := if expired.Some? then s.leases[expired.value := Released(s.leases[expired.value], now)] else s.leases;
    var existing := Find(leases, |leases|, l => OpenFor(l, deployment, node));
    if expired.Some? { assert IsOpen(s.leases[expired.value]); }
    if existing.Some? {
      assert leases[existing.value] == s.leases[existing.value];
      assert !ExpiredFor(s.leases[existing.value], deployment, node, now);
    }
  }

  lemma NewLeaseCharges(s: State, limits: Limits, op: Op, s': State)
    requires LeaseInvariant(s) && Opens(s, limits, op) && s' == Step(s, limits, op)
    ensures |s'.leases| == |s.leases| + 1 && Charged(s', |s.leases|) == 1
  {
    AcquireShape(s, limits, op);
    var freed := Freed(s, op.deployment, op.node, op.now);
    FreedKeeps(s, op.deployment, op.node, op.now);
    OpenCharges(freed, NewLease(op.deployment, op.team.value, op.node, op.now), op.window);
    NothingChargedYet(freed);
  }

  lemma OtherLeasesStay(s: State, limits: Limits, op: Op, s': State)
    requires LeaseInvariant(s) && Opens(s, limits, op) && s' == Step(s, limits, op)
    ensures |s'.leases| == |s.leases| + 1
    ensures forall k: nat :: k < |s.leases| ==>
              if s.leases[k].deployment == op.deployment && s.leases[k].node == op.node && s.leases[k].releasedAt.None?
              then s'.leases[k] == s.leases[k].(releasedAt := Some(op.now)) else s'.leases[k] == s.leases[k]
  {
    AcquireShape(s, limits, op);
    FreedKeeps(s, op.deployment, op.node, op.now);
    FreedRows(s, op.deployment, op.node, op.now);
  }

  /** A new lease is the last row: of the place and the team that asked, started, renewed and in its first block now; what it
      replaces at its place is released, every other lease stays, and one hour is charged. */
  lemma AcquireEffect(s: State, limits: Limits, op: Op, s': State)
    requires LeaseInvariant(s) && Opens(s, limits, op) && s' == Step(s, limits, op)
    ensures op.team.Some? && |s'.leases| == |s.leases| + 1 && s'.ledger == s.ledger
    ensures var l := s'.leases[|s.leases|];
            && l.deployment == op.deployment && l.node == op.node && l.team == op.team.value && Runs(l, op.now)
            && l.startedAt == l.renewedAt == l.hourBlockStart == op.now
    ensures forall k: nat :: k < |s.leases| ==>
              if s.leases[k].deployment == op.deployment && s.leases[k].node == op.node && s.leases[k].releasedAt.None?
              then s'.leases[k] == s.leases[k].(releasedAt := Some(op.now)) else s'.leases[k] == s.leases[k]
    ensures Charged(s', |s.leases|) == 1
  {
    AcquireShape(s, limits, op);
    NewLeaseCharges(s, limits, op, s');
    OtherLeasesStay(s, limits, op, s');
  }

  lemma FreedRows(s: State, deployment: nat, node: nat, now: int)
    requires OneOpenPerPlace(s.leases)
    requires forall k: nat :: k < |s.leases| && |Freed(s, deployment, node, now).leases| == |s.leases| ==>
               !OpenFor(Freed(s, deployment, node, now).leases[k], deployment, node)
    ensures |Freed(s, deployment, node, now).leases| == |s.leases|
    ensures forall k: nat :: k < |s.leases| ==>
              Freed(s, deployment, node, now).leases[k] ==
              if OpenFor(s.leases[k], deployment, node) then s.leases[k].(releasedAt := Some(now)) else s.leases[k]
  {
    var expired := Find(s.leases, |s.leases|, l => ExpiredFor(l, deployment, node, now));
    if expired.Some? { assert IsOpen(s.leases[expired.value]); }
  }

  /** Recording takes one event off what is due and puts it, in the month it is recorded in, into the ledger; or it fails and
      leaves it due. No lease changes. */
  lemma RecordingMoves(s: State, k: nat, read: Read, window: int)
    requires k < |s.due|
    ensures var r, recorded := RecordDue(s, k, read, window), RecordOnce(s.ledger, s.due[k].(window := window), read);
            && (r.Ok? <==> recorded.Ok?)
            && (r.Ok? ==> r.value == State(s.leases, s.due[..k] + s.due[k + 1..], recorded.value))
            && (r.Err? ==> r.error == recorded.error)
  {
  }

  /** A release answers whether it released the lease; it refuses only another node's lease. */
  lemma ReleaseAnswers(s: State, i: nat, deployment: nat, node: nat, now: int)
    ensures var r := ReleaseLease(s, i, deployment, node, now);
            if !Known(s, i, deployment) then r == Ok((s, false))
            else if s.leases[i].node != node then r == Err(WrongNode)
            else if s.leases[i].releasedAt.Some? then r == Ok((s, false))
            else r.Ok? && r.value.1 && r.value.0.leases == s.leases[i := s.leases[i].(releasedAt := Some(now))] && r.value.0.ledger == s.ledger
  {
  }

  // --- The hours of a month -----------------------------------------------------------------------

  function HourCounter(team: nat, month: int): CounterId { CounterId(team, SsrHoursMonthly, Some(month)) }

  /** An hour of a team that was begun in this month. */
  function BegunIn(team: nat, month: int): Event -> int {
    (e: Event) => if e.dimension.SsrHoursMonthly? && e.kind.Consume? && e.team == team && e.window == month then e.delta else 0
  }

  /** The hours a team is charged in a month: what is recorded there, net of refunds, and the hours begun then that are
      still to be recorded. */
  function Hours(s: State, team: nat, month: int): int {
    SumBy(s.ledger.events, DeltaOf(HourCounter(team, month))) + SumBy(s.due, BegunIn(team, month))
  }

  predicate MonthWithin(s: State, limits: Limits, team: nat, month: int) {
    (team, SsrHoursMonthly) in limits && limits[(team, SsrHoursMonthly)] > 0 ==> Hours(s, team, month) <= limits[(team, SsrHoursMonthly)]
  }

  ghost predicate HoursWithin(s: State, limits: Limits) {
    forall team: nat, month: int :: MonthWithin(s, limits, team, month)
  }

  predicate MonthFull(s: State, limits: Limits, team: nat, month: int) {
    UsedUp(limits, team, SsrHoursMonthly, Hours(s, team, month))
  }

  /** A renewal begins another block. */
  predicate BeginsBlock(s: State, limits: Limits, op: Op) {
    && op.ORenew? && Renew(s, limits, op.lease, op.deployment, op.node, op.team, op.seenHours, op.window, op.now).Ok?
    && BlockOver(s.leases[op.lease], op.now)
  }

  /** An hour is recorded in another month than the one it was begun in. */
  predicate RecordsElsewhere(s: State, op: Op) {
    && op.ORecord? && op.entry < |s.due| && RecordDue(s, op.entry, op.read, op.window).Ok?
    && s.due[op.entry].dimension.SsrHoursMonthly? && s.due[op.entry].kind.Consume? && s.due[op.entry].window != op.window
  }

  /** The team and the month that the operation charges another hour. */
  function ChargesMonth(s: State, limits: Limits, op: Op): Option<(nat, int)> {
    if Opens(s, limits, op) && op.team.Some? then Some((op.team.value, op.window))
    else if BeginsBlock(s, limits, op) then Some((s.leases[op.lease].team, op.window))
    else if RecordsElsewhere(s, op) then Some((s.due[op.entry].team, op.window))
    else None
  }

  /** An acquisition or renewal begins an hour for a team whose month is full, or an hour of another month is recorded
      there. */
  predicate OverchargesMonth(s: State, limits: Limits, op: Op) {
    var charged := ChargesMonth(s, limits, op);
    charged.Some? && MonthFull(s, limits, charged.value.0, charged.value.1)
  }

  lemma DueAddsHours(s: State, leases: seq<Lease>, e: Event, team: nat, month: int)
    ensures Hours(Due(s, leases, e), team, month) == Hours(s, team, month) + BegunIn(team, month)(e)
  {
    SumSnoc(s.due, e, BegunIn(team, month));
  }

  lemma OpenAddsHour(s: State, limits: Limits, op: Op, team: nat, month: int)
    requires LeaseInvariant(s) && Opens(s, limits, op)
    ensures op.team.Some?
    ensures Hours(Step(s, limits, op), team, month) == Hours(s, team, month) + if op.team.value == team && op.window == month then 1 else 0
  {
    AcquireShape(s, limits, op);
    var freed, l := Freed(s, op.deployment, op.node, op.now), NewLease(op.deployment, op.team.value, op.node, op.now);
    var expired := Find(s.leases, |s.leases|, l => ExpiredFor(l, op.deployment, op.node, op.now));
    if expired.Some? {
      DueAddsHours(s, freed.leases, ProcessReleaseEvent(expired.value, s.leases[expired.value]), team, month);
    }
    var leases, i := freed.leases + [l], |freed.leases|;
    DueAddsHours(freed, leases, ProcessEvent(i, l), team, month);
    DueAddsHours(Due(freed, leases, ProcessEvent(i, l)), leases, BlockEvent(i, l, op.window), team, month);
  }

  lemma RenewAddsHour(s: State, limits: Limits, op: Op, team: nat, month: int)
    requires LeaseInvariant(s) && op.ORenew?
    ensures Hours(Step(s, limits, op), team, month) == Hours(s, team, month)
              + if BeginsBlock(s, limits, op) && s.leases[op.lease].team == team && op.window == month then 1 else 0
  {
    var r := Renew(s, limits, op.lease, op.deployment, op.node, op.team, op.seenHours, op.window, op.now);
    if BeginsBlock(s, limits, op) { DueAddsHours(s, r.value.leases, BlockEvent(op.lease, r.value.leases[op.lease], op.window), team, month); }
  }

  lemma ReleaseKeepsHours(s: State, limits: Limits, op: Op, team: nat, month: int)
    requires op.ORelease?
    ensures Hours(Step(s, limits, op), team, month) == Hours(s, team, month)
  {
    var r := ReleaseLease(s, op.lease, op.deployment, op.node, op.now);
    if r.Ok? && r.value.1 {
      var l, retired := s.leases[op.lease], Retire(s, op.lease, op.now);
      DueAddsHours(s, retired.leases, ProcessReleaseEvent(op.lease, l), team, month);
      DueAddsHours(retired, retired.leases, BlockReleaseEvent(op.lease, l), team, month);
      assert retired.due + [] == retired.due;
    }
  }

  /** Only lease events are due, and each is one hour or one process, begun or given back. */
  predicate OneUnit(e: Event) {
    (e.kind.Consume? && e.delta == 1) || (e.kind.Release? && e.delta == -1)
  }

  ghost predicate DueUnits(s: State) {
    forall e :: e in s.due ==> OneUnit(e)
  }

  lemma StepKeepsUnits(s: State, limits: Limits, op: Op)
    requires LeaseInvariant(s) && DueUnits(s)
    ensures DueUnits(Step(s, limits, op))
  {
    if op.OAcquire? {
      if Acquire(s, limits, op.deployment, op.node, op.served, op.team, op.seenLive, op.seenHours, op.window, op.now).Ok? { AcquireShape(s, limits, op); }
    } else if op.ORelease? {
      var r := ReleaseLease(s, op.lease, op.deployment, op.node, op.now);
    } else if op.ORecord? && op.entry < |s.due| {
      var r := RecordDue(s, op.entry, op.read, op.window);
      if r.Ok? {
        forall e | e in r.value.due ensures e in s.due { WithoutIn(s.due, op.entry, e); }
      }
    }
  }

  lemma {:induction false} RunKeepsUnits(limits: Limits, ops: seq<Op>)
    ensures DueUnits(Run(limits, ops))
  {
    if ops != [] {
      RunKeepsUnits(limits, ops[..|ops| - 1]);
      RunKeeps(limits, ops[..|ops| - 1]);
      StepKeepsUnits(Run(limits, ops[..|ops| - 1]), limits, ops[|ops| - 1]);
    }
  }

  lemma RecordMovesHours(s: State, k: nat, read: Read, window: int, s': State, team: nat, month: int)
    requires EventsSound(s, s.leases) && DueDistinct(s) && DueUnits(s) && k < |s.due| && RecordDue(s, k, read, window) == Ok(s')
    ensures var e := s.due[k];
            var hour := e.dimension.SsrHoursMonthly? && e.team == team;
            Hours(s', team, month) == Hours(s, team, month)
              + (if hour && window == month then e.delta else 0) - (if hour && e.kind.Consume? && e.window == month then 1 else 0)
  {
    var e := s.due[k];
    assert e in s.due;
    RecordMoves(s, k, read, window, s');
    SumSnoc(s.ledger.events, e.(window := window), DeltaOf(HourCounter(team, month)));
    SumWithout(s.due, k, BegunIn(team, month));
  }

  lemma MonthDecides(s: State, limits: Limits, op: Op, team: nat, month: int)
    requires LeaseInvariant(s) && DueUnits(s) && MonthWithin(s, limits, team, month)
    ensures MonthWithin(Step(s, limits, op), limits, team, month) <==>
            !(ChargesMonth(s, limits, op) == Some((team, month)) && MonthFull(s, limits, team, month))
  {
    if op.OAcquire? {
      if Opens(s, limits, op) { OpenAddsHour(s, limits, op, team, month); } else { UnopenedIsUnchanged(s, limits, op); }
    } else if op.ORenew? {
      RenewAddsHour(s, limits, op, team, month);
    } else if op.ORelease? {
      ReleaseKeepsHours(s, limits, op, team, month);
    } else if op.entry < |s.due| {
      var r := RecordDue(s, op.entry, op.read, op.window);
      if r.Ok? {
        assert s.due[op.entry] in s.due;
        RecordMovesHours(s, op.entry, op.read, op.window, r.value, team, month);
      }
    }
  }

  lemma UnopenedIsUnchanged(s: State, limits: Limits, op: Op)
    requires LeaseInvariant(s) && op.OAcquire? && !Opens(s, limits, op)
    ensures Step(s, limits, op) == s
  {
    if Acquire(s, limits, op.deployment, op.node, op.served, op.team, op.seenLive, op.seenHours, op.window, op.now).Ok? { AcquireShape(s, limits, op); }
  }

  /** One transaction keeps every team within its hours if and only if it charges no full month. */
  lemma StepDecidesHours(s: State, limits: Limits, op: Op)
    requires LeaseInvariant(s) && DueUnits(s) && HoursWithin(s, limits)
    ensures HoursWithin(Step(s, limits, op), limits) <==> !OverchargesMonth(s, limits, op)
  {
    forall team: nat, month: int
      ensures MonthWithin(Step(s, limits, op), limits, team, month) <==>
              !(ChargesMonth(s, limits, op) == Some((team, month)) && MonthFull(s, limits, team, month))
    {
      assert MonthWithin(s, limits, team, month);
      MonthDecides(s, limits, op, team, month);
    }
    if OverchargesMonth(s, limits, op) {
      var charged := ChargesMonth(s, limits, op).value;
      assert !MonthWithin(Step(s, limits, op), limits, charged.0, charged.1);
    }
  }

  ghost predicate NeverOvercharges(limits: Limits, ops: seq<Op>) {
    forall k: nat :: k < |ops| ==> !OverchargesMonth(Run(limits, ops[..k]), limits, ops[k])
  }

  /** Every team is within its hours of every month, in every state of a run, if and only if no acquisition or renewal begins an
      hour for a team whose month is full by then, and no hour of another month is recorded in a full one. */
  lemma HourLimitExactly(limits: Limits, ops: seq<Op>)
    ensures (forall k: nat :: k <= |ops| ==> HoursWithin(Run(limits, ops[..k]), limits)) <==> NeverOvercharges(limits, ops)
  {
    if forall k: nat :: k <= |ops| ==> HoursWithin(Run(limits, ops[..k]), limits) {
      forall k: nat | k < |ops| ensures !OverchargesMonth(Run(limits, ops[..k]), limits, ops[k]) {
        RunPrefix(limits, ops, k);
        RunKeeps(limits, ops[..k]);
        RunKeepsUnits(limits, ops[..k]);
        assert HoursWithin(Run(limits, ops[..k]), limits) && HoursWithin(Run(limits, ops[..k + 1]), limits);
        StepDecidesHours(Run(limits, ops[..k]), limits, ops[k]);
      }
    }
    if NeverOvercharges(limits, ops) {
      forall k: nat | k <= |ops| ensures HoursWithin(Run(limits, ops[..k]), limits) { HoursAfter(limits, ops, k); }
    }
  }

  lemma {:induction false} HoursAfter(limits: Limits, ops: seq<Op>, k: nat)
    requires NeverOvercharges(limits, ops) && k <= |ops|
    ensures HoursWithin(Run(limits, ops[..k]), limits)
  {
    if k > 0 {
      HoursAfter(limits, ops, k - 1);
      RunPrefix(limits, ops, k - 1);
      RunKeeps(limits, ops[..k - 1]);
      RunKeepsUnits(limits, ops[..k - 1]);
      assert !OverchargesMonth(Run(limits, ops[..k - 1]), limits, ops[k - 1]);
      MonthlyStepKeeps(Run(limits, ops[..k - 1]), limits, ops[k - 1], Run(limits, ops[..k]));
    }
  }

  lemma MonthlyStepKeeps(s: State, limits: Limits, op: Op, s': State)
    requires LeaseInvariant(s) && DueUnits(s) && HoursWithin(s, limits) && !OverchargesMonth(s, limits, op) && s' == Step(s, limits, op)
    ensures HoursWithin(s', limits)
  {
    StepDecidesHours(s, limits, op);
  }

  /** The hour count that was read misses no hour the team is charged by the time of the commit, recorded or due, and hours
      are recorded in the month they were begun in. */
  predicate CountsInTime(s: State, limits: Limits, op: Op) {
    && (Opens(s, limits, op) && op.team.Some? ==> op.seenHours >= Hours(s, op.team.value, op.window))
    && (BeginsBlock(s, limits, op) ==>
          op.team == Some(s.leases[op.lease].team) && op.seenHours >= Hours(s, s.leases[op.lease].team, op.window))
    && !RecordsElsewhere(s, op)
  }

  lemma InTimeNeverOvercharges(s: State, limits: Limits, op: Op)
    requires LeaseInvariant(s) && CountsInTime(s, limits, op)
    ensures !OverchargesMonth(s, limits, op)
  {
    if Opens(s, limits, op) && op.team.Some? {
      AcquireAnswers(s, limits, op);
    } else if BeginsBlock(s, limits, op) {
      RenewAnswers(s, limits, op.lease, op.deployment, op.node, op.team, op.seenHours, op.window, op.now);
    }
  }

  /** So the hours are kept when acquisitions and renewals act on counts that are not outdated when they commit. */
  lemma HoursHoldInTime(limits: Limits, ops: seq<Op>, k: nat)
    requires forall j: nat :: j < |ops| ==> CountsInTime(Run(limits, ops[..j]), limits, ops[j])
    requires k <= |ops|
    ensures HoursWithin(Run(limits, ops[..k]), limits)
  {
    forall j: nat | j < |ops| ensures !OverchargesMonth(Run(limits, ops[..j]), limits, ops[j]) {
      RunKeeps(limits, ops[..j]);
      InTimeNeverOvercharges(Run(limits, ops[..j]), limits, ops[j]);
    }
    HoursAfter(limits, ops, k);
  }
}
