/** Exactly which runs keep a team within its process limit, and its process counter equal to its open leases. */
module SsrLimits {
  import opened Basics
  import opened Quotas
  import opened SsrLeases
  import opened SsrLeaseRuns

  // --- The process limit ------------------------------------------------------------------------

  /** The clock does not go back from commit to commit, and a handler reads it before it commits. */
  predicate InTurn(ops: seq<Op>) {
    && (forall k: nat :: k < |ops| ==> ReadsBefore(ops[k]))
    && (forall i: nat, k: nat :: i < k < |ops| ==> ops[i].at <= ops[k].at)
  }

  predicate ReadsBefore(op: Op) { op.ORecord? || op.now <= op.at }

  function Live(s: State, team: nat, t: int): nat { Count(s.leases, LiveOf(team, t)) }

  predicate TeamWithin(s: State, limits: Limits, team: nat, t: int) {
    LimitFor(limits, team, SsrProcesses).Some? ==> Live(s, team, t) <= LimitFor(limits, team, SsrProcesses).value
  }

  ghost predicate WithinLimits(s: State, limits: Limits, t: int) {
    forall team: nat :: TeamWithin(s, limits, team, t)
  }

  /** The team has as many live leases as it may have when the operation commits. */
  predicate IsFull(s: State, limits: Limits, team: nat, op: Op) {
    AtLimit(limits, team, SsrProcesses, Live(s, team, op.at))
  }

  /** An acquisition opens a lease that is live for a team that is full. */
  predicate OpensOver(s: State, limits: Limits, op: Op) {
    Opens(s, limits, op) && op.team.Some? && op.at < op.now + LEASE_TTL && IsFull(s, limits, op.team.value, op)
  }

  predicate Renews(s: State, limits: Limits, op: Op) {
    op.ORenew? && Renew(s, limits, op.lease, op.deployment, op.node, op.team, op.seenHours, op.window, op.now).Ok?
  }

  /** A renewal that was in time when it read the clock, but not any more, brings a lease back for a team that is full. */
  predicate RevivesOver(s: State, limits: Limits, op: Op) {
    Renews(s, limits, op)
    && var l := s.leases[op.lease]; l.expiresAt <= op.at < op.now + LEASE_TTL && IsFull(s, limits, l.team, op)
  }

  predicate Overfills(s: State, limits: Limits, op: Op) {
    OpensOver(s, limits, op) || RevivesOver(s, limits, op)
  }

  lemma LaterIsLess(s: State, team: nat, t: int, later: int)
    requires t <= later
    ensures Live(s, team, later) <= Live(s, team, t)
  {
    CountMonotone(s.leases, LiveOf(team, later), LiveOf(team, t));
  }

  lemma StaysWithin(s: State, limits: Limits, t: int, later: int)
    requires WithinLimits(s, limits, t) && t <= later
    ensures WithinLimits(s, limits, later)
  {
    forall team: nat ensures TeamWithin(s, limits, team, later) {
      assert TeamWithin(s, limits, team, t);
      LaterIsLess(s, team, t, later);
    }
  }

  lemma LiveAfterOpening(s: State, limits: Limits, op: Op, team: nat)
    requires OneOpenPerPlace(s.leases) && Opens(s, limits, op) && op.now <= op.at
    ensures op.team.Some?
    ensures Live(Step(s, limits, op), team, op.at) ==
            Live(s, team, op.at) + if op.team.value == team && op.at < op.now + LEASE_TTL then 1 else 0
  {
    AcquireShape(s, limits, op);
    var freed, l := Freed(s, op.deployment, op.node, op.now), NewLease(op.deployment, op.team.value, op.node, op.now);
    var expired := Find(s.leases, |s.leases|, l => ExpiredFor(l, op.deployment, op.node, op.now));
    if expired.Some? { CountAt(s.leases, expired.value, freed.leases[expired.value], LiveOf(team, op.at)); }
    CountSnoc(freed.leases, l, LiveOf(team, op.at));
  }

  lemma LiveAfterRenewal(s: State, limits: Limits, op: Op, team: nat)
    requires Renews(s, limits, op)
    ensures var l := s.leases[op.lease];
            Live(Step(s, limits, op), team, op.at) == Live(s, team, op.at)
              + (if l.team != team then 0
                 else (if op.at < op.now + LEASE_TTL then 1 else 0) - if op.at < l.expiresAt then 1 else 0)
  {
    CountAt(s.leases, op.lease, Step(s, limits, op).leases[op.lease], LiveOf(team, op.at));
  }

  lemma LiveAfterOther(s: State, limits: Limits, op: Op, team: nat)
    requires OneOpenPerPlace(s.leases) && !Opens(s, limits, op) && !Renews(s, limits, op)
    ensures Live(Step(s, limits, op), team, op.at) <= Live(s, team, op.at)
  {
    if op.OAcquire? {
      if Acquire(s, limits, op.deployment, op.node, op.served, op.team, op.seenLive, op.seenHours, op.window, op.now).Ok? { AcquireShape(s, limits, op); }
    } else if op.ORelease? {
      var r := ReleaseLease(s, op.lease, op.deployment, op.node, op.now);
      if r.Ok? && r.value.1 { CountAt(s.leases, op.lease, Released(s.leases[op.lease], op.now), LiveOf(team, op.at)); }
    }
  }

  lemma TeamDecides(s: State, limits: Limits, op: Op, team: nat)
    requires OneOpenPerPlace(s.leases) && ReadsBefore(op) && TeamWithin(s, limits, team, op.at)
    ensures TeamWithin(Step(s, limits, op), limits, team, op.at) <==>
            !(OpensOver(s, limits, op) && op.team.value == team) && !(RevivesOver(s, limits, op) && s.leases[op.lease].team == team)
  {
    if Opens(s, limits, op) { LiveAfterOpening(s, limits, op, team); }
    else if Renews(s, limits, op) { LiveAfterRenewal(s, limits, op, team); }
    else { LiveAfterOther(s, limits, op, team); }
  }

  /** One transaction keeps every team within its limit if and only if it neither opens a lease for a full team nor
      revives one. */
  lemma StepDecidesLimit(s: State, limits: Limits, op: Op)
    requires OneOpenPerPlace(s.leases) && ReadsBefore(op) && WithinLimits(s, limits, op.at)
    ensures WithinLimits(Step(s, limits, op), limits, op.at) <==> !Overfills(s, limits, op)
  {
    forall team: nat
      ensures TeamWithin(Step(s, limits, op), limits, team, op.at) <==>
              !(OpensOver(s, limits, op) && op.team.value == team) && !(RevivesOver(s, limits, op) && s.leases[op.lease].team == team)
    {
      assert TeamWithin(s, limits, team, op.at);
      TeamDecides(s, limits, op, team);
    }
    if OpensOver(s, limits, op) { assert !TeamWithin(Step(s, limits, op), limits, op.team.value, op.at); }
    if RevivesOver(s, limits, op) { assert !TeamWithin(Step(s, limits, op), limits, s.leases[op.lease].team, op.at); }
  }

  /** Within the limits after the first `k` transactions, from the last of them on. */
  ghost predicate WithinAfter(limits: Limits, ops: seq<Op>, k: nat)
    requires k <= |ops|
  {
    if k == 0 then forall t: int :: WithinLimits(INITIAL, limits, t) else WithinLimits(Run(limits, ops[..k]), limits, ops[k - 1].at)
  }

  ghost predicate NeverOverfills(limits: Limits, ops: seq<Op>) {
    forall k: nat :: k < |ops| ==> !Overfills(Run(limits, ops[..k]), limits, ops[k])
  }

  lemma AfterDecides(limits: Limits, ops: seq<Op>, k: nat)
    requires InTurn(ops) && k < |ops| && WithinAfter(limits, ops, k)
    ensures WithinAfter(limits, ops, k + 1) <==> !Overfills(Run(limits, ops[..k]), limits, ops[k])
  {
    var s := Run(limits, ops[..k]);
    RunPrefix(limits, ops, k);
    RunKeeps(limits, ops[..k]);
    if k > 0 { StaysWithin(s, limits, ops[k - 1].at, ops[k].at); } else { assert ops[..0] == []; }
    StepDecidesLimit(s, limits, ops[k]);
  }

  /** Every team has at most as many live leases as its limit, at every time of a run, if and only if no acquisition opens
      a lease for a full team and no renewal that comes late revives one. */
  lemma ProcessLimitExactly(limits: Limits, ops: seq<Op>)
    requires InTurn(ops)
    ensures (forall k: nat :: k <= |ops| ==> WithinAfter(limits, ops, k)) <==> NeverOverfills(limits, ops)
  {
    if forall k: nat :: k <= |ops| ==> WithinAfter(limits, ops, k) {
      forall k: nat | k < |ops| ensures !Overfills(Run(limits, ops[..k]), limits, ops[k]) {
        assert WithinAfter(limits, ops, k) && WithinAfter(limits, ops, k + 1);
        AfterDecides(limits, ops, k);
      }
    }
    if NeverOverfills(limits, ops) {
      forall k: nat | k <= |ops| ensures WithinAfter(limits, ops, k) { WithinThroughout(limits, ops, k); }
    }
  }

  lemma {:induction false} WithinThroughout(limits: Limits, ops: seq<Op>, k: nat)
    requires InTurn(ops) && NeverOverfills(limits, ops) && k <= |ops|
    ensures WithinAfter(limits, ops, k)
  {
    if k > 0 {
      WithinThroughout(limits, ops, k - 1);
      AfterDecides(limits, ops, k - 1);
    }
  }

  /** The count an acquisition read misses no lease that is live at its time, and a renewal commits before its lease
      expires. */
  predicate ActsInTime(s: State, limits: Limits, op: Op) {
    && (op.OAcquire? && op.team.Some? ==> op.seenLive >= Live(s, op.team.value, op.now))
    && (Renews(s, limits, op) ==> op.at < s.leases[op.lease].expiresAt)
  }

  lemma InTimeNeverOverfills(s: State, limits: Limits, op: Op)
    requires OneOpenPerPlace(s.leases) && ReadsBefore(op) && ActsInTime(s, limits, op)
    ensures !Overfills(s, limits, op)
  {
    if Opens(s, limits, op) && op.team.Some? {
      AcquireShape(s, limits, op);
      LaterIsLess(s, op.team.value, op.now, op.at);
    }
  }

  /** So transactions that act on current counts and in time keep every team within its limit. */
  lemma LimitHoldsInTime(limits: Limits, ops: seq<Op>, k: nat)
    requires InTurn(ops) && k <= |ops|
    requires forall j: nat :: j < |ops| ==> ActsInTime(Run(limits, ops[..j]), limits, ops[j])
    ensures WithinAfter(limits, ops, k)
  {
    forall j: nat | j < |ops| ensures !Overfills(Run(limits, ops[..j]), limits, ops[j]) {
      RunKeeps(limits, ops[..j]);
      assert ActsInTime(Run(limits, ops[..j]), limits, ops[j]);
      InTimeNeverOverfills(Run(limits, ops[..j]), limits, ops[j]);
    }
    WithinThroughout(limits, ops, k);
  }

  // --- The process counter ----------------------------------------------------------------------------

  /** In every reachable state a place has at most one unreleased lease, and the process events of a team, recorded and
      due, add up to its unreleased leases. */
  lemma LeasesStayConsistent(limits: Limits, ops: seq<Op>, team: nat)
    ensures OneOpenPerPlace(Run(limits, ops).leases)
    ensures Processes(Run(limits, ops), team) == Count(Run(limits, ops).leases, OpenOf(team))
  {
    RunKeeps(limits, ops);
  }

  /** A recorder writes an outdated counter. */
  predicate LosesCount(s: State, op: Op) {
    op.ORecord? && op.entry < |s.due| && Outdated(s.ledger, s.due[op.entry].(window := op.window), op.read)
  }

  lemma StepDecidesCount(s: State, limits: Limits, op: Op)
    requires LeaseInvariant(s) && Folded(s.ledger)
    ensures Folded(Step(s, limits, op).ledger) <==> !LosesCount(s, op)
  {
    if op.ORecord? && op.entry < |s.due| {
      var e := s.due[op.entry].(window := op.window);
      assert !Repeats(s.ledger, e) by { assert s.due[op.entry] in s.due; }
      StepDecidesFold(s.ledger, LRecord(e, op.read));
    }
  }

  ghost predicate NeverLosesCount(limits: Limits, ops: seq<Op>) {
    forall k: nat :: k < |ops| ==> !LosesCount(Run(limits, ops[..k]), ops[k])
  }

  /** Every counter is the fold of the recorded deltas in every state of a run if and only if no recorder of the run
      wrote an outdated one. */
  lemma CountersStayFolded(limits: Limits, ops: seq<Op>)
    ensures (forall k: nat :: k <= |ops| ==> Folded(Run(limits, ops[..k]).ledger)) <==> NeverLosesCount(limits, ops)
  {
    if forall k: nat :: k <= |ops| ==> Folded(Run(limits, ops[..k]).ledger) {
      forall k: nat | k < |ops| ensures !LosesCount(Run(limits, ops[..k]), ops[k]) {
        RunPrefix(limits, ops, k);
        RunKeeps(limits, ops[..k]);
        assert Folded(Run(limits, ops[..k]).ledger) && Folded(Run(limits, ops[..k + 1]).ledger);
        StepDecidesCount(Run(limits, ops[..k]), limits, ops[k]);
      }
    }
    if NeverLosesCount(limits, ops) {
      forall k: nat | k <= |ops| ensures Folded(Run(limits, ops[..k]).ledger) { FoldedThroughout(limits, ops, k); }
    }
  }

  lemma {:induction false} FoldedThroughout(limits: Limits, ops: seq<Op>, k: nat)
    requires NeverLosesCount(limits, ops) && k <= |ops|
    ensures Folded(Run(limits, ops[..k]).ledger)
  {
    if k > 0 {
      FoldedThroughout(limits, ops, k - 1);
      RunPrefix(limits, ops, k - 1);
      RunKeeps(limits, ops[..k - 1]);
      assert !LosesCount(Run(limits, ops[..k - 1]), ops[k - 1]);
      CountedStepFolds(Run(limits, ops[..k - 1]), limits, ops[k - 1], Run(limits, ops[..k]));
    }
  }

  lemma CountedStepFolds(s: State, limits: Limits, op: Op, s': State)
    requires LeaseInvariant(s) && Folded(s.ledger) && !LosesCount(s, op) && s' == Step(s, limits, op)
    ensures Folded(s'.ledger)
  {
    StepDecidesCount(s, limits, op);
  }

  function DueProcesses(s: State, team: nat): int { SumBy(s.due, DeltaOf(ProcessCounter(team))) }

  function RecordedProcesses(s: State, team: nat): seq<int> { DeltasOf(s.ledger.events, ProcessCounter(team)) }

  /** When no update was lost, the process counter is the number of unreleased leases less what is due, and more by what the
      clamp at zero swallowed; so it is that number if and only if those two cancel out. */
  lemma ProcessCounterExactly(limits: Limits, ops: seq<Op>, team: nat)
    requires NeverLosesCount(limits, ops)
    ensures var s := Run(limits, ops);
            var open, due, low := Count(s.leases, OpenOf(team)), DueProcesses(s, team), LowestPrefix(RecordedProcesses(s, team));
            && Used(s.ledger, ProcessCounter(team)) == open - due - low
            && (Used(s.ledger, ProcessCounter(team)) == open <==> due + low == 0)
  {
    RunKeeps(limits, ops);
    FoldedThroughout(limits, ops, |ops|);
    assert ops[..|ops|] == ops;
    var s := Run(limits, ops);
    ClampedClosedForm(RecordedProcesses(s, team));
    DeltasSum(s.ledger.events, ProcessCounter(team));
    assert Used(s.ledger, ProcessCounter(team)) == ClampedFold(RecordedProcesses(s, team));
  }

  // --- Recording in order ---------------------------------------------------------------------------------

  /** Whatever part of the due events is recorded next, in order, no team's processes go below zero. */
  ghost predicate NeverNegative(s: State, team: nat) {
    && LowestPrefix(RecordedProcesses(s, team)) == 0
    && forall m: nat :: m <= |s.due| ==> PartialProcesses(s, team, m) >= 0
  }

  function PartialProcesses(s: State, team: nat, m: nat): int
    requires m <= |s.due|
  {
    SumBy(s.ledger.events, DeltaOf(ProcessCounter(team))) + SumBy(s.due[..m], DeltaOf(ProcessCounter(team)))
  }

  /** One more due event, after which the processes are a number of leases. */
  lemma DueStaysNonnegative(s: State, leases: seq<Lease>, e: Event, team: nat)
    requires NeverNegative(s, team) && Processes(Due(s, leases, e), team) >= 0
    ensures NeverNegative(Due(s, leases, e), team)
  {
    var s' := Due(s, leases, e);
    forall m: nat | m <= |s'.due| ensures PartialProcesses(s', team, m) >= 0 {
      if m <= |s.due| {
        assert s'.due[..m] == s.due[..m] && PartialProcesses(s, team, m) >= 0;
      } else {
        assert s'.due[..m] == s'.due;
      }
    }
  }

  lemma RetireStaysNonnegative(s: State, i: nat, now: int, team: nat)
    requires LeaseInvariant(s) && i < |s.leases| && IsOpen(s.leases[i]) && NeverNegative(s, team)
    ensures NeverNegative(Retire(s, i, now), team)
  {
    RetireKeeps(s, i, now);
    DueStaysNonnegative(s, s.leases[i := Released(s.leases[i], now)], ProcessReleaseEvent(i, s.leases[i]), team);
  }

  lemma OpenStaysNonnegative(s: State, l: Lease, window: int, team: nat)
    requires LeaseInvariant(s) && NeverNegative(s, team)
    ensures NeverNegative(Open(s, l, window), team)
  {
    var i, leases, w := |s.leases|, s.leases + [l], DeltaOf(ProcessCounter(team));
    var mid := Due(s, leases, ProcessEvent(i, l));
    SumSnoc(s.due, ProcessEvent(i, l), w);
    SumSnoc(mid.due, BlockEvent(i, l, window), w);
    assert Processes(s, team) == Count(s.leases, OpenOf(team));
    DueStaysNonnegative(s, leases, ProcessEvent(i, l), team);
    DueStaysNonnegative(mid, leases, BlockEvent(i, l, window), team);
  }

  lemma OtherStaysNonnegative(s: State, leases: seq<Lease>, e: Event, team: nat)
    requires NeverNegative(s, team) && ProcessesMatch(s) && !e.dimension.SsrProcesses?
    ensures NeverNegative(Due(s, leases, e), team)
  {
    SumSnoc(s.due, e, DeltaOf(ProcessCounter(team)));
    assert Processes(s, team) == Count(s.leases, OpenOf(team));
    DueStaysNonnegative(s, leases, e, team);
  }

  lemma FirstStaysNonnegative(s: State, read: Read, window: int, s': State, team: nat)
    requires LeaseInvariant(s) && NeverNegative(s, team) && |s.due| > 0 && RecordDue(s, 0, read, window) == Ok(s')
    ensures NeverNegative(s', team)
  {
    var e := s.due[0].(window := window);
    RecordMoves(s, 0, read, window, s');
    forall m: nat | m <= |s'.due| ensures PartialProcesses(s', team, m) >= 0 {
      FirstShifts(s, e, s', team, m);
      assert PartialProcesses(s, team, m + 1) >= 0;
    }
    assert s'.due[..0] == [];
    assert PartialProcesses(s', team, 0) >= 0;
    DeltasSum(s'.ledger.events, ProcessCounter(team));
    LowestStays(s.ledger.events, e, ProcessCounter(team));
  }

  /** The first due event joins the log. */
  lemma FirstShifts(s: State, e: Event, s': State, team: nat, m: nat)
    requires |s.due| > 0 && e == s.due[0].(window := e.window) && s'.ledger.events == s.ledger.events + [e]
    requires s'.due == Without(s.due, 0) && m <= |s'.due|
    ensures PartialProcesses(s', team, m) == PartialProcesses(s, team, m + 1)
  {
    var w := DeltaOf(ProcessCounter(team));
    SumSnoc(s.ledger.events, e, w);
    SumCons(s.due[..m + 1], w);
    assert s.due[..m + 1][1..] == s'.due[..m];
  }

  lemma LowestStays(events: seq<Event>, e: Event, c: CounterId)
    requires LowestPrefix(DeltasOf(events, c)) == 0 && Total(DeltasOf(events + [e], c)) >= 0
    ensures LowestPrefix(DeltasOf(events + [e], c)) == 0
  {
    DeltasSnoc(events, e, c);
    FoldSnoc(DeltasOf(events, c), e.delta);
    LowestSnoc(DeltasOf(events, c), e.delta);
    assert DeltasOf(events, c) + [] == DeltasOf(events, c);
  }

  lemma {:induction false} SumCons(events: seq<Event>, w: Event -> int)
    requires events != []
    ensures SumBy(events, w) == w(events[0]) + SumBy(events[1..], w)
  {
    if |events| > 1 {
      SumCons(events[..|events| - 1], w);
      assert events[..|events| - 1][1..] == events[1..][..|events| - 2];
    }
  }

  lemma LowestSnoc(deltas: seq<int>, delta: int)
    ensures LowestPrefix(deltas + [delta]) == if Total(deltas) + delta < LowestPrefix(deltas) then Total(deltas) + delta else LowestPrefix(deltas)
  {
    assert (deltas + [delta])[..|deltas|] == deltas;
  }

  predicate RecordsFirst(op: Op) { op.ORecord? ==> op.entry == 0 }

  lemma StepStaysNonnegative(s: State, limits: Limits, op: Op, team: nat)
    requires LeaseInvariant(s) && NeverNegative(s, team) && RecordsFirst(op)
    ensures NeverNegative(Step(s, limits, op), team)
  {
    if op.OAcquire? {
      AcquireStaysNonnegative(s, limits, op, team);
    } else if op.ORenew? {
      RenewStaysNonnegative(s, limits, op, team);
    } else if op.ORelease? {
      ReleaseStaysNonnegative(s, limits, op, team);
    } else if |s.due| > 0 {
      var r := RecordDue(s, 0, op.read, op.window);
      if r.Ok? { FirstStaysNonnegative(s, op.read, op.window, r.value, team); }
    }
  }

  lemma AcquireStaysNonnegative(s: State, limits: Limits, op: Op, team: nat)
    requires LeaseInvariant(s) && NeverNegative(s, team) && op.OAcquire?
    ensures NeverNegative(Step(s, limits, op), team)
  {
    if Acquire(s, limits, op.deployment, op.node, op.served, op.team, op.seenLive, op.seenHours, op.window, op.now).Ok? {
      AcquireShape(s, limits, op);
      if Opens(s, limits, op) {
        var freed := Freed(s, op.deployment, op.node, op.now);
        var expired := Find(s.leases, |s.leases|, l => ExpiredFor(l, op.deployment, op.node, op.now));
        if expired.Some? { RetireStaysNonnegative(s, expired.value, op.now, team); }
        FreedKeeps(s, op.deployment, op.node, op.now);
        OpenStaysNonnegative(freed, NewLease(op.deployment, op.team.value, op.node, op.now), op.window, team);
      }
    }
  }

  lemma RenewStaysNonnegative(s: State, limits: Limits, op: Op, team: nat)
    requires LeaseInvariant(s) && NeverNegative(s, team) && op.ORenew?
    ensures NeverNegative(Step(s, limits, op), team)
  {
    var s' := Step(s, limits, op);
    if s'.due != s.due {
      OtherStaysNonnegative(s, s'.leases, s'.due[|s.due|], team);
    } else {
      assert forall m: nat :: m <= |s.due| ==> PartialProcesses(s', team, m) == PartialProcesses(s, team, m);
    }
  }

  lemma ReleaseStaysNonnegative(s: State, limits: Limits, op: Op, team: nat)
    requires LeaseInvariant(s) && NeverNegative(s, team) && op.ORelease?
    ensures NeverNegative(Step(s, limits, op), team)
  {
    var r := ReleaseLease(s, op.lease, op.deployment, op.node, op.now);
    if r.Ok? && r.value.1 {
      var l, retired := s.leases[op.lease], Retire(s, op.lease, op.now);
      RetireStaysNonnegative(s, op.lease, op.now, team);
      RetireKeeps(s, op.lease, op.now);
      if op.now < l.hourBlockStart + HOUR_BLOCK {
        OtherStaysNonnegative(retired, retired.leases, BlockReleaseEvent(op.lease, l), team);
      } else {
        assert retired.due + [] == retired.due;
      }
    }
  }

  lemma {:induction false} RunStaysNonnegative(limits: Limits, ops: seq<Op>, team: nat)
    requires forall op :: op in ops ==> RecordsFirst(op)
    ensures NeverNegative(Run(limits, ops), team)
  {
    if ops != [] {
      RunStaysNonnegative(limits, ops[..|ops| - 1], team);
      RunKeeps(limits, ops[..|ops| - 1]);
      StepStaysNonnegative(Run(limits, ops[..|ops| - 1]), limits, ops[|ops| - 1], team);
    }
  }

  /** Events that are recorded in the order in which they fell due, each by a transaction that loses no update, leave
      the process counter at the number of unreleased leases less what is still due: the clamp never acts. */
  lemma InOrderCounterIsExact(limits: Limits, ops: seq<Op>, team: nat)
    requires NeverLosesCount(limits, ops) && forall op :: op in ops ==> RecordsFirst(op)
    ensures var s := Run(limits, ops);
            Used(s.ledger, ProcessCounter(team)) + DueProcesses(s, team) == Count(s.leases, OpenOf(team))
  {
    RunStaysNonnegative(limits, ops, team);
    ProcessCounterExactly(limits, ops, team);
  }
}
