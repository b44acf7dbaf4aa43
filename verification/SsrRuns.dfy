/** Runs of lease operations that exceed the process limit, leave the process counter wrong, or charge an hour that
    had not begun at the last renewal. */
module SsrRuns {
  import opened Basics
  import opened Quotas
  import opened SsrLeases
  import opened SsrLeaseRuns
  import opened SsrLimits
  import opened SsrHours

  const SECOND := 1_000_000

  const ONE_PROCESS: Limits := map[(0, SsrProcesses) := 1]

  const ONE_HOUR: Limits := map[(0, SsrHoursMonthly) := 1]

  const NO_LIMITS: Limits := map[]

  lemma Extends(limits: Limits, ops: seq<Op>, s: State, op: Op, s': State)
    requires Run(limits, ops) == s && Step(s, limits, op) == s'
    ensures Run(limits, ops + [op]) == s'
  {
    RunExtends(limits, ops, op);
  }

  /** The lease of deployment `d` on node `d`. */
  function LeaseOf(d: nat, startedAt: int, renewedAt: int): Lease {
    Lease(d, 0, d, startedAt, renewedAt, renewedAt + LEASE_TTL, startedAt, None)
  }

  function NewEvents(i: nat, l: Lease): seq<Event> { [ProcessEvent(i, l)] + [BlockEvent(i, l, 0)] }

  function Acquires(d: nat, now: int): Op { OAcquire(d, d, true, Some(0), 0, 0, 0, now, now) }

  /** An acquisition that counts no live lease opens one. */
  lemma Acquired(s: State, limits: Limits, d: nat, now: int)
    requires limits == ONE_PROCESS || limits == ONE_HOUR || limits == NO_LIMITS
    requires forall l :: l in s.leases ==> l.deployment != d
    ensures Step(s, limits, Acquires(d, now)) ==
            State(s.leases + [LeaseOf(d, now, now)], s.due + NewEvents(|s.leases|, LeaseOf(d, now, now)), s.ledger)
  {
    assert s.due + [] + [ProcessEvent(|s.leases|, LeaseOf(d, now, now))] + [BlockEvent(|s.leases|, LeaseOf(d, now, now), 0)]
           == s.due + NewEvents(|s.leases|, LeaseOf(d, now, now));
  }

  lemma LiveOfTwo(s: State, t: int)
    requires |s.leases| == 2 && s.leases[0].team == 0 && s.leases[1].team == 0 && IsLive(s.leases[0], t) && IsLive(s.leases[1], t)
    ensures Live(s, 0, t) == 2
  {
    var p := LiveOf(0, t);
    assert s.leases[..1] == [s.leases[0]];
    assert Count(s.leases, p) == Count(s.leases[..1], p) + 1;
    assert s.leases[..1][..0] == [];
  }

  lemma NoneLive(s: State, t: int)
    requires |s.leases| == 1 && !IsLive(s.leases[0], t)
    ensures Live(s, 0, t) == 0
  {
    assert s.leases[..0] == [];
    assert Count(s.leases, LiveOf(0, t)) == Count(s.leases[..0], LiveOf(0, t));
  }

  /** The first acquisition of each run. */
  lemma FirstAcquired(limits: Limits)
    requires limits == ONE_PROCESS || limits == ONE_HOUR || limits == NO_LIMITS
    ensures Run(limits, [Acquires(0, 0)]) == State([LeaseOf(0, 0, 0)], NewEvents(0, LeaseOf(0, 0, 0)), EMPTY)
  {
    var none: seq<Op> := [];
    assert none + [Acquires(0, 0)] == [Acquires(0, 0)];
    Acquired(INITIAL, limits, 0, 0);
    assert INITIAL.due + NewEvents(0, LeaseOf(0, 0, 0)) == NewEvents(0, LeaseOf(0, 0, 0));
    Extends(limits, none, INITIAL, Acquires(0, 0), State([LeaseOf(0, 0, 0)], NewEvents(0, LeaseOf(0, 0, 0)), EMPTY));
  }

  // --- Two acquisitions at once ------------------------------------------------------------------

  /** Two nodes acquire for two deployments of one team, and both count before either commits. */
  const AT_ONCE: seq<Op> := [Acquires(0, 0)] + [Acquires(1, 0)]

  lemma BothAcquired(now: int) returns (s: State)
    ensures s == Run(ONE_PROCESS, [Acquires(0, 0)] + [Acquires(1, now)])
    ensures s.leases == [LeaseOf(0, 0, 0)] + [LeaseOf(1, now, now)]
  {
    FirstAcquired(ONE_PROCESS);
    var one := Run(ONE_PROCESS, [Acquires(0, 0)]);
    Acquired(one, ONE_PROCESS, 1, now);
    s := Step(one, ONE_PROCESS, Acquires(1, now));
    RunExtends(ONE_PROCESS, [Acquires(0, 0)], Acquires(1, now));
  }

  /** The team may have one process and has two live leases. */
  lemma AcquisitionsOverfill()
    ensures InTurn(AT_ONCE) && LimitFor(ONE_PROCESS, 0, SsrProcesses) == Some(1) && Live(Run(ONE_PROCESS, AT_ONCE), 0, 0) == 2
  {
    var s := BothAcquired(0);
    LiveOfTwo(s, 0);
  }

  /** A team may have one hour in the month. The second acquisition reads the counter as it is, but the hour of the first is
      still due: two hours are charged. */
  lemma DueHoursAreMissed()
    ensures Used(Run(ONE_HOUR, [Acquires(0, 0)]).ledger, HourCounter(0, 0)) == 0
    ensures Hours(Run(ONE_HOUR, AT_ONCE), 0, 0) == 2
  {
    FirstAcquired(ONE_HOUR);
    var one := Run(ONE_HOUR, [Acquires(0, 0)]);
    Acquired(one, ONE_HOUR, 1, 0);
    RunExtends(ONE_HOUR, [Acquires(0, 0)], Acquires(1, 0));
    TwoHoursDue(Run(ONE_HOUR, AT_ONCE));
  }

  lemma TwoHoursDue(s: State)
    requires s.ledger == EMPTY && s.due == NewEvents(0, LeaseOf(0, 0, 0)) + NewEvents(1, LeaseOf(1, 0, 0))
    ensures Hours(s, 0, 0) == 2
  {
    var w := BegunIn(0, 0);
    var first, second := LeaseOf(0, 0, 0), LeaseOf(1, 0, 0);
    assert s.due == [] + [ProcessEvent(0, first)] + [BlockEvent(0, first, 0)] + [ProcessEvent(1, second)] + [BlockEvent(1, second, 0)];
    SumSnoc([], ProcessEvent(0, first), w);
    SumSnoc([] + [ProcessEvent(0, first)], BlockEvent(0, first, 0), w);
    SumSnoc([] + [ProcessEvent(0, first)] + [BlockEvent(0, first, 0)], ProcessEvent(1, second), w);
    SumSnoc([] + [ProcessEvent(0, first)] + [BlockEvent(0, first, 0)] + [ProcessEvent(1, second)], BlockEvent(1, second, 0), w);
  }

  // --- A renewal that commits late ---------------------------------------------------------------------

  /** A renewal reads the clock a second before its lease expires and commits two seconds after; another lease was
      acquired in between, when none was live. */
  const RENEWAL := ORenew(0, 0, 0, Some(0), 0, 0, 89 * SECOND, 92 * SECOND)
  const LATE_RENEWAL: seq<Op> := [Acquires(0, 0)] + [Acquires(1, 91 * SECOND)] + [RENEWAL]

  lemma LateRenewalRevives(s: State)
    requires |s.leases| == 2 && s.leases[0] == LeaseOf(0, 0, 0) && s.leases[1] == LeaseOf(1, 91 * SECOND, 91 * SECOND)
    ensures Live(Step(s, ONE_PROCESS, RENEWAL), 0, 92 * SECOND) == 2
  {
    LiveOfTwo(Step(s, ONE_PROCESS, RENEWAL), 92 * SECOND);
  }

  lemma LateRenewalOverfills()
    ensures InTurn(LATE_RENEWAL) && Live(Run(ONE_PROCESS, LATE_RENEWAL), 0, 92 * SECOND) == 2
    ensures Live(Run(ONE_PROCESS, [Acquires(0, 0)]), 0, 91 * SECOND) == 0
  {
    FirstAcquired(ONE_PROCESS);
    NoneLive(Run(ONE_PROCESS, [Acquires(0, 0)]), 91 * SECOND);
    LateRenewalRuns();
  }

  lemma LateRenewalRuns()
    ensures Live(Run(ONE_PROCESS, LATE_RENEWAL), 0, 92 * SECOND) == 2
  {
    var two := BothAcquired(91 * SECOND);
    LateRenewalRevives(two);
    RunExtends(ONE_PROCESS, [Acquires(0, 0)] + [Acquires(1, 91 * SECOND)], RENEWAL);
  }

  // --- A release that is recorded first ------------------------------------------------------------------

  /** The lease is acquired and released; the release of its process is recorded before its beginning, and both
      recorders read the counter as it is. */
  const RELEASE_FIRST: seq<Op> :=
    [Acquires(0, 0)] + [ORelease(0, 0, 0, SECOND, SECOND)] + [ORecord(2, NoRow, 0, SECOND)] + [ORecord(0, RowRead(0, 0), 0, SECOND)]

  /** The clamp swallows the release: the counter says one, and no lease is open. */
  lemma ReleaseFirstMiscounts()
    ensures var s := Run(NO_LIMITS, RELEASE_FIRST);
            && Used(s.ledger, ProcessCounter(0)) == 1 && Count(s.leases, OpenOf(0)) == 0 && DueProcesses(s, 0) == 0
  {
    var l, c := LeaseOf(0, 0, 0), ProcessCounter(0);
    FirstAcquired(NO_LIMITS);
    var s1 := Run(NO_LIMITS, [Acquires(0, 0)]);
    var release := ORelease(0, 0, 0, SECOND, SECOND);
    LeaseIsReleased(s1, l);
    var s2 := Step(s1, NO_LIMITS, release);
    Extends(NO_LIMITS, [Acquires(0, 0)], s1, release, s2);
    ReleaseIsClamped(s2, l);
    var s3 := Step(s2, NO_LIMITS, ORecord(2, NoRow, 0, SECOND));
    Extends(NO_LIMITS, [Acquires(0, 0)] + [release], s2, ORecord(2, NoRow, 0, SECOND), s3);
    BeginningIsCounted(s3, l);
    RunExtends(NO_LIMITS, [Acquires(0, 0)] + [release] + [ORecord(2, NoRow, 0, SECOND)], ORecord(0, RowRead(0, 0), 0, SECOND));
    assert s3.leases[..0] == [];
  }

  lemma LeaseIsReleased(s: State, l: Lease)
    requires l == LeaseOf(0, 0, 0) && s == State([l], NewEvents(0, l), EMPTY)
    ensures Step(s, NO_LIMITS, ORelease(0, 0, 0, SECOND, SECOND)) ==
            State([Released(l, SECOND)], NewEvents(0, l) + [ProcessReleaseEvent(0, l)] + [BlockReleaseEvent(0, l)], EMPTY)
  {
    assert s.leases[0 := Released(l, SECOND)] == [Released(l, SECOND)];
  }

  lemma ReleaseIsClamped(s: State, l: Lease)
    requires l == LeaseOf(0, 0, 0) && s.ledger == EMPTY
    requires s.due == NewEvents(0, l) + [ProcessReleaseEvent(0, l)] + [BlockReleaseEvent(0, l)]
    ensures Step(s, NO_LIMITS, ORecord(2, NoRow, 0, SECOND)) ==
            State(s.leases, NewEvents(0, l) + [BlockReleaseEvent(0, l)], Ledger([ProcessReleaseEvent(0, l)], [], [Row(ProcessCounter(0), 0)]))
  {
    assert Without(s.due, 2) == NewEvents(0, l) + [BlockReleaseEvent(0, l)];
    assert [] + [ProcessReleaseEvent(0, l)] == [ProcessReleaseEvent(0, l)];
  }

  lemma BeginningIsCounted(s: State, l: Lease)
    requires l == LeaseOf(0, 0, 0) && s.due == NewEvents(0, l) + [BlockReleaseEvent(0, l)]
    requires s.ledger == Ledger([ProcessReleaseEvent(0, l)], [], [Row(ProcessCounter(0), 0)])
    ensures var s' := Step(s, NO_LIMITS, ORecord(0, RowRead(0, 0), 0, SECOND));
            && s'.leases == s.leases && Used(s'.ledger, ProcessCounter(0)) == 1 && DueProcesses(s', 0) == 0
  {
    var s' := Step(s, NO_LIMITS, ORecord(0, RowRead(0, 0), 0, SECOND));
    assert s'.due == [BlockEvent(0, l, 0)] + [BlockReleaseEvent(0, l)];
    SumOfNothing(s'.due, DeltaOf(ProcessCounter(0)));
    assert s'.ledger.rows == [Row(ProcessCounter(0), 1)];
  }

  // --- A renewal from before the block ------------------------------------------------------------------------

  const MINUTE := 60 * SECOND

  /** Renewals every minute. */
  function Minutes(k: nat): seq<Op> {
    if k == 0 then [Acquires(0, 0)] else Minutes(k - 1) + [ORenew(0, 0, 0, Some(0), 0, 0, k * MINUTE, k * MINUTE)]
  }

  lemma {:induction false} RenewedEachMinute(k: nat)
    requires k < 60
    ensures Run(NO_LIMITS, Minutes(k)) == State([LeaseOf(0, 0, k * MINUTE)], NewEvents(0, LeaseOf(0, 0, 0)), EMPTY)
  {
    if k == 0 {
      FirstAcquired(NO_LIMITS);
    } else {
      RenewedEachMinute(k - 1);
      RenewedAgain(Minutes(k - 1), (k - 1) * MINUTE, k * MINUTE);
    }
  }

  lemma RenewedAgain(ops: seq<Op>, before: int, now: int)
    requires Run(NO_LIMITS, ops) == State([LeaseOf(0, 0, before)], NewEvents(0, LeaseOf(0, 0, 0)), EMPTY)
    requires before <= now < before + LEASE_TTL && now < HOUR_BLOCK
    ensures Run(NO_LIMITS, ops + [ORenew(0, 0, 0, Some(0), 0, 0, now, now)])
            == State([LeaseOf(0, 0, now)], NewEvents(0, LeaseOf(0, 0, 0)), EMPTY)
  {
    MinutePasses(Run(NO_LIMITS, ops), before, now);
    RunExtends(NO_LIMITS, ops, ORenew(0, 0, 0, Some(0), 0, 0, now, now));
  }

  lemma MinutePasses(s: State, before: int, now: int)
    requires s.leases == [LeaseOf(0, 0, before)] && before <= now < before + LEASE_TTL && now < HOUR_BLOCK
    ensures Step(s, NO_LIMITS, ORenew(0, 0, 0, Some(0), 0, 0, now, now)) == s.(leases := [LeaseOf(0, 0, now)])
  {
    assert s.leases[0 := LeaseOf(0, 0, now)] == [LeaseOf(0, 0, now)];
  }

  /** After an hour, of `k` minutes, a renewal begins the second block; one that read the clock a second before commits
      after it. */
  const OVERTAKEN := ORenew(0, 0, 0, Some(0), 0, 0, 3599 * SECOND, 3601 * SECOND)

  function SecondBlock(renewedAt: int): Lease {
    LeaseOf(0, 0, renewedAt).(hourBlockStart := HOUR_BLOCK)
  }

  lemma SecondBlockBegins(k: nat)
    requires k * MINUTE == HOUR_BLOCK
    ensures var renewed := SecondBlock(HOUR_BLOCK);
            Run(NO_LIMITS, Minutes(k)) == State([renewed], NewEvents(0, LeaseOf(0, 0, 0)) + [BlockEvent(0, renewed, 0)], EMPTY)
  {
    RenewedEachMinute(k - 1);
    HourIsRenewed(Run(NO_LIMITS, Minutes(k - 1)));
    RunExtends(NO_LIMITS, Minutes(k - 1), ORenew(0, 0, 0, Some(0), 0, 0, k * MINUTE, k * MINUTE));
  }

  lemma HourIsRenewed(s: State)
    requires s.leases == [LeaseOf(0, 0, 59 * MINUTE)]
    ensures Step(s, NO_LIMITS, ORenew(0, 0, 0, Some(0), 0, 0, HOUR_BLOCK, HOUR_BLOCK)) ==
            State([SecondBlock(HOUR_BLOCK)], s.due + [BlockEvent(0, SecondBlock(HOUR_BLOCK), 0)], s.ledger)
  {
    assert s.leases[0 := SecondBlock(HOUR_BLOCK)] == [SecondBlock(HOUR_BLOCK)];
  }

  lemma OvertakenStep(s: State)
    requires s.leases == [SecondBlock(HOUR_BLOCK)]
    ensures Step(s, NO_LIMITS, OVERTAKEN) == s.(leases := [SecondBlock(3599 * SECOND)])
  {
    assert s.leases[0 := SecondBlock(3599 * SECOND)] == [SecondBlock(3599 * SECOND)];
  }

  /** Two hours are charged, and at its last renewal the lease had begun one. */
  lemma OvertakenRenewalOvercharges(k: nat)
    requires k * MINUTE == HOUR_BLOCK
    ensures var s := Run(NO_LIMITS, Minutes(k) + [OVERTAKEN]);
            && s.leases == [SecondBlock(3599 * SECOND)] && Charged(s, 0) == 2 && WholeHours(s.leases[0].renewedAt - s.leases[0].startedAt) + 1 == 1
  {
    SecondBlockBegins(k);
    var s := Run(NO_LIMITS, Minutes(k));
    OvertakenStep(s);
    Extends(NO_LIMITS, Minutes(k), s, OVERTAKEN, s.(leases := [SecondBlock(3599 * SECOND)]));
    LeasesAreChargedExactly(NO_LIMITS, Minutes(k) + [OVERTAKEN], Run(NO_LIMITS, Minutes(k) + [OVERTAKEN]), 0);
  }
}
