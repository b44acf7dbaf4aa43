/** What every run of lease operations keeps, whatever was read too early and however the recording of events is
    delayed: exact charges, and exactly which runs keep the process limit and the process counter. */
module SsrLeaseRuns {
  import opened Basics
  import opened Quotas
  import opened SsrLeases

  // --- Counting -----------------------------------------------------------------------------

  lemma CountSnoc(leases: seq<Lease>, l: Lease, p: Lease -> bool)
    ensures Count(leases + [l], p) == Count(leases, p) + if p(l) then 1 else 0
  {
    assert (leases + [l])[..|leases|] == leases;
  }

  lemma {:induction false} CountAt(leases: seq<Lease>, i: nat, l: Lease, p: Lease -> bool)
    requires i < |leases|
    ensures Count(leases[i := l], p) == Count(leases, p) - (if p(leases[i]) then 1 else 0) + (if p(l) then 1 else 0)
  {
    var last := |leases| - 1;
    if i < last {
      CountAt(leases[..last], i, l, p);
      assert leases[i := l][..last] == leases[..last][i := l];
    } else {
      assert leases[i := l][..last] == leases[..last];
    }
  }

  lemma {:induction false} CountMonotone(leases: seq<Lease>, p: Lease -> bool, q: Lease -> bool)
    requires forall l :: l in leases && p(l) ==> q(l)
    ensures Count(leases, p) <= Count(leases, q)
  {
    if leases != [] { CountMonotone(leases[..|leases| - 1], p, q); }
  }

  // --- Sums over events -----------------------------------------------------------------------

  function SumBy(events: seq<Event>, w: Event -> int): int {
    if events == [] then 0 else SumBy(events[..|events| - 1], w) + w(events[|events| - 1])
  }

  lemma SumSnoc(events: seq<Event>, e: Event, w: Event -> int)
    ensures SumBy(events + [e], w) == SumBy(events, w) + w(e)
  {
    assert (events + [e])[..|events|] == events;
  }

  lemma {:induction false} SumWithout(events: seq<Event>, k: nat, w: Event -> int)
    requires k < |events|
    ensures SumBy(Without(events, k), w) == SumBy(events, w) - w(events[k])
  {
    var last := |events| - 1;
    if k < last {
      SumWithout(events[..last], k, w);
      assert Without(events, k) == Without(events[..last], k) + [events[last]];
      SumSnoc(Without(events[..last], k), events[last], w);
    } else {
      assert Without(events, k) == events[..last];
    }
  }

  lemma {:induction false} SumOfNothing(events: seq<Event>, w: Event -> int)
    requires forall e :: e in events ==> w(e) == 0
    ensures SumBy(events, w) == 0
  {
    if events != [] { SumOfNothing(events[..|events| - 1], w); }
  }

  function DeltaOf(c: CounterId): Event -> int {
    (e: Event) => if IsCounted(e) && CounterFor(e) == c then e.delta else 0
  }

  lemma {:induction false} DeltasSum(events: seq<Event>, c: CounterId)
    ensures Total(DeltasOf(events, c)) == SumBy(events, DeltaOf(c))
  {
    if events != [] {
      var before, last := events[..|events| - 1], events[|events| - 1];
      DeltasSum(before, c);
      FoldSnoc(DeltasOf(before, c), last.delta);
    }
  }

  function HourOf(i: nat): Event -> int {
    (e: Event) => if e.dimension.SsrHoursMonthly? && IsCounted(e) && e.resource == Some(i) then e.delta else 0
  }

  function ProcessCounter(team: nat): CounterId { CounterOf(team, SsrProcesses, 0) }

  /** The hours charged to lease `i` net of refunds, recorded or due. */
  function Charged(s: State, i: nat): int { SumBy(s.ledger.events, HourOf(i)) + SumBy(s.due, HourOf(i)) }

  /** The processes of a team, recorded or due. */
  function Processes(s: State, team: nat): int {
    SumBy(s.ledger.events, DeltaOf(ProcessCounter(team))) + SumBy(s.due, DeltaOf(ProcessCounter(team)))
  }

  // --- The invariant -----------------------------------------------------------------------------

  /** The hour blocks the lease has begun. */
  function Blocks(l: Lease): int { (l.hourBlockStart - l.startedAt) / 3_600_000_000 + 1 }

  predicate RowSound(l: Lease) {
    && l.expiresAt == l.renewedAt + LEASE_TTL
    && l.hourBlockStart >= l.startedAt && (l.hourBlockStart - l.startedAt) % 3_600_000_000 == 0
    && l.renewedAt < l.hourBlockStart + HOUR_BLOCK
  }

  ghost predicate OneOpenPerPlace(leases: seq<Lease>) {
    forall i: nat, k: nat :: i < |leases| && k < |leases| && i != k && IsOpen(leases[i])
      ==> !OpenFor(leases[k], leases[i].deployment, leases[i].node)
  }

  /** A key belongs to a lease that exists and has come that far. */
  predicate KeySound(leases: seq<Lease>, e: Event) {
    match e.key
    case None => true
    case Some(ProcessKey(i)) => i < |leases|
    case Some(ProcessReleaseKey(i)) => i < |leases| && leases[i].releasedAt.Some?
    case Some(HourKey(i, second)) => i < |leases| && second <= UnixSecond(leases[i].hourBlockStart)
    case Some(HourReleaseKey(i, _)) => i < |leases| && leases[i].releasedAt.Some?
    case Some(TextKey(_)) => true
  }

  predicate EventSound(leases: seq<Lease>, e: Event) {
    KeySound(leases, e) && (e.resource.Some? ==> e.resource.value < |leases|)
  }

  ghost predicate EventsSound(s: State, leases: seq<Lease>) {
    && (forall e :: e in s.ledger.events ==> EventSound(leases, e))
    && (forall e :: e in s.due ==> EventSound(leases, e) && e.key.Some? && IsCounted(e))
  }

  /** A due event is in the log under no other entry and is due once. */
  ghost predicate DueDistinct(s: State) {
    && (forall e :: e in s.due ==> forall x :: x in s.ledger.events ==> x.key != e.key)
    && (forall a: nat, b: nat :: a < b < |s.due| ==> s.due[a].key != s.due[b].key)
  }

  ghost predicate ChargesMatch(s: State) {
    forall i: nat :: i < |s.leases| && IsOpen(s.leases[i]) ==> Charged(s, i) == Blocks(s.leases[i])
  }

  ghost predicate ProcessesMatch(s: State) {
    forall team: nat :: Processes(s, team) == Count(s.leases, OpenOf(team))
  }

  ghost predicate LeaseInvariant(s: State) {
    && (forall i: nat :: i < |s.leases| ==> RowSound(s.leases[i]))
    && OneOpenPerPlace(s.leases)
    && EventsSound(s, s.leases) && DueDistinct(s)
    && ChargesMatch(s) && ProcessesMatch(s)
  }

  // --- One more due event ---------------------------------------------------------------------------

  ghost predicate IsFresh(s: State, e: Event) {
    e.key.Some? && IsCounted(e) && (forall x :: x in s.ledger.events ==> x.key != e.key) && forall x :: x in s.due ==> x.key != e.key
  }

  /** No event has a key that only an unsound event could carry. */
  lemma KeyIsFresh(s: State, e: Event)
    requires EventsSound(s, s.leases) && !KeySound(s.leases, e) && e.key.Some? && IsCounted(e)
    ensures IsFresh(s, e)
  {
    forall x | x in s.ledger.events || x in s.due ensures x.key != e.key { assert KeySound(s.leases, x); }
  }

  function Due(s: State, leases: seq<Lease>, e: Event): State { State(leases, s.due + [e], s.ledger) }

  lemma DueGrows(s: State, leases: seq<Lease>, e: Event)
    requires EventsSound(s, leases) && DueDistinct(s) && IsFresh(s, e) && EventSound(leases, e)
    ensures EventsSound(Due(s, leases, e), leases) && DueDistinct(Due(s, leases, e))
    ensures forall i: nat :: Charged(Due(s, leases, e), i) == Charged(s, i) + HourOf(i)(e)
    ensures forall team: nat :: Processes(Due(s, leases, e), team) == Processes(s, team) + DeltaOf(ProcessCounter(team))(e)
  {
    forall i: nat ensures Charged(Due(s, leases, e), i) == Charged(s, i) + HourOf(i)(e) { SumSnoc(s.due, e, HourOf(i)); }
    forall team: nat ensures Processes(Due(s, leases, e), team) == Processes(s, team) + DeltaOf(ProcessCounter(team))(e) {
      SumSnoc(s.due, e, DeltaOf(ProcessCounter(team)));
    }
  }

  // --- The primitive moves ------------------------------------------------------------------------------

  function Retire(s: State, i: nat, now: int): State
    requires i < |s.leases|
  {
    Due(s, s.leases[i := Released(s.leases[i], now)], ProcessReleaseEvent(i, s.leases[i]))
  }

  lemma ReleasedStaysSound(s: State, i: nat, now: int)
    requires EventsSound(s, s.leases) && i < |s.leases|
    ensures EventsSound(s, s.leases[i := Released(s.leases[i], now)])
  {
    forall e | e in s.ledger.events || e in s.due ensures EventSound(s.leases[i := Released(s.leases[i], now)], e) {
      assert EventSound(s.leases, e);
    }
  }

  lemma RetireKeeps(s: State, i: nat, now: int)
    requires LeaseInvariant(s) && i < |s.leases| && IsOpen(s.leases[i])
    ensures LeaseInvariant(Retire(s, i, now))
    ensures forall k: nat :: Charged(Retire(s, i, now), k) == Charged(s, k)
  {
    var leases, e := s.leases[i := Released(s.leases[i], now)], ProcessReleaseEvent(i, s.leases[i]);
    KeyIsFresh(s, e);
    ReleasedStaysSound(s, i, now);
    DueGrows(s, leases, e);
    forall team: nat ensures Processes(Retire(s, i, now), team) == Count(leases, OpenOf(team)) {
      CountAt(s.leases, i, Released(s.leases[i], now), OpenOf(team));
    }
  }

  function Refund(s: State, i: nat, l: Lease): State { Due(s, s.leases, BlockReleaseEvent(i, l)) }

  lemma RefundKeeps(s: State, i: nat, l: Lease)
    requires LeaseInvariant(s) && i < |s.leases| && s.leases[i].releasedAt.Some? && IsFresh(s, BlockReleaseEvent(i, l))
    ensures LeaseInvariant(Refund(s, i, l))
    ensures forall k: nat :: Charged(Refund(s, i, l), k) == Charged(s, k) - if k == i then 1 else 0
  {
    DueGrows(s, s.leases, BlockReleaseEvent(i, l));
  }

  function Open(s: State, l: Lease, window: int): State {
    var i := |s.leases|;
    Due(Due(s, s.leases + [l], ProcessEvent(i, l)), s.leases + [l], BlockEvent(i, l, window))
  }

  lemma SoundGrows(s: State, l: Lease)
    requires EventsSound(s, s.leases)
    ensures EventsSound(s, s.leases + [l])
  {
    forall e | e in s.ledger.events || e in s.due ensures EventSound(s.leases + [l], e) { assert EventSound(s.leases, e); }
  }

  /** Nothing is charged to a lease that does not exist yet. */
  lemma NothingChargedYet(s: State)
    requires EventsSound(s, s.leases)
    ensures Charged(s, |s.leases|) == 0
  {
    forall e | e in s.ledger.events || e in s.due ensures e.resource != Some(|s.leases|) { assert EventSound(s.leases, e); }
    SumOfNothing(s.ledger.events, HourOf(|s.leases|));
    SumOfNothing(s.due, HourOf(|s.leases|));
  }

  lemma NewKeysAreFresh(s: State, l: Lease, window: int)
    requires EventsSound(s, s.leases)
    ensures IsFresh(s, ProcessEvent(|s.leases|, l))
    ensures IsFresh(Due(s, s.leases + [l], ProcessEvent(|s.leases|, l)), BlockEvent(|s.leases|, l, window))
  {
    KeyIsFresh(s, ProcessEvent(|s.leases|, l));
    KeyIsFresh(s, BlockEvent(|s.leases|, l, window));
  }

  /** Both events of a new lease fall due. */
  lemma OpenCharges(s: State, l: Lease, window: int)
    requires EventsSound(s, s.leases) && DueDistinct(s)
    ensures EventsSound(Open(s, l, window), s.leases + [l]) && DueDistinct(Open(s, l, window))
    ensures forall k: nat :: Charged(Open(s, l, window), k) == Charged(s, k) + if k == |s.leases| then 1 else 0
    ensures forall team: nat :: Processes(Open(s, l, window), team) == Processes(s, team) + if l.team == team then 1 else 0
  {
    var i, leases := |s.leases|, s.leases + [l];
    SoundGrows(s, l);
    NewKeysAreFresh(s, l, window);
    DueGrows(s, leases, ProcessEvent(i, l));
    DueGrows(Due(s, leases, ProcessEvent(i, l)), leases, BlockEvent(i, l, window));
  }

  lemma OpenKeeps(s: State, l: Lease, window: int)
    requires LeaseInvariant(s) && IsOpen(l) && RowSound(l) && Blocks(l) == 1
    requires forall i: nat :: i < |s.leases| ==> !OpenFor(s.leases[i], l.deployment, l.node)
    ensures LeaseInvariant(Open(s, l, window))
    ensures forall k: nat :: k < |s.leases| ==> Charged(Open(s, l, window), k) == Charged(s, k)
  {
    OpenCharges(s, l, window);
    NothingChargedYet(s);
    forall team: nat ensures Processes(Open(s, l, window), team) == Count(s.leases + [l], OpenOf(team)) { CountSnoc(s.leases, l, OpenOf(team)); }
  }

  // --- The operations ----------------------------------------------------------------------------------

  /** A new lease is in its first block. */
  lemma NewLeaseIsSound(deployment: nat, team: nat, node: nat, now: int)
    ensures var l := NewLease(deployment, team, node, now); IsOpen(l) && RowSound(l) && Blocks(l) == 1 && InBlock(l)
  {
  }

  function Freed(s: State, deployment: nat, node: nat, now: int): State {
    var expired := Find(s.leases, |s.leases|, l => ExpiredFor(l, deployment, node, now));
    if expired.Some? then Retire(s, expired.value, now) else s
  }

  /** Whether the acquisition opens a new lease, by the state before it. */
  predicate Opens(s: State, limits: Limits, op: Op) {
    op.OAcquire? && Acquire(s, limits, op.deployment, op.node, op.served, op.team, op.seenLive, op.seenHours, op.window, op.now).Ok?
    && Acquire(s, limits, op.deployment, op.node, op.served, op.team, op.seenLive, op.seenHours, op.window, op.now).value.1 == |s.leases|
  }

  /** A successful acquisition returns the one open lease of the place as it is, or retires an expired one and opens
      another. */
  lemma AcquireShape(s: State, limits: Limits, op: Op)
    requires OneOpenPerPlace(s.leases) && op.OAcquire?
    requires Acquire(s, limits, op.deployment, op.node, op.served, op.team, op.seenLive, op.seenHours, op.window, op.now).Ok?
    ensures var (s', i) := Acquire(s, limits, op.deployment, op.node, op.served, op.team, op.seenLive, op.seenHours, op.window, op.now).value;
            && i < |s'.leases| && OpenFor(s'.leases[i], op.deployment, op.node) && s'.leases[i].expiresAt > op.now
            && (if Opens(s, limits, op)
                then && op.team.Some? && s' == Open(Freed(s, op.deployment, op.node, op.now), NewLease(op.deployment, op.team.value, op.node, op.now), op.window)
                     && !AtLimit(limits, op.team.value, SsrProcesses, op.seenLive)
                     && forall k: nat :: k < |s.leases| ==> !OpenFor(Freed(s, op.deployment, op.node, op.now).leases[k], op.deployment, op.node)
                else s' == s)
  {
    var expired := Find(s.leases, |s.leases|, l => ExpiredFor(l, op.deployment, op.node, op.now));
    if expired.Some? {
      var e := expired.value;
      assert IsOpen(s.leases[e]);
      forall k: nat | k < |s.leases| ensures !OpenFor(Retire(s, e, op.now).leases[k], op.deployment, op.node) {}
    } else {
      assert s.due + [] == s.due;
    }
  }

  lemma FreedKeeps(s: State, deployment: nat, node: nat, now: int)
    requires LeaseInvariant(s)
    ensures LeaseInvariant(Freed(s, deployment, node, now)) && |Freed(s, deployment, node, now).leases| == |s.leases|
    ensures forall k: nat :: Charged(Freed(s, deployment, node, now), k) == Charged(s, k)
    ensures forall k: nat :: k < |s.leases| && !IsOpen(s.leases[k]) ==> Freed(s, deployment, node, now).leases[k] == s.leases[k]
  {
    var expired := Find(s.leases, |s.leases|, l => ExpiredFor(l, deployment, node, now));
    if expired.Some? { RetireKeeps(s, expired.value, now); }
  }

  /** Released leases, their charges and their number are untouched. */
  ghost predicate SparesReleased(s: State, s': State) {
    |s.leases| <= |s'.leases| &&
    forall i: nat :: i < |s.leases| && s.leases[i].releasedAt.Some? ==> s'.leases[i] == s.leases[i] && Charged(s', i) == Charged(s, i)
  }

  lemma AcquireKeeps(s: State, limits: Limits, op: Op)
    requires LeaseInvariant(s) && op.OAcquire?
    ensures LeaseInvariant(Step(s, limits, op)) && SparesReleased(s, Step(s, limits, op))
  {
    if Acquire(s, limits, op.deployment, op.node, op.served, op.team, op.seenLive, op.seenHours, op.window, op.now).Ok? {
      AcquireShape(s, limits, op);
      if Opens(s, limits, op) {
        FreedKeeps(s, op.deployment, op.node, op.now);
        NewLeaseIsSound(op.deployment, op.team.value, op.node, op.now);
        OpenKeeps(Freed(s, op.deployment, op.node, op.now), NewLease(op.deployment, op.team.value, op.node, op.now), op.window);
      }
    }
  }

  /** A renewal comes before the lease expires, so it begins one more block at most. */
  lemma RenewedRow(l: Lease, now: int)
    requires RowSound(l) && now < l.expiresAt
    ensures now < l.hourBlockStart + 2 * HOUR_BLOCK
  {
  }

  lemma LaterBlockStaysSound(s: State, i: nat, l': Lease)
    requires EventsSound(s, s.leases) && i < |s.leases| && l'.releasedAt == s.leases[i].releasedAt
    requires UnixSecond(l'.hourBlockStart) >= UnixSecond(s.leases[i].hourBlockStart)
    ensures EventsSound(s, s.leases[i := l'])
  {
    forall e | e in s.ledger.events || e in s.due ensures EventSound(s.leases[i := l'], e) { assert EventSound(s.leases, e); }
  }

  lemma NextBlockKeeps(s: State, i: nat, l': Lease, window: int)
    requires LeaseInvariant(s) && i < |s.leases| && IsOpen(s.leases[i]) && RowSound(l')
    requires l' == s.leases[i].(renewedAt := l'.renewedAt, expiresAt := l'.expiresAt, hourBlockStart := s.leases[i].hourBlockStart + HOUR_BLOCK)
    ensures LeaseInvariant(Due(s, s.leases[i := l'], BlockEvent(i, l', window)))
    ensures forall k: nat :: k != i ==> Charged(Due(s, s.leases[i := l'], BlockEvent(i, l', window)), k) == Charged(s, k)
  {
    var leases, e := s.leases[i := l'], BlockEvent(i, l', window);
    assert UnixSecond(l'.hourBlockStart) == UnixSecond(s.leases[i].hourBlockStart) + 3600;
    KeyIsFresh(s, e);
    LaterBlockStaysSound(s, i, l');
    DueGrows(s, leases, e);
    assert Blocks(l') == Blocks(s.leases[i]) + 1;
    forall team: nat ensures Processes(Due(s, leases, e), team) == Count(leases, OpenOf(team)) { CountAt(s.leases, i, l', OpenOf(team)); }
  }

  lemma SameBlockKeeps(s: State, i: nat, l': Lease)
    requires LeaseInvariant(s) && i < |s.leases| && IsOpen(s.leases[i]) && RowSound(l')
    requires l' == s.leases[i].(renewedAt := l'.renewedAt, expiresAt := l'.expiresAt)
    ensures LeaseInvariant(s.(leases := s.leases[i := l']))
    ensures forall k: nat :: Charged(s.(leases := s.leases[i := l']), k) == Charged(s, k)
  {
    var s' := s.(leases := s.leases[i := l']);
    assert EventsSound(s', s'.leases);
    forall team: nat ensures Processes(s', team) == Count(s'.leases, OpenOf(team)) { CountAt(s.leases, i, l', OpenOf(team)); }
  }

  lemma RenewKeeps(s: State, limits: Limits, op: Op)
    requires LeaseInvariant(s) && op.ORenew?
    ensures LeaseInvariant(Step(s, limits, op)) && SparesReleased(s, Step(s, limits, op))
  {
    if Renew(s, limits, op.lease, op.deployment, op.node, op.team, op.seenHours, op.window, op.now).Ok? {
      var l := s.leases[op.lease];
      var l' := Step(s, limits, op).leases[op.lease];
      RenewedRow(l, op.now);
      if op.now >= l.hourBlockStart + HOUR_BLOCK { NextBlockKeeps(s, op.lease, l', op.window); } else { SameBlockKeeps(s, op.lease, l'); }
    }
  }

  lemma RefundIsFresh(s: State, i: nat, now: int)
    requires EventsSound(s, s.leases) && i < |s.leases| && IsOpen(s.leases[i])
    ensures IsFresh(Retire(s, i, now), BlockReleaseEvent(i, s.leases[i]))
  {
    KeyIsFresh(s, BlockReleaseEvent(i, s.leases[i]));
  }

  lemma ReleaseKeeps(s: State, i: nat, deployment: nat, node: nat, now: int, s': State)
    requires LeaseInvariant(s) && ReleaseLease(s, i, deployment, node, now) == Ok((s', true))
    ensures LeaseInvariant(s') && SparesReleased(s, s') && s'.leases == s.leases[i := Released(s.leases[i], now)]
    ensures Charged(s', i) == Blocks(s.leases[i]) - if now < s.leases[i].hourBlockStart + HOUR_BLOCK then 1 else 0
  {
    var l := s.leases[i];
    RetireKeeps(s, i, now);
    if now < l.hourBlockStart + HOUR_BLOCK {
      RefundIsFresh(s, i, now);
      RefundKeeps(Retire(s, i, now), i, l);
    } else {
      assert Retire(s, i, now).due + [] == Retire(s, i, now).due;
    }
  }

  /** Recording moves an event from what is due to the log and changes no sum. */
  lemma RecordMoves(s: State, k: nat, read: Read, window: int, s': State)
    requires EventsSound(s, s.leases) && DueDistinct(s) && k < |s.due| && RecordDue(s, k, read, window) == Ok(s')
    ensures s'.leases == s.leases && s'.due == Without(s.due, k) && s'.ledger.events == s.ledger.events + [s.due[k].(window := window)]
    ensures forall i: nat :: Charged(s', i) == Charged(s, i)
    ensures forall team: nat :: Processes(s', team) == Processes(s, team)
  {
    var e := s.due[k];
    assert !Repeats(s.ledger, e.(window := window));
    forall i: nat ensures Charged(s', i) == Charged(s, i) {
      SumSnoc(s.ledger.events, e.(window := window), HourOf(i));
      SumWithout(s.due, k, HourOf(i));
    }
    forall team: nat ensures Processes(s', team) == Processes(s, team) { ProcessMoves(s, k, window, team); }
  }

  /** The process counter is not monthly, so the month in which the event is recorded does not matter. */
  lemma ProcessMoves(s: State, k: nat, window: int, team: nat)
    requires k < |s.due|
    ensures var c := ProcessCounter(team);
            SumBy(s.ledger.events + [s.due[k].(window := window)], DeltaOf(c)) + SumBy(Without(s.due, k), DeltaOf(c)) == Processes(s, team)
  {
    SumSnoc(s.ledger.events, s.due[k].(window := window), DeltaOf(ProcessCounter(team)));
    SumWithout(s.due, k, DeltaOf(ProcessCounter(team)));
  }

  lemma WithoutIn(due: seq<Event>, k: nat, e: Event)
    requires k < |due| && e in Without(due, k) && forall a: nat, b: nat :: a < b < |due| ==> due[a].key != due[b].key
    ensures e in due && e.key != due[k].key
  {
    var a: nat :| a < |Without(due, k)| && Without(due, k)[a] == e;
    assert e == due[if a < k then a else a + 1];
  }

  lemma WithoutDistinct(due: seq<Event>, k: nat)
    requires k < |due| && forall a: nat, b: nat :: a < b < |due| ==> due[a].key != due[b].key
    ensures forall a: nat, b: nat :: a < b < |Without(due, k)| ==> Without(due, k)[a].key != Without(due, k)[b].key
  {
    forall a: nat, b: nat | a < b < |Without(due, k)| ensures Without(due, k)[a].key != Without(due, k)[b].key {
      assert due[if a < k then a else a + 1].key != due[if b < k then b else b + 1].key;
    }
  }

  lemma WithoutKeepsDistinct(s: State, k: nat, s': State)
    requires EventsSound(s, s.leases) && DueDistinct(s) && k < |s.due|
    requires s'.due == Without(s.due, k) && |s'.ledger.events| == |s.ledger.events| + 1
    requires s'.ledger.events == s.ledger.events + [s.due[k].(window := s'.ledger.events[|s.ledger.events|].window)]
    ensures EventsSound(s', s.leases) && DueDistinct(s')
  {
    WithoutDistinct(s.due, k);
    forall e | e in s'.ledger.events ensures EventSound(s.leases, e) {
      if e !in s.ledger.events { assert s.due[k] in s.due && EventSound(s.leases, s.due[k]); }
    }
    forall e | e in s'.due ensures e in s.due && e.key != s.due[k].key { WithoutIn(s.due, k, e); }
  }

  lemma RecordKeeps(s: State, k: nat, read: Read, window: int, s': State)
    requires LeaseInvariant(s) && k < |s.due| && RecordDue(s, k, read, window) == Ok(s')
    ensures LeaseInvariant(s') && SparesReleased(s, s')
  {
    RecordMoves(s, k, read, window, s');
    WithoutKeepsDistinct(s, k, s');
  }

  lemma StepKeeps(s: State, limits: Limits, op: Op)
    requires LeaseInvariant(s)
    ensures LeaseInvariant(Step(s, limits, op)) && SparesReleased(s, Step(s, limits, op))
  {
    match op {
      case OAcquire(_, _, _, _, _, _, _, _, _) => AcquireKeeps(s, limits, op);
      case ORenew(_, _, _, _, _, _, _, _) => RenewKeeps(s, limits, op);
      case ORelease(i, d, n, now, _) =>
        var r := ReleaseLease(s, i, d, n, now);
        if r.Ok? && r.value.1 { ReleaseKeeps(s, i, d, n, now, r.value.0); }
      case ORecord(k, read, window, _) =>
        if k < |s.due| {
          var r := RecordDue(s, k, read, window);
          if r.Ok? { RecordKeeps(s, k, read, window, r.value); }
        }
    }
  }

  lemma {:induction false} RunKeeps(limits: Limits, ops: seq<Op>)
    ensures LeaseInvariant(Run(limits, ops))
  {
    if ops != [] {
      RunKeeps(limits, ops[..|ops| - 1]);
      StepKeeps(Run(limits, ops[..|ops| - 1]), limits, ops[|ops| - 1]);
    }
  }

  // --- What leases are charged ----------------------------------------------------------------------------

  /** The block of the lease contains its last renewal. */
  predicate InBlock(l: Lease) { l.hourBlockStart <= l.renewedAt }

  /** One block for each hour begun at the last renewal. */
  lemma BlocksAreHours(l: Lease)
    requires RowSound(l)
    ensures Blocks(l) == WholeHours(l.renewedAt - l.startedAt) + 1 <==> InBlock(l)
  {
  }

  /** A renewal commits with a time from before the block of its lease: a later one has begun that block meanwhile. */
  predicate RenewsEarlier(s: State, limits: Limits, op: Op) {
    && op.ORenew? && Renew(s, limits, op.lease, op.deployment, op.node, op.team, op.seenHours, op.window, op.now).Ok?
    && op.now < s.leases[op.lease].hourBlockStart
  }

  ghost predicate AllInBlock(s: State) {
    forall i: nat :: i < |s.leases| ==> InBlock(s.leases[i])
  }

  lemma StepDecidesBlocks(s: State, limits: Limits, op: Op)
    requires LeaseInvariant(s) && AllInBlock(s)
    ensures AllInBlock(Step(s, limits, op)) <==> !RenewsEarlier(s, limits, op)
  {
    var s' := Step(s, limits, op);
    if op.ORenew? && Renew(s, limits, op.lease, op.deployment, op.node, op.team, op.seenHours, op.window, op.now).Ok? {
      assert s'.leases[op.lease].renewedAt == op.now;
    } else if op.OAcquire? {
      AcquireStaysInBlock(s, limits, op);
    }
  }

  lemma AcquireStaysInBlock(s: State, limits: Limits, op: Op)
    requires LeaseInvariant(s) && AllInBlock(s) && op.OAcquire?
    ensures AllInBlock(Step(s, limits, op))
  {
    if Acquire(s, limits, op.deployment, op.node, op.served, op.team, op.seenLive, op.seenHours, op.window, op.now).Ok? { AcquireShape(s, limits, op); }
  }

  ghost predicate NeverRenewsEarlier(limits: Limits, ops: seq<Op>) {
    forall k: nat :: k < |ops| ==> !RenewsEarlier(Run(limits, ops[..k]), limits, ops[k])
  }

  /** Every lease, released or not, has begun one block for each hour at its last renewal, in every state of a run, if
      and only if no renewal of the run commits a time from before the block of its lease. */
  lemma BlocksFollowRenewals(limits: Limits, ops: seq<Op>)
    ensures (forall k: nat :: k <= |ops| ==> AllInBlock(Run(limits, ops[..k]))) <==> NeverRenewsEarlier(limits, ops)
  {
    if forall k: nat :: k <= |ops| ==> AllInBlock(Run(limits, ops[..k])) {
      forall k: nat | k < |ops| ensures !RenewsEarlier(Run(limits, ops[..k]), limits, ops[k]) {
        RunPrefix(limits, ops, k);
        RunKeeps(limits, ops[..k]);
        assert AllInBlock(Run(limits, ops[..k])) && AllInBlock(Run(limits, ops[..k + 1]));
        StepDecidesBlocks(Run(limits, ops[..k]), limits, ops[k]);
      }
    }
    if NeverRenewsEarlier(limits, ops) {
      forall k: nat | k <= |ops| ensures AllInBlock(Run(limits, ops[..k])) { InBlockAfter(limits, ops, k); }
    }
  }

  lemma {:induction false} InBlockAfter(limits: Limits, ops: seq<Op>, k: nat)
    requires NeverRenewsEarlier(limits, ops) && k <= |ops|
    ensures AllInBlock(Run(limits, ops[..k]))
  {
    if k > 0 {
      InBlockAfter(limits, ops, k - 1);
      RunPrefix(limits, ops, k - 1);
      RunKeeps(limits, ops[..k - 1]);
      StepDecidesBlocks(Run(limits, ops[..k - 1]), limits, ops[k - 1]);
    }
  }

  /** However often, early or late a lease is renewed: its last renewal is before the end of its block, and while it is
      unreleased it has been charged, in events recorded and due, one hour for each block it has begun. Those are the
      hours begun at its last renewal if and only if that is not before the block. */
  lemma LeasesAreChargedExactly(limits: Limits, ops: seq<Op>, s: State, i: nat)
    requires s == Run(limits, ops) && i < |s.leases|
    ensures var l := s.leases[i];
            && l.renewedAt < l.hourBlockStart + HOUR_BLOCK && l.hourBlockStart == l.startedAt + (Blocks(l) - 1) * 3_600_000_000
            && (l.releasedAt.None? ==> Charged(s, i) == Blocks(l))
            && (l.releasedAt.None? ==> (Charged(s, i) == WholeHours(l.renewedAt - l.startedAt) + 1 <==> l.hourBlockStart <= l.renewedAt))
  {
    RunKeeps(limits, ops);
    BlocksAreHours(s.leases[i]);
  }

  /** What a released lease has to pay: the hours it ran, up to the blocks it had begun. */
  function HoursOwed(l: Lease, now: int): int {
    var ran := WholeHours(now - l.startedAt);
    if ran < Blocks(l) then ran else Blocks(l)
  }

  lemma OwedHours(l: Lease, now: int)
    requires RowSound(l)
    ensures HoursOwed(l, now) == Blocks(l) - (if now < l.hourBlockStart + HOUR_BLOCK then 1 else 0) <==> now >= l.hourBlockStart
    ensures InBlock(l) && now < l.expiresAt && now >= l.hourBlockStart ==> HoursOwed(l, now) == WholeHours(now - l.startedAt)
  {
  }

  /** A release leaves a lease charged the hours it ran, up to the blocks it had begun, if and only if its time is not from
      before the block; and when it comes before the lease expires, exactly its whole hours. */
  lemma ReleaseSettlesExactly(limits: Limits, ops: seq<Op>, s: State, i: nat, deployment: nat, node: nat, now: int, s': State)
    requires s == Run(limits, ops) && i < |s.leases| && ReleaseLease(s, i, deployment, node, now) == Ok((s', true))
    ensures Charged(s', i) == HoursOwed(s.leases[i], now) <==> now >= s.leases[i].hourBlockStart
    ensures s.leases[i].hourBlockStart <= s.leases[i].renewedAt <= now < s.leases[i].expiresAt ==>
              Charged(s', i) == WholeHours(now - s.leases[i].startedAt)
  {
    RunKeeps(limits, ops);
    ReleaseKeeps(s, i, deployment, node, now, s');
    OwedHours(s.leases[i], now);
  }

  /** A lease that `acquire` returns is live and belongs to the place that asked for it. */
  lemma AcquiredIsLive(limits: Limits, ops: seq<Op>, op: Op)
    requires op.OAcquire?
    requires Acquire(Run(limits, ops), limits, op.deployment, op.node, op.served, op.team, op.seenLive, op.seenHours, op.window, op.now).Ok?
    ensures var (s', i) := Acquire(Run(limits, ops), limits, op.deployment, op.node, op.served, op.team, op.seenLive, op.seenHours, op.window, op.now).value;
            i < |s'.leases| && OpenFor(s'.leases[i], op.deployment, op.node) && IsLive(s'.leases[i], op.now)
  {
    RunKeeps(limits, ops);
    AcquireShape(Run(limits, ops), limits, op);
  }

  /** Nothing changes a released lease or what it is charged in all. */
  lemma ReleasedIsFinal(limits: Limits, ops: seq<Op>, op: Op, i: nat)
    requires i < |Run(limits, ops).leases| && Run(limits, ops).leases[i].releasedAt.Some?
    ensures var s := Run(limits, ops); var s' := Step(s, limits, op);
            i < |s'.leases| && s'.leases[i] == s.leases[i] && Charged(s', i) == Charged(s, i)
  {
    RunKeeps(limits, ops);
    StepKeeps(Run(limits, ops), limits, op);
  }
}
