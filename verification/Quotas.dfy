/** The quota ledger: events with idempotency keys, folded into usage counters that never go below zero
    (apps/control-api/src/domain/quotas.rs). */
module Quotas {
  import opened Basics

  datatype Dimension =
    | Projects | ProjectsStatic | ProjectsSsr | Members | Hosts | DeploymentsMonthly | BuildMinutesMonthly
    | BuildTimeoutSeconds | StorageMb | ArtifactMaxMb | ConcurrentBuilds | SsrProcesses | SsrHoursMonthly

  datatype EventKind = Reserve | Consume | Release | Deny | Adjust

  /** The keys the lease service formats, and any other text. */
  datatype EventKey =
    | ProcessKey(lease: nat)
    | ProcessReleaseKey(lease: nat)
    | HourKey(lease: nat, blockSecond: int)
    | HourReleaseKey(lease: nat, blockSecond: int)
    | TextKey(text: string)

  /** A request to record an event. `window` is the start of the month in which it is recorded. */
  datatype Event = Event(
    team: nat, dimension: Dimension, kind: EventKind, delta: int, resource: Option<nat>, key: Option<EventKey>, window: int)

  /** The row of a usage counter: monthly dimensions have one row a month. */
  datatype CounterId = CounterId(team: nat, dimension: Dimension, window: Option<int>)

  datatype Row = Row(id: CounterId, used: int)

  /** `events` are the log entries whose counter was written, in the order of those writes. Entries without a key
      are not written together with their counter: `waiting` are those whose counter is still to be written. */
  datatype Ledger = Ledger(events: seq<Event>, waiting: seq<Event>, rows: seq<Row>)

  const EMPTY := Ledger([], [], [])

  /** What the query for a counter row returned to a recorder, which may be outdated when it writes. */
  datatype Read = NoRow | RowRead(row: nat, used: int)

  datatype RecordError = DuplicateRow | RowMissing

  predicate IsMonthly(d: Dimension) {
    d.DeploymentsMonthly? || d.BuildMinutesMonthly? || d.SsrHoursMonthly?
  }

  predicate IsCounted(e: Event) {
    e.kind.Consume? || e.kind.Release? || e.kind.Adjust?
  }

  function CounterOf(team: nat, dimension: Dimension, window: int): CounterId {
    CounterId(team, dimension, if IsMonthly(dimension) then Some(window) else None)
  }

  function CounterFor(e: Event): CounterId {
    CounterOf(e.team, e.dimension, e.window)
  }

  function Clamp(x: int): int { if x < 0 then 0 else x }

  /** Some row of the counter, as the query without an order returns it. */
  function RowOf(rows: seq<Row>, k: nat, c: CounterId): (found: Option<nat>)
    requires k <= |rows|
    ensures found.Some? ==> found.value < k && rows[found.value].id == c
    ensures found.None? ==> forall i: nat :: i < k ==> rows[i].id != c
  {
    if k == 0 then None else if rows[k - 1].id == c then Some(k - 1) else RowOf(rows, k - 1, c)
  }

  function CurrentRead(rows: seq<Row>, c: CounterId): Read {
    match RowOf(rows, |rows|, c)
    case None => NoRow
    case Some(r) => RowRead(r, rows[r].used)
  }

  function Used(ledger: Ledger, c: CounterId): int {
    match CurrentRead(ledger.rows, c)
    case NoRow => 0
    case RowRead(_, used) => used
  }

  /** The counter is written as an absolute value computed from what was read. A second row of a monthly counter
      violates the unique index; of other counters it does not, because their period is null. */
  function WriteCounter(rows: seq<Row>, c: CounterId, delta: int, read: Read): Result<seq<Row>, RecordError> {
    match read
    case NoRow =>
      if c.window.Some? && RowOf(rows, |rows|, c).Some? then Err(DuplicateRow) else Ok(rows + [Row(c, Clamp(delta))])
    case RowRead(r, used) =>
      if r < |rows| && rows[r].id == c then Ok(rows[r := Row(c, Clamp(used + delta))]) else Err(RowMissing)
  }

  predicate HasKey(events: seq<Event>, key: EventKey) {
    exists k :: 0 <= k < |events| && events[k].key == Some(key)
  }

  function Append(ledger: Ledger, e: Event, read: Read): Result<Ledger, RecordError> {
    if !IsCounted(e) then Ok(ledger.(events := ledger.events + [e]))
    else
      var rows :- WriteCounter(ledger.rows, CounterFor(e), e.delta, read);
      Ok(ledger.(events := ledger.events + [e], rows := rows))
  }

  predicate Repeats(ledger: Ledger, e: Event) {
    e.key.Some? && HasKey(ledger.events, e.key.value)
  }

  /** Event and counter in one transaction. The unique index refuses a second event with the same key; that is a
      successful no-op. */
  function RecordOnce(ledger: Ledger, e: Event, read: Read): Result<Ledger, RecordError> {
    if Repeats(ledger, e) then Ok(ledger) else Append(ledger, e, read)
  }

  /** An event without a key is written by itself first. */
  function InsertEvent(ledger: Ledger, e: Event): Ledger {
    if IsCounted(e) then ledger.(waiting := ledger.waiting + [e]) else ledger.(events := ledger.events + [e])
  }

  function Without<T>(s: seq<T>, k: nat): seq<T>
    requires k < |s|
  {
    s[..k] + s[k + 1..]
  }

  /** Its counter is written later, or never. */
  function WriteWaiting(ledger: Ledger, k: nat, read: Read): Result<Ledger, RecordError>
    requires k < |ledger.waiting|
  {
    var written :- Append(ledger, ledger.waiting[k], read);
    Ok(written.(waiting := Without(ledger.waiting, k)))
  }

  /** What recording an event answers and writes. A repeated key is a no-op. Reservations and denials enter the log and change no
      counter. The others write the counter of their team and dimension, in the month for the three monthly dimensions, at least
      zero: a new row, which only a monthly counter cannot have twice, or the row that was read, if it is still there. */
  lemma RecordAnswers(ledger: Ledger, e: Event, read: Read)
    ensures var r := RecordOnce(ledger, e, read);
            var id := CounterId(e.team, e.dimension,
                                if e.dimension in {DeploymentsMonthly, BuildMinutesMonthly, SsrHoursMonthly} then Some(e.window) else None);
            var logged := ledger.(events := ledger.events + [e]);
            if e.key.Some? && (exists k :: 0 <= k < |ledger.events| && ledger.events[k].key == e.key) then r == Ok(ledger)
            else if e.kind in {Reserve, Deny} then r == Ok(logged)
            else if read.NoRow? then
              if id.window.Some? && (exists k :: 0 <= k < |ledger.rows| && ledger.rows[k].id == id) then r == Err(DuplicateRow)
              else r == Ok(logged.(rows := ledger.rows + [Row(id, if e.delta > 0 then e.delta else 0)]))
            else if read.row < |ledger.rows| && ledger.rows[read.row].id == id then
              r == Ok(logged.(rows := ledger.rows[read.row := Row(id, if read.used + e.delta > 0 then read.used + e.delta else 0)]))
            else r == Err(RowMissing)
  {
  }

  /** An event without a key that changes a counter waits for it; when the counter is written the event enters the log and waits no
      more, and until then nothing but the waiting ones changes. */
  lemma UnkeyedAnswers(ledger: Ledger, e: Event, k: nat, read: Read)
    requires k < |ledger.waiting| && IsCounted(ledger.waiting[k]) && ledger.waiting[k].key.None?
    ensures InsertEvent(ledger, e) == if e.kind in {Reserve, Deny} then ledger.(events := ledger.events + [e])
                                      else ledger.(waiting := ledger.waiting + [e])
    ensures var r, recorded := WriteWaiting(ledger, k, read), RecordOnce(ledger, ledger.waiting[k], read);
            && (r.Err? ==> recorded.Err? && r.error == recorded.error)
            && (r.Ok? ==> recorded.Ok? && r.value == recorded.value.(waiting := ledger.waiting[..k] + ledger.waiting[k + 1..]))
  {
  }

  function LimitFor(limits: map<(nat, Dimension), int>, team: nat, d: Dimension): Option<int> {
    if (team, d) in limits && limits[(team, d)] >= 0
       && (!(d.SsrProcesses? || d.SsrHoursMonthly?) || limits[(team, d)] > 0)
    then Some(limits[(team, d)]) else None
  }

  // --- The table, updated in place -------------------------------------------------------------

  class LedgerTable {
    var events: seq<Event>
    var waiting: seq<Event>
    var rows: seq<Row>

    ghost function Contents(): Ledger
      reads this
    {
      Ledger(events, waiting, rows)
    }

    constructor ()
      ensures Contents() == EMPTY
    {
      events, waiting, rows := [], [], [];
    }

    method ReadRow(c: CounterId) returns (read: Read)
      ensures read == CurrentRead(rows, c)
    {
      var k := |rows|;
      while k > 0
        invariant 0 <= k <= |rows|
        invariant RowOf(rows, k, c) == RowOf(rows, |rows|, c)
      {
        if rows[k - 1].id == c { return RowRead(k - 1, rows[k - 1].used); }
        k := k - 1;
      }
      read := NoRow;
    }

    /** `read` is what `ReadRow` returned before; other transactions may have committed in between. */
    method ApplyDelta(c: CounterId, delta: int, read: Read) returns (r: Result<(), RecordError>)
      modifies this`rows
      ensures match WriteCounter(old(rows), c, delta, read)
              case Ok(written) => r.Ok? && rows == written
              case Err(error) => r == Err(error) && rows == old(rows)
    {
      if read.RowRead? {
        if read.row >= |rows| || rows[read.row].id != c { return Err(RowMissing); }
        var next := read.used + delta;
        if next < 0 { next := 0; }
        rows := rows[read.row := Row(c, next)];
      } else {
        var present := ReadRow(c);
        if c.window.Some? && present.RowRead? { return Err(DuplicateRow); }
        rows := rows + [Row(c, if delta < 0 then 0 else delta)];
      }
      r := Ok(());
    }

    /** Whether the event was recorded; after an error nothing is. */
    method RecordOnceRow(e: Event, read: Read) returns (r: Result<bool, RecordError>)
      modifies this
      ensures match RecordOnce(old(Contents()), e, read)
              case Ok(recorded) => r == Ok(!Repeats(old(Contents()), e)) && Contents() == recorded
              case Err(error) => r == Err(error) && Contents() == old(Contents())
    {
      if e.key.Some? {
        var k := 0;
        while k < |events| && events[k].key != e.key
          invariant 0 <= k <= |events|
          invariant forall i :: 0 <= i < k ==> events[i].key != e.key
        {
          k := k + 1;
        }
        if k < |events| { return Ok(false); }
      }
      if IsCounted(e) {
        var applied := ApplyDelta(CounterFor(e), e.delta, read);
        if applied.Err? { return Err(applied.error); }
      }
      events := events + [e];
      r := Ok(true);
    }

    /** An event without a key: first the log entry alone, ... */
    method InsertRow(e: Event)
      modifies this`events, this`waiting
      ensures Contents() == InsertEvent(old(Contents()), e)
    {
      if IsCounted(e) { waiting := waiting + [e]; } else { events := events + [e]; }
    }

    /** ... then its counter. */
    method WriteWaitingRow(k: nat, read: Read) returns (r: Result<(), RecordError>)
      requires k < |waiting|
      modifies this
      ensures match WriteWaiting(old(Contents()), k, read)
              case Ok(written) => r.Ok? && Contents() == written
              case Err(error) => r == Err(error) && Contents() == old(Contents())
    {
      var e := waiting[k];
      if IsCounted(e) {
        r := ApplyDelta(CounterFor(e), e.delta, read);
        if r.Err? { return; }
      }
      events := events + [e];
      waiting := waiting[..k] + waiting[k + 1..];
      r := Ok(());
    }
  }

  // --- Runs ---------------------------------------------------------------------------------------

  datatype LedgerOp =
    | LRecord(event: Event, read: Read)
    | LInsert(event: Event)
    | LWrite(entry: nat, read: Read)

  function LedgerStep(ledger: Ledger, op: LedgerOp): Ledger {
    match op
    case LRecord(e, read) => var r := RecordOnce(ledger, e, read); if r.Ok? then r.value else ledger
    case LInsert(e) => if e.key.None? then InsertEvent(ledger, e) else ledger
    case LWrite(k, read) =>
      if k >= |ledger.waiting| then ledger else var r := WriteWaiting(ledger, k, read); if r.Ok? then r.value else ledger
  }

  function LedgerRun(ops: seq<LedgerOp>): Ledger {
    if ops == [] then EMPTY else LedgerStep(LedgerRun(ops[..|ops| - 1]), ops[|ops| - 1])
  }

  lemma LedgerPrefix(ops: seq<LedgerOp>, k: nat)
    requires k < |ops|
    ensures LedgerRun(ops[..k + 1]) == LedgerStep(LedgerRun(ops[..k]), ops[k])
  {
    assert ops[..k + 1][..k] == ops[..k];
  }

  /** The event that the operation commits to the log, new or repeated. */
  function Commits(ledger: Ledger, op: LedgerOp): Option<Event> {
    match op
    case LRecord(e, read) => if RecordOnce(ledger, e, read).Ok? then Some(e) else None
    case LInsert(e) => if e.key.None? && !IsCounted(e) then Some(e) else None
    case LWrite(k, read) =>
      if k < |ledger.waiting| && WriteWaiting(ledger, k, read).Ok? then Some(ledger.waiting[k]) else None
  }

  function Committed(ops: seq<LedgerOp>): seq<Event> {
    if ops == [] then []
    else
      var before := ops[..|ops| - 1];
      var e := Commits(LedgerRun(before), ops[|ops| - 1]);
      if e.Some? then Committed(before) + [e.value] else Committed(before)
  }

  // --- What the counters mean ---------------------------------------------------------------------

  /** The requests without those that repeat an earlier key. */
  function Deduplicated(requests: seq<Event>): seq<Event> {
    if requests == [] then []
    else
      var before, last := requests[..|requests| - 1], requests[|requests| - 1];
      if last.key.Some? && HasKey(before, last.key.value) then Deduplicated(before) else Deduplicated(before) + [last]
  }

  /** The deltas that count toward one counter, in order. */
  function DeltasOf(events: seq<Event>, c: CounterId): seq<int> {
    if events == [] then []
    else
      var before, last := DeltasOf(events[..|events| - 1], c), events[|events| - 1];
      if IsCounted(last) && CounterFor(last) == c then before + [last.delta] else before
  }

  function ClampedFold(deltas: seq<int>): int {
    if deltas == [] then 0 else Clamp(ClampedFold(deltas[..|deltas| - 1]) + deltas[|deltas| - 1])
  }

  function Total(deltas: seq<int>): int {
    if deltas == [] then 0 else Total(deltas[..|deltas| - 1]) + deltas[|deltas| - 1]
  }

  /** The smallest total of any prefix; at most zero, because the empty prefix counts. */
  function LowestPrefix(deltas: seq<int>): int {
    if deltas == [] then 0
    else
      var low := LowestPrefix(deltas[..|deltas| - 1]);
      if Total(deltas) < low then Total(deltas) else low
  }

  lemma {:induction false} LowestIsLowest(deltas: seq<int>)
    ensures LowestPrefix(deltas) <= 0
    ensures exists k :: 0 <= k <= |deltas| && LowestPrefix(deltas) == Total(deltas[..k])
    ensures forall k :: 0 <= k <= |deltas| ==> LowestPrefix(deltas) <= Total(deltas[..k])
  {
    if deltas == [] {
      assert Total(deltas[..0]) == 0;
    } else {
      var before := deltas[..|deltas| - 1];
      LowestIsLowest(before);
      PrefixesOf(deltas);
      assert deltas[..|deltas|] == deltas;
      var k :| 0 <= k <= |before| && LowestPrefix(before) == Total(before[..k]);
      assert before[..k] == deltas[..k];
    }
  }

  lemma PrefixesOf(deltas: seq<int>)
    requires deltas != []
    ensures forall k :: 0 <= k < |deltas| ==> deltas[..|deltas| - 1][..k] == deltas[..k]
  {
  }

  /** Clamping at every step leaves the total less the lowest total of any prefix. */
  lemma {:induction false} ClampedClosedForm(deltas: seq<int>)
    ensures ClampedFold(deltas) == Total(deltas) - LowestPrefix(deltas)
    ensures LowestPrefix(deltas) <= 0 && exists k :: 0 <= k <= |deltas| && LowestPrefix(deltas) == Total(deltas[..k])
    ensures forall k :: 0 <= k <= |deltas| ==> LowestPrefix(deltas) <= Total(deltas[..k])
  {
    LowestIsLowest(deltas);
    if deltas != [] { ClampedClosedForm(deltas[..|deltas| - 1]); }
  }

  /** Only entries without a key wait for their counter. */
  predicate WaitingUnkeyed(ledger: Ledger) {
    forall e :: e in ledger.waiting ==> e.key.None? && IsCounted(e)
  }

  lemma {:induction false} RunKeepsWaiting(ops: seq<LedgerOp>)
    ensures WaitingUnkeyed(LedgerRun(ops))
  {
    if ops != [] { RunKeepsWaiting(ops[..|ops| - 1]); }
  }

  /** Over any operations with any reads the log is the sequence of committed events without repeated keys. */
  lemma {:induction false} EventsAreDeduplicated(ops: seq<LedgerOp>)
    ensures LedgerRun(ops).events == Deduplicated(Committed(ops))
    ensures forall key :: HasKey(Deduplicated(Committed(ops)), key) <==> HasKey(Committed(ops), key)
  {
    if ops != [] {
      var before, op := ops[..|ops| - 1], ops[|ops| - 1];
      EventsAreDeduplicated(before);
      RunKeepsWaiting(before);
      var e := Commits(LedgerRun(before), op);
      if e.Some? { CommitIsDeduplicated(LedgerRun(before), op, Committed(before), e.value); }
    }
  }

  lemma CommitAppends(ledger: Ledger, op: LedgerOp, e: Event)
    requires WaitingUnkeyed(ledger) && Commits(ledger, op) == Some(e)
    ensures LedgerStep(ledger, op).events == if Repeats(ledger, e) then ledger.events else ledger.events + [e]
  {
    if op.LWrite? { assert ledger.waiting[op.entry] in ledger.waiting; }
  }

  lemma CommitIsDeduplicated(ledger: Ledger, op: LedgerOp, before: seq<Event>, e: Event)
    requires WaitingUnkeyed(ledger) && Commits(ledger, op) == Some(e)
    requires ledger.events == Deduplicated(before) && forall key :: HasKey(Deduplicated(before), key) <==> HasKey(before, key)
    ensures LedgerStep(ledger, op).events == Deduplicated(before + [e])
    ensures forall key :: HasKey(Deduplicated(before + [e]), key) <==> HasKey(before + [e], key)
  {
    assert (before + [e])[..|before|] == before;
    CommitAppends(ledger, op, e);
    forall key
      ensures HasKey(before + [e], key) <==> HasKey(before, key) || e.key == Some(key)
      ensures HasKey(Deduplicated(before) + [e], key) <==> HasKey(before, key) || e.key == Some(key)
    {
      KeysSnoc(before, e, key);
      KeysSnoc(Deduplicated(before), e, key);
    }
  }

  lemma KeysSnoc(events: seq<Event>, e: Event, key: EventKey)
    ensures HasKey(events + [e], key) <==> HasKey(events, key) || e.key == Some(key)
  {
    if HasKey(events, key) {
      var k :| 0 <= k < |events| && events[k].key == Some(key);
      assert (events + [e])[k].key == Some(key);
    }
    if e.key == Some(key) { assert (events + [e])[|events|].key == Some(key); }
  }

  lemma DeltasSnoc(events: seq<Event>, e: Event, c: CounterId)
    ensures DeltasOf(events + [e], c) == DeltasOf(events, c) + if IsCounted(e) && CounterFor(e) == c then [e.delta] else []
  {
    assert (events + [e])[..|events|] == events;
  }

  lemma FoldSnoc(deltas: seq<int>, delta: int)
    ensures ClampedFold(deltas + [delta]) == Clamp(ClampedFold(deltas) + delta)
    ensures Total(deltas + [delta]) == Total(deltas) + delta
  {
    assert (deltas + [delta])[..|deltas|] == deltas;
  }

  // --- When the counters are right -----------------------------------------------------------------

  ghost predicate OneRow(rows: seq<Row>) {
    forall i: nat, k: nat :: i < |rows| && k < |rows| && i != k ==> rows[i].id != rows[k].id
  }

  /** Every counter has one row at most, and that holds the clamped fold of its deltas in the log. */
  ghost predicate Folded(ledger: Ledger) {
    OneRow(ledger.rows) && forall c: CounterId :: Used(ledger, c) == ClampedFold(DeltasOf(ledger.events, c))
  }

  /** What is about to be written for `e` is not what the counter holds by now plus the delta: the read missed a row
      that is not monthly, or the value it read gives another result. */
  predicate Outdated(ledger: Ledger, e: Event, read: Read) {
    IsCounted(e) &&
    match read
    case NoRow => CounterFor(e).window.None? && RowOf(ledger.rows, |ledger.rows|, CounterFor(e)).Some?
    case RowRead(r, used) =>
      && r < |ledger.rows| && ledger.rows[r].id == CounterFor(e)
      && Clamp(used + e.delta) != Clamp(Used(ledger, CounterFor(e)) + e.delta)
  }

  predicate LosesUpdate(ledger: Ledger, op: LedgerOp) {
    match op
    case LRecord(e, read) => !Repeats(ledger, e) && Outdated(ledger, e, read)
    case LInsert(_) => false
    case LWrite(k, read) => k < |ledger.waiting| && Outdated(ledger, ledger.waiting[k], read)
  }

  /** A recorder that reads the counter as it is when it writes loses nothing and never fails. */
  lemma CurrentReadIsSafe(ledger: Ledger, e: Event)
    ensures !Outdated(ledger, e, CurrentRead(ledger.rows, CounterFor(e)))
    ensures Append(ledger, e, CurrentRead(ledger.rows, CounterFor(e))).Ok?
  {
  }

  lemma UsedAt(rows: seq<Row>, r: nat, events: seq<Event>, waiting: seq<Event>)
    requires OneRow(rows) && r < |rows|
    ensures Used(Ledger(events, waiting, rows), rows[r].id) == rows[r].used
  {
  }

  lemma FoldAppends(ledger: Ledger, e: Event, c: CounterId)
    requires Folded(ledger)
    ensures ClampedFold(DeltasOf(ledger.events + [e], c)) ==
            if IsCounted(e) && CounterFor(e) == c then Clamp(Used(ledger, c) + e.delta) else Used(ledger, c)
  {
    DeltasSnoc(ledger.events, e, c);
    FoldSnoc(DeltasOf(ledger.events, c), e.delta);
    assert Used(ledger, c) == ClampedFold(DeltasOf(ledger.events, c));
    assert DeltasOf(ledger.events, c) + [] == DeltasOf(ledger.events, c);
  }

  /** Writing `written` to the counter of `e` is right exactly when that is its value plus the delta. */
  lemma WriteDecides(ledger: Ledger, e: Event, ledger': Ledger, written: int)
    requires Folded(ledger) && IsCounted(e) && ledger'.events == ledger.events + [e]
    requires forall c: CounterId :: Used(ledger', c) == if c == CounterFor(e) then written else Used(ledger, c)
    ensures (forall c: CounterId :: Used(ledger', c) == ClampedFold(DeltasOf(ledger'.events, c)))
            <==> written == Clamp(Used(ledger, CounterFor(e)) + e.delta)
  {
    forall c: CounterId ensures ClampedFold(DeltasOf(ledger'.events, c)) ==
                                if CounterFor(e) == c then Clamp(Used(ledger, c) + e.delta) else Used(ledger, c)
    {
      FoldAppends(ledger, e, c);
    }
    if forall c: CounterId :: Used(ledger', c) == ClampedFold(DeltasOf(ledger'.events, c)) {
      assert Used(ledger', CounterFor(e)) == ClampedFold(DeltasOf(ledger'.events, CounterFor(e)));
    }
  }

  /** Writing the counter of one event. */
  lemma AppendDecides(ledger: Ledger, e: Event, read: Read, ledger': Ledger)
    requires Folded(ledger) && Append(ledger, e, read) == Ok(ledger')
    ensures Folded(ledger') <==> !Outdated(ledger, e, read)
  {
    if !IsCounted(e) {
      forall c: CounterId ensures Used(ledger', c) == ClampedFold(DeltasOf(ledger'.events, c)) { FoldAppends(ledger, e, c); }
    } else if read.NoRow? {
      NewRowDecides(ledger, e, ledger');
    } else {
      WrittenRowDecides(ledger, e, read, ledger');
    }
  }

  lemma NewRowDecides(ledger: Ledger, e: Event, ledger': Ledger)
    requires Folded(ledger) && IsCounted(e) && Append(ledger, e, NoRow) == Ok(ledger')
    ensures Folded(ledger') <==> !Outdated(ledger, e, NoRow)
  {
    var c, row := CounterFor(e), Row(CounterFor(e), Clamp(e.delta));
    RowAdded(ledger.rows, row);
    if RowOf(ledger.rows, |ledger.rows|, c).None? {
      forall other: CounterId ensures Used(ledger', other) == if other == c then row.used else Used(ledger, other) {
        RowsSnoc(ledger.rows, row, other);
      }
      WriteDecides(ledger, e, ledger', row.used);
    }
  }

  lemma RowAdded(rows: seq<Row>, row: Row)
    requires OneRow(rows)
    ensures OneRow(rows + [row]) <==> RowOf(rows, |rows|, row.id).None?
  {
    var found := RowOf(rows, |rows|, row.id);
    if found.Some? { assert (rows + [row])[found.value].id == (rows + [row])[|rows|].id; }
  }

  lemma RowKept(rows: seq<Row>, r: nat, row: Row)
    requires OneRow(rows) && r < |rows| && rows[r].id == row.id
    ensures OneRow(rows[r := row])
  {
  }

  lemma {:induction false} RowsBelow(rows: seq<Row>, row: Row, k: nat, c: CounterId)
    requires k <= |rows|
    ensures RowOf(rows + [row], k, c) == RowOf(rows, k, c)
  {
    if k > 0 { RowsBelow(rows, row, k - 1, c); }
  }

  lemma RowsSnoc(rows: seq<Row>, row: Row, c: CounterId)
    ensures RowOf(rows + [row], |rows| + 1, c) == if row.id == c then Some(|rows|) else RowOf(rows, |rows|, c)
  {
    RowsBelow(rows, row, |rows|, c);
  }

  lemma WrittenRowDecides(ledger: Ledger, e: Event, read: Read, ledger': Ledger)
    requires Folded(ledger) && IsCounted(e) && read.RowRead? && Append(ledger, e, read) == Ok(ledger')
    ensures Folded(ledger') <==> !Outdated(ledger, e, read)
  {
    var c, row := CounterFor(e), Row(CounterFor(e), Clamp(read.used + e.delta));
    RowKept(ledger.rows, read.row, row);
    forall other: CounterId ensures Used(ledger', other) == if other == c then row.used else Used(ledger, other) {
      UsedRewritten(ledger, ledger', read.row, row, other);
    }
    WriteDecides(ledger, e, ledger', row.used);
  }

  lemma UsedRewritten(ledger: Ledger, ledger': Ledger, r: nat, row: Row, c: CounterId)
    requires OneRow(ledger.rows) && r < |ledger.rows| && ledger.rows[r].id == row.id && ledger'.rows == ledger.rows[r := row]
    ensures Used(ledger', c) == if c == row.id then row.used else Used(ledger, c)
  {
    RowRewritten(ledger.rows, |ledger.rows|, r, row, c);
    if c == row.id {
      RowKept(ledger.rows, r, row);
      UsedAt(ledger'.rows, r, ledger'.events, ledger'.waiting);
    }
  }

  lemma {:induction false} RowRewritten(rows: seq<Row>, k: nat, r: nat, row: Row, c: CounterId)
    requires k <= |rows| && r < |rows| && row.id == rows[r].id
    ensures RowOf(rows[r := row], k, c) == RowOf(rows, k, c)
  {
    if k > 0 { RowRewritten(rows, k - 1, r, row, c); }
  }

  /** One operation keeps every counter the fold of its deltas if and only if it does not write an outdated value. */
  lemma StepDecidesFold(ledger: Ledger, op: LedgerOp)
    requires Folded(ledger)
    ensures Folded(LedgerStep(ledger, op)) <==> !LosesUpdate(ledger, op)
  {
    match op {
      case LRecord(e, read) =>
        if !Repeats(ledger, e) {
          if Append(ledger, e, read).Ok? { AppendDecides(ledger, e, read, Append(ledger, e, read).value); }
        }
      case LInsert(e) => if e.key.None? { InsertKeepsFold(ledger, e); }
      case LWrite(k, read) =>
        if k < |ledger.waiting| {
          var written := Append(ledger, ledger.waiting[k], read);
          if written.Ok? {
            AppendDecides(ledger, ledger.waiting[k], read, written.value);
            WaitingDoesNotCount(written.value, Without(ledger.waiting, k));
          }
        }
    }
  }

  lemma WaitingDoesNotCount(ledger: Ledger, waiting: seq<Event>)
    ensures Folded(ledger.(waiting := waiting)) <==> Folded(ledger)
  {
    assert forall c: CounterId :: Used(ledger.(waiting := waiting), c) == Used(ledger, c);
  }

  lemma InsertKeepsFold(ledger: Ledger, e: Event)
    requires Folded(ledger)
    ensures Folded(InsertEvent(ledger, e))
  {
    if IsCounted(e) {
      WaitingDoesNotCount(ledger, ledger.waiting + [e]);
    } else {
      forall c: CounterId ensures DeltasOf(ledger.events + [e], c) == DeltasOf(ledger.events, c) { DeltasSnoc(ledger.events, e, c); }
      assert forall c: CounterId :: Used(InsertEvent(ledger, e), c) == Used(ledger, c);
    }
  }

  ghost predicate NeverLoses(ops: seq<LedgerOp>) {
    forall k: nat :: k < |ops| ==> !LosesUpdate(LedgerRun(ops[..k]), ops[k])
  }

  /** Over all runs of recorders that read and write as they come: every counter is the fold of its deltas in every
      state if and only if no recorder wrote an outdated value. */
  lemma CountersAreFolds(ops: seq<LedgerOp>)
    ensures (forall k: nat :: k <= |ops| ==> Folded(LedgerRun(ops[..k]))) <==> NeverLoses(ops)
  {
    if forall k: nat :: k <= |ops| ==> Folded(LedgerRun(ops[..k])) {
      forall k: nat | k < |ops| ensures !LosesUpdate(LedgerRun(ops[..k]), ops[k]) {
        LedgerPrefix(ops, k);
        assert Folded(LedgerRun(ops[..k])) && Folded(LedgerRun(ops[..k + 1]));
        StepDecidesFold(LedgerRun(ops[..k]), ops[k]);
      }
    }
    if NeverLoses(ops) {
      forall k: nat | k <= |ops| ensures Folded(LedgerRun(ops[..k])) { FoldedAfter(ops, k); }
    }
  }

  lemma {:induction false} FoldedAfter(ops: seq<LedgerOp>, k: nat)
    requires NeverLoses(ops) && k <= |ops|
    ensures Folded(LedgerRun(ops[..k]))
  {
    if k > 0 {
      FoldedAfter(ops, k - 1);
      LedgerPrefix(ops, k - 1);
      StepDecidesFold(LedgerRun(ops[..k - 1]), ops[k - 1]);
    }
  }

  /** Whatever is recorded and repeated, when nothing outdated is written a counter holds the clamped fold of the deltas
      of the distinct committed events, in closed form, so it can be rebuilt from the event log. */
  lemma CounterFromEvents(ops: seq<LedgerOp>, c: CounterId)
    requires NeverLoses(ops)
    ensures var deltas := DeltasOf(Deduplicated(Committed(ops)), c);
            && Used(LedgerRun(ops), c) == ClampedFold(deltas)
            && Used(LedgerRun(ops), c) == Total(deltas) - LowestPrefix(deltas)
  {
    EventsAreDeduplicated(ops);
    FoldedAfter(ops, |ops|);
    assert ops[..|ops|] == ops;
    ClampedClosedForm(DeltasOf(Deduplicated(Committed(ops)), c));
  }

  // --- Two recorders at once ---------------------------------------------------------------------------

  function Taken(lease: nat): Event {
    Event(0, SsrProcesses, Consume, 1, Some(lease), Some(ProcessKey(lease)), 0)
  }

  /** Both recorders look for the counter before either writes it. */
  const CONCURRENT: seq<LedgerOp> := [LRecord(Taken(0), NoRow)] + [LRecord(Taken(1), NoRow)]

  /** The counter has two rows then, and whichever is read says one although two were recorded. */
  lemma ConcurrentRecordersLose()
    ensures var ledger, c := LedgerRun(CONCURRENT), CounterOf(0, SsrProcesses, 0);
            && ledger.rows == [Row(c, 1)] + [Row(c, 1)] && ClampedFold(DeltasOf(ledger.events, c)) == 2 && !Folded(ledger)
  {
    var c := CounterOf(0, SsrProcesses, 0);
    var one := LedgerStep(EMPTY, CONCURRENT[0]);
    assert CONCURRENT[..1] == [CONCURRENT[0]] && CONCURRENT[..1][..0] == [];
    assert LedgerRun([]) == EMPTY;
    assert LedgerRun(CONCURRENT[..1]) == one;
    var two := LedgerStep(one, CONCURRENT[1]);
    assert LedgerRun(CONCURRENT) == two;
    DeltasSnoc([], Taken(0), c);
    DeltasSnoc([Taken(0)], Taken(1), c);
    FoldSnoc([], 1);
    FoldSnoc([1], 1);
    assert two.events == [Taken(0)] + [Taken(1)];
    assert two.rows[0].id == two.rows[1].id;
  }
}
