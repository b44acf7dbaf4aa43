/** Quota counters and slots, kept by two cache backends that must agree
    (crates/cache/src/lib.rs, moka_backend.rs, redis_backend.rs). */
module CounterCache {
  import opened Basics
  import opened CacheText

  /** Times and time-to-live values are milliseconds. */
  datatype Check = Check(key: string, amount: int, max: int, ttl: Option<nat>)

  datatype Outcome = Allowed | Denied(key: string)

  // --- What both backends promise ---------------------------------------------------------------

  /** A counter for each key; a missing one reads as zero. */
  type Counters = map<string, int>

  function Value(c: Counters, key: string): int { if key in c then c[key] else 0 }

  predicate OverLimit(c: Counters, check: Check) {
    check.max >= 0 && Value(c, check.key) + check.amount > check.max
  }

  /** The first check from position `i` on that is over its limit. */
  function FirstOver(c: Counters, checks: seq<Check>, i: nat): (found: Option<nat>)
    requires i <= |checks|
    ensures found.Some? ==> i <= found.value < |checks| && OverLimit(c, checks[found.value])
                            && forall k :: i <= k < found.value ==> !OverLimit(c, checks[k])
    ensures found.None? ==> forall k :: i <= k < |checks| ==> !OverLimit(c, checks[k])
    decreases |checks| - i
  {
    if i == |checks| then None else if OverLimit(c, checks[i]) then Some(i) else FirstOver(c, checks, i + 1)
  }

  function Consumed(c: Counters, checks: seq<Check>): Counters {
    if checks == [] then c
    else
      var before, last := Consumed(c, checks[..|checks| - 1]), checks[|checks| - 1];
      before[last.key := Value(before, last.key) + last.amount]
  }

  function CheckAndConsume(c: Counters, checks: seq<Check>): (Counters, Outcome) {
    var over := FirstOver(c, checks, 0);
    if over.Some? then (c, Denied(checks[over.value].key)) else (Consumed(c, checks), Allowed)
  }

  function Clamped(n: int): int { if n < 0 then 0 else n }

  function Adjusted(c: Counters, key: string, amount: int): Counters {
    c[key := Clamped(Value(c, key) + amount)]
  }

  function AcquireSlot(c: Counters, key: string, max: int): (Counters, bool) {
    if max >= 0 && Value(c, key) + 1 > max then (c, false) else (c[key := Value(c, key) + 1], true)
  }

  // --- All or nothing -------------------------------------------------------------------------------

  function AmountFor(checks: seq<Check>, key: string): int {
    if checks == [] then 0
    else AmountFor(checks[..|checks| - 1], key) + if checks[|checks| - 1].key == key then checks[|checks| - 1].amount else 0
  }

  /** Whatever the keys, consuming adds to each counter the amounts asked for it. */
  lemma {:induction false} ConsumedAdds(c: Counters, checks: seq<Check>, key: string)
    ensures Value(Consumed(c, checks), key) == Value(c, key) + AmountFor(checks, key)
  {
    if checks != [] { ConsumedAdds(c, checks[..|checks| - 1], key); }
  }

  predicate DistinctKeys(checks: seq<Check>) {
    forall i, k :: 0 <= i < k < |checks| ==> checks[i].key != checks[k].key
  }

  lemma {:induction false} AmountOfDistinct(checks: seq<Check>, i: nat)
    requires DistinctKeys(checks) && i < |checks|
    ensures AmountFor(checks, checks[i].key) == checks[i].amount
  {
    var last := |checks| - 1;
    if i < last { AmountOfDistinct(checks[..last], i); } else { AmountOfOthers(checks[..last], checks[i].key); }
  }

  lemma {:induction false} AmountOfOthers(checks: seq<Check>, key: string)
    requires forall k :: 0 <= k < |checks| ==> checks[k].key != key
    ensures AmountFor(checks, key) == 0
  {
    if checks != [] { AmountOfOthers(checks[..|checks| - 1], key); }
  }

  /** For distinct keys: it is allowed exactly when every amount fits below its limit, and then every amount
      is added, no limit is exceeded and no other counter changes; otherwise nothing changes and the first
      key over its limit is named. */
  lemma AllOrNothing(c: Counters, checks: seq<Check>)
    requires DistinctKeys(checks)
    ensures var (after, outcome) := CheckAndConsume(c, checks);
            && (outcome.Allowed? <==> forall k :: 0 <= k < |checks| ==> !OverLimit(c, checks[k]))
            && (outcome.Allowed? ==>
                  && (forall k :: 0 <= k < |checks| ==>
                        && Value(after, checks[k].key) == Value(c, checks[k].key) + checks[k].amount
                        && (checks[k].max >= 0 ==> Value(after, checks[k].key) <= checks[k].max))
                  && (forall key :: (forall k :: 0 <= k < |checks| ==> checks[k].key != key) ==> Value(after, key) == Value(c, key)))
            && (outcome.Denied? ==>
                  && after == c
                  && exists k :: 0 <= k < |checks| && outcome.key == checks[k].key && OverLimit(c, checks[k])
                                 && forall i :: 0 <= i < k ==> !OverLimit(c, checks[i]))
  {
    var (after, outcome) := CheckAndConsume(c, checks);
    if outcome.Allowed? {
      forall k | 0 <= k < |checks| ensures Value(after, checks[k].key) == Value(c, checks[k].key) + checks[k].amount {
        ConsumedAdds(c, checks, checks[k].key);
        AmountOfDistinct(checks, k);
      }
      forall key | forall k :: 0 <= k < |checks| ==> checks[k].key != key ensures Value(after, key) == Value(c, key) {
        ConsumedAdds(c, checks, key);
        AmountOfOthers(checks, key);
      }
    }
  }

  /** When a key is repeated the limit of a check is kept exactly if all amounts for that key fit together;
      the code compares each amount alone. */
  lemma RepeatedKeyLimit(c: Counters, checks: seq<Check>, k: nat)
    requires k < |checks| && checks[k].max >= 0 && CheckAndConsume(c, checks).1.Allowed?
    ensures Value(CheckAndConsume(c, checks).0, checks[k].key) <= checks[k].max <==>
            Value(c, checks[k].key) + AmountFor(checks, checks[k].key) <= checks[k].max
  {
    ConsumedAdds(c, checks, checks[k].key);
  }

  lemma RepeatedKeyOverruns()
    ensures var checks := [Check("builds", 1, 1, None), Check("builds", 1, 1, None)];
            CheckAndConsume(map[], checks).1.Allowed? && Value(CheckAndConsume(map[], checks).0, "builds") == 2
  {
    var checks := [Check("builds", 1, 1, None), Check("builds", 1, 1, None)];
    assert FirstOver(map[], checks, 0) == None;
    ConsumedAdds(map[], checks, "builds");
    assert checks[..1] == [checks[0]];
    assert AmountFor(checks[..1], "builds") == 1;
  }

  // --- Slots ------------------------------------------------------------------------------------------

  datatype SlotOp = TakeSlot | GiveBack

  /** Runs takes and give-backs on one key: the counter, and the number of slots held. */
  function RunSlots(ops: seq<SlotOp>, max: int): (int, int) {
    if ops == [] then (0, 0)
    else
      var (counter, held) := RunSlots(ops[..|ops| - 1], max);
      match ops[|ops| - 1]
      case TakeSlot =>
        var (after, granted) := AcquireSlot(map["slot" := counter], "slot", max);
        (Value(after, "slot"), if granted then held + 1 else held)
      case GiveBack => (Value(Adjusted(map["slot" := counter], "slot", -1), "slot"), held - 1)
  }

  /** Slots are only given back by holders. */
  predicate GivesBackHeld(ops: seq<SlotOp>, max: int) {
    ops == [] || (GivesBackHeld(ops[..|ops| - 1], max) && (ops[|ops| - 1].GiveBack? ==> RunSlots(ops[..|ops| - 1], max).1 > 0))
  }

  /** The counter stays between zero and the maximum over any run; when only holders give back, it is the number of
      slots held, so never more than the maximum are held. */
  lemma {:induction false} SlotsBounded(ops: seq<SlotOp>, max: nat)
    ensures 0 <= RunSlots(ops, max).0 <= max
    ensures GivesBackHeld(ops, max) ==> RunSlots(ops, max).1 == RunSlots(ops, max).0
  {
    if ops != [] { SlotsBounded(ops[..|ops| - 1], max); }
  }

  /** A slot is granted exactly while fewer than the maximum are held. */
  lemma SlotGrantedExactly(ops: seq<SlotOp>, max: nat)
    requires GivesBackHeld(ops, max)
    ensures RunSlots(ops + [TakeSlot], max).1 == RunSlots(ops, max).1 + (if RunSlots(ops, max).1 < max then 1 else 0)
  {
    SlotsBounded(ops, max);
    assert (ops + [TakeSlot])[..|ops|] == ops;
  }

  /** Of one counter: a negative maximum is none; a slot below the maximum is taken and adds one; an adjustment adds its amount and
      stops at zero. No other counter changes. */
  lemma CounterStepsExactly(c: Counters, key: string, amount: int, max: int, other: string)
    ensures AcquireSlot(c, key, max).1 <==> max < 0 || Value(c, key) < max
    ensures Value(AcquireSlot(c, key, max).0, other)
            == Value(c, other) + (if other == key && (max < 0 || Value(c, key) < max) then 1 else 0)
    ensures Value(Adjusted(c, key, amount), other)
            == if other != key then Value(c, other) else if Value(c, key) + amount <= 0 then 0 else Value(c, key) + amount
  {
  }

  // --- The in-process backend: text entries under a mutex ------------------------------------------------

  type MokaStore = map<string, string>

  /** How a counter and its expiry are written as text and read back. */
  datatype Codec = Codec(read: string -> (int, Option<int>), write: (int, Option<int>) -> string)

  const TEXT := Codec(ReadText, WriteText)

  function OrZero(n: Option<int>): int { if n.Some? then n.value else 0 }

  function ReadText(raw: string): (int, Option<int>) {
    var parts := ExtractValue(raw);
    if parts.Some? then (OrZero(ParseI64(parts.value.1)), Some(parts.value.0)) else (OrZero(ParseI64(raw)), None)
  }

  function WriteText(value: int, expiry: Option<int>): string { EncodeEntry(FormatInt(value), expiry) }

  function ReadEntry(codec: Codec, inner: MokaStore, key: string): (int, Option<int>) {
    if key in inner then codec.read(inner[key]) else (0, None)
  }

  function WriteEntry(codec: Codec, inner: MokaStore, key: string, value: int, expiry: Option<int>): MokaStore {
    inner[key := codec.write(value, expiry)]
  }

  /** Whole seconds since the epoch. */
  function ExpiryFromTtl(ttl: nat, now: int): int { now / 1000 + ttl / 1000 }

  class MokaCache {
    var inner: MokaStore

    constructor ()
      ensures inner == map[]
    {
      inner := map[];
    }

    method ReadCounterEntry(key: string) returns (value: int, expiry: Option<int>)
      ensures (value, expiry) == ReadEntry(TEXT, inner, key)
    {
      if key !in inner { return 0, None; }
      var raw := inner[key];
      var parts := ExtractValue(raw);
      var number := ParseI64(if parts.Some? then parts.value.1 else raw);
      value := if number.Some? then number.value else 0;
      expiry := if parts.Some? then Some(parts.value.0) else None;
    }

    method WriteCounter(key: string, value: int, expiry: Option<int>)
      modifies this
      ensures inner == WriteEntry(TEXT, old(inner), key, value, expiry)
    {
      inner := inner[key := EncodeEntry(FormatInt(value), expiry)];
      assert inner == WriteEntry(TEXT, old(inner), key, value, expiry);
    }

    method FindOver(checks: seq<Check>) returns (over: Option<nat>)
      ensures over == MokaFirstOver(TEXT, inner, checks, 0)
    {
      for i := 0 to |checks|
        invariant MokaFirstOver(TEXT, inner, checks, 0) == MokaFirstOver(TEXT, inner, checks, i)
      {
        var current, _ := ReadCounterEntry(checks[i].key);
        if checks[i].max >= 0 && current + checks[i].amount > checks[i].max { return Some(i); }
      }
      over := None;
    }

    method CheckAndConsume(checks: seq<Check>, now: int) returns (outcome: Outcome)
      modifies this
      ensures (inner, outcome) == MokaCheck(TEXT, old(inner), checks, now)
    {
      var over := FindOver(checks);
      if over.Some? { return Denied(checks[over.value].key); }
      Consume(checks, now);
      outcome := Allowed;
    }

    method Consume(checks: seq<Check>, now: int)
      modifies this
      ensures inner == MokaConsumed(TEXT, old(inner), checks, |checks|, now)
    {
      for i := 0 to |checks|
        invariant inner == MokaConsumed(TEXT, old(inner), checks, i, now)
      {
        ConsumeOne(checks[i], now);
      }
    }

    method ConsumeOne(check: Check, now: int)
      modifies this
      ensures inner == MokaConsumedOne(TEXT, old(inner), check, now)
    {
      var current, existing := ReadCounterEntry(check.key);
      var expiry := if check.ttl.Some? then Some(ExpiryFromTtl(check.ttl.value, now)) else existing;
      WriteCounter(check.key, current + check.amount, expiry);
    }

    method AdjustCounter(key: string, amount: int) returns (next: int)
      modifies this
      ensures (inner, next) == MokaAdjust(TEXT, old(inner), key, amount)
    {
      var current, expiry := ReadCounterEntry(key);
      next := current + amount;
      if next < 0 { next := 0; }
      WriteCounter(key, next, expiry);
    }

    method AcquireSlot(key: string, max: int, ttl: nat, now: int) returns (acquired: bool)
      modifies this
      ensures (inner, acquired) == MokaAcquire(TEXT, old(inner), key, max, ttl, now)
    {
      var current, _ := ReadCounterEntry(key);
      if max >= 0 && current + 1 > max { return false; }
      WriteCounter(key, current + 1, Some(ExpiryFromTtl(ttl, now)));
      acquired := true;
    }

    method ReleaseSlot(key: string)
      modifies this
      ensures inner == MokaAdjust(TEXT, old(inner), key, -1).0
    {
      var current, expiry := ReadCounterEntry(key);
      WriteCounter(key, if current - 1 < 0 then 0 else current - 1, expiry);
    }
  }

  function MokaFirstOver(codec: Codec, inner: MokaStore, checks: seq<Check>, i: nat): (found: Option<nat>)
    requires i <= |checks|
    ensures found.Some? ==> found.value < |checks|
    decreases |checks| - i
  {
    if i == |checks| then None
    else if checks[i].max >= 0 && ReadEntry(codec, inner, checks[i].key).0 + checks[i].amount > checks[i].max then Some(i)
    else MokaFirstOver(codec, inner, checks, i + 1)
  }

  function MokaConsumed(codec: Codec, inner: MokaStore, checks: seq<Check>, k: nat, now: int): MokaStore
    requires k <= |checks|
  {
    if k == 0 then inner else MokaConsumedOne(codec, MokaConsumed(codec, inner, checks, k - 1, now), checks[k - 1], now)
  }

  function MokaConsumedOne(codec: Codec, inner: MokaStore, check: Check, now: int): MokaStore {
    var (current, existing) := ReadEntry(codec, inner, check.key);
    WriteEntry(codec, inner, check.key, current + check.amount, if check.ttl.Some? then Some(ExpiryFromTtl(check.ttl.value, now)) else existing)
  }

  function MokaCheck(codec: Codec, inner: MokaStore, checks: seq<Check>, now: int): (MokaStore, Outcome) {
    var over := MokaFirstOver(codec, inner, checks, 0);
    if over.Some? then (inner, Denied(checks[over.value].key))
    else (MokaConsumed(codec, inner, checks, |checks|, now), Allowed)
  }

  function MokaAdjust(codec: Codec, inner: MokaStore, key: string, amount: int): (MokaStore, int) {
    var (current, expiry) := ReadEntry(codec, inner, key);
    (WriteEntry(codec, inner, key, Clamped(current + amount), expiry), Clamped(current + amount))
  }

  function MokaAcquire(codec: Codec, inner: MokaStore, key: string, max: int, ttl: nat, now: int): (MokaStore, bool) {
    var current := ReadEntry(codec, inner, key).0;
    if max >= 0 && current + 1 > max then (inner, false)
    else (WriteEntry(codec, inner, key, current + 1, Some(ExpiryFromTtl(ttl, now))), true)
  }

  // --- The Redis backend: scripts over numbers with an expiry ------------------------------------------------

  datatype RedisEntry = RedisEntry(value: int, expiresAt: Option<int>)

  type RedisStore = map<string, RedisEntry>

  function RedisValue(store: RedisStore, key: string): int { if key in store then store[key].value else 0 }

  function IncrBy(store: RedisStore, key: string, amount: int): RedisStore {
    store[key := if key in store then store[key].(value := store[key].value + amount) else RedisEntry(amount, None)]
  }

  class RedisCache {
    var store: RedisStore

    constructor ()
      ensures store == map[]
    {
      store := map[];
    }

    method FindOver(checks: seq<Check>) returns (over: Option<nat>)
      ensures over == RedisFirstOver(store, checks, 0)
    {
      for i := 0 to |checks|
        invariant RedisFirstOver(store, checks, 0) == RedisFirstOver(store, checks, i)
      {
        var current := if checks[i].key in store then store[checks[i].key].value else 0;
        if checks[i].max >= 0 && current + checks[i].amount > checks[i].max { return Some(i); }
      }
      over := None;
    }

    method CheckAndConsume(checks: seq<Check>, now: int) returns (outcome: Outcome)
      modifies this
      ensures (store, outcome) == RedisCheck(old(store), checks, now)
    {
      if checks == [] { return Allowed; }
      var over := FindOver(checks);
      if over.Some? { return Denied(checks[over.value].key); }
      for i := 0 to |checks|
        invariant store == RedisConsumed(old(store), checks, i, now)
      {
        store := IncrBy(store, checks[i].key, checks[i].amount);
        var ttl := if checks[i].ttl.Some? then checks[i].ttl.value else 0;
        if ttl > 0 && store[checks[i].key].expiresAt.None? {
          store := store[checks[i].key := store[checks[i].key].(expiresAt := Some(now + ttl))];
        }
      }
      outcome := Allowed;
    }

    method AdjustCounter(key: string, amount: int) returns (next: int)
      modifies this
      ensures (store, next) == RedisAdjust(old(store), key, amount)
    {
      next := (if key in store then store[key].value else 0) + amount;
      if next < 0 { next := 0; }
      var expiry := if key in store then store[key].expiresAt else None;
      store := store[key := RedisEntry(next, None)];
      if expiry.Some? { store := store[key := store[key].(expiresAt := expiry)]; }
      assert store == old(store)[key := RedisEntry(next, expiry)];
    }

    method AcquireSlot(key: string, max: int, ttl: nat, now: int) returns (acquired: bool)
      modifies this
      ensures (store, acquired) == RedisAcquire(old(store), key, max, ttl, now)
    {
      var current := if key in store then store[key].value else 0;
      if max >= 0 && current + 1 > max { return false; }
      store := IncrBy(store, key, 1);
      store := store[key := store[key].(expiresAt := Some(now + if ttl < 1 then 1 else ttl))];
      acquired := true;
    }

    method ReleaseSlot(key: string)
      modifies this
      ensures store == RedisAdjust(old(store), key, -1).0
    {
      var _ := AdjustCounter(key, -1);
    }
  }

  function RedisFirstOver(store: RedisStore, checks: seq<Check>, i: nat): (found: Option<nat>)
    requires i <= |checks|
    ensures found.Some? ==> found.value < |checks|
    decreases |checks| - i
  {
    if i == |checks| then None
    else if checks[i].max >= 0 && RedisValue(store, checks[i].key) + checks[i].amount > checks[i].max then Some(i)
    else RedisFirstOver(store, checks, i + 1)
  }

  function RedisConsumed(store: RedisStore, checks: seq<Check>, k: nat, now: int): RedisStore
    requires k <= |checks|
  {
    if k == 0 then store
    else
      var check := checks[k - 1];
      var added := IncrBy(RedisConsumed(store, checks, k - 1, now), check.key, check.amount);
      if check.ttl.Some? && check.ttl.value > 0 && added[check.key].expiresAt.None?
      then added[check.key := added[check.key].(expiresAt := Some(now + check.ttl.value))] else added
  }

  function RedisCheck(store: RedisStore, checks: seq<Check>, now: int): (RedisStore, Outcome) {
    var over := RedisFirstOver(store, checks, 0);
    if over.Some? then (store, Denied(checks[over.value].key))
    else (RedisConsumed(store, checks, |checks|, now), Allowed)
  }

  function RedisAdjust(store: RedisStore, key: string, amount: int): (RedisStore, int) {
    var next := Clamped(RedisValue(store, key) + amount);
    (store[key := RedisEntry(next, if key in store then store[key].expiresAt else None)], next)
  }

  function RedisAcquire(store: RedisStore, key: string, max: int, ttl: nat, now: int): (RedisStore, bool) {
    if max >= 0 && RedisValue(store, key) + 1 > max then (store, false)
    else (IncrBy(store, key, 1)[key := RedisEntry(RedisValue(store, key) + 1, Some(now + if ttl < 1 then 1 else ttl))], true)
  }

  // --- The two backends agree -------------------------------------------------------------------------------

  datatype CacheOp =
    | CheckOp(checks: seq<Check>, now: int)
    | AdjustOp(key: string, amount: int)
    | AcquireOp(key: string, max: int, ttl: nat, now: int)
    | ReleaseOp(key: string)

  datatype Reply = Checked(outcome: Outcome) | AdjustedTo(next: int) | Acquired(granted: bool) | Done

  function SpecStep(c: Counters, op: CacheOp): (Counters, Reply) {
    match op
    case CheckOp(checks, _) => var r := CheckAndConsume(c, checks); (r.0, Checked(r.1))
    case AdjustOp(key, amount) => (Adjusted(c, key, amount), AdjustedTo(Clamped(Value(c, key) + amount)))
    case AcquireOp(key, max, _, _) => var r := AcquireSlot(c, key, max); (r.0, Acquired(r.1))
    case ReleaseOp(key) => (Adjusted(c, key, -1), Done)
  }

  function MokaStep(codec: Codec, inner: MokaStore, op: CacheOp): (MokaStore, Reply) {
    match op
    case CheckOp(checks, now) => var r := MokaCheck(codec, inner, checks, now); (r.0, Checked(r.1))
    case AdjustOp(key, amount) => var r := MokaAdjust(codec, inner, key, amount); (r.0, AdjustedTo(r.1))
    case AcquireOp(key, max, ttl, now) => var r := MokaAcquire(codec, inner, key, max, ttl, now); (r.0, Acquired(r.1))
    case ReleaseOp(key) => (MokaAdjust(codec, inner, key, -1).0, Done)
  }

  function RedisStep(store: RedisStore, op: CacheOp): (RedisStore, Reply) {
    match op
    case CheckOp(checks, now) => var r := RedisCheck(store, checks, now); (r.0, Checked(r.1))
    case AdjustOp(key, amount) => var r := RedisAdjust(store, key, amount); (r.0, AdjustedTo(r.1))
    case AcquireOp(key, max, ttl, now) => var r := RedisAcquire(store, key, max, ttl, now); (r.0, Acquired(r.1))
    case ReleaseOp(key) => (RedisAdjust(store, key, -1).0, Done)
  }

  ghost predicate MokaHolds(codec: Codec, inner: MokaStore, c: Counters) {
    forall key :: ReadEntry(codec, inner, key).0 == Value(c, key)
  }

  ghost predicate RedisHolds(store: RedisStore, c: Counters) {
    forall key :: RedisValue(store, key) == Value(c, key)
  }

  /** The range in which both 64-bit integers and the scripts' double-precision numbers are exact. */
  predicate IsExact(n: int) { -0x20_0000_0000_0000 <= n <= 0x20_0000_0000_0000 }

  predicate ChecksFit(c: Counters, checks: seq<Check>, now: int) {
    checks == [] ||
    (&& ChecksFit(c, checks[..|checks| - 1], now)
     && var last := checks[|checks| - 1];
        && IsExact(Value(Consumed(c, checks[..|checks| - 1]), last.key) + last.amount)
        && (last.ttl.Some? ==> InI64(ExpiryFromTtl(last.ttl.value, now))))
  }

  /** No number the operation computes leaves the exact range, and no expiry leaves 64 bits. */
  predicate StepFits(c: Counters, op: CacheOp) {
    match op
    case CheckOp(checks, now) => ChecksFit(c, checks, now)
    case AdjustOp(key, amount) => IsExact(Value(c, key) + amount)
    case AcquireOp(key, _, ttl, now) => IsExact(Value(c, key) + 1) && InI64(ExpiryFromTtl(ttl, now))
    case ReleaseOp(key) => IsExact(Value(c, key) - 1)
  }

  predicate Writable(value: int, expiry: Option<int>) {
    InI64(value) && (expiry.Some? ==> InI64(expiry.value))
  }

  /** What was written is read back, and every expiry that is read fits in 64 bits. */
  ghost predicate Faithful(codec: Codec) {
    && (forall value, expiry :: Writable(value, expiry) ==> codec.read(codec.write(value, expiry)) == (value, expiry))
    && (forall raw :: codec.read(raw).1.Some? ==> InI64(codec.read(raw).1.value))
  }

  lemma TextIsFaithful()
    ensures Faithful(TEXT)
  {
    forall value, expiry | Writable(value, expiry) ensures TEXT.read(TEXT.write(value, expiry)) == (value, expiry) {
      FormatIntParses(value);
      if expiry.Some? { EntryRoundTrip(FormatInt(value), expiry.value); } else { PlainNumberHasNoExpiry(value); }
    }
  }

  lemma ReadAfterWrite(codec: Codec, inner: MokaStore, key: string, value: int, expiry: Option<int>, other: string)
    requires Faithful(codec) && Writable(value, expiry)
    ensures ReadEntry(codec, WriteEntry(codec, inner, key, value, expiry), other)
            == if other == key then (value, expiry) else ReadEntry(codec, inner, other)
  {
  }

  lemma WriteHolds(codec: Codec, inner: MokaStore, c: Counters, key: string, value: int, expiry: Option<int>)
    requires Faithful(codec) && MokaHolds(codec, inner, c) && Writable(value, expiry)
    ensures MokaHolds(codec, WriteEntry(codec, inner, key, value, expiry), c[key := value])
  {
    forall other ensures ReadEntry(codec, WriteEntry(codec, inner, key, value, expiry), other).0 == Value(c[key := value], other) {
      ReadAfterWrite(codec, inner, key, value, expiry, other);
    }
  }

  lemma {:induction false} MokaFindsOver(codec: Codec, inner: MokaStore, c: Counters, checks: seq<Check>, i: nat)
    requires MokaHolds(codec, inner, c) && i <= |checks|
    ensures MokaFirstOver(codec, inner, checks, i) == FirstOver(c, checks, i)
    decreases |checks| - i
  {
    if i < |checks| { MokaFindsOver(codec, inner, c, checks, i + 1); }
  }

  lemma {:induction false} MokaConsumes(codec: Codec, inner: MokaStore, c: Counters, checks: seq<Check>, k: nat, now: int)
    requires Faithful(codec) && MokaHolds(codec, inner, c) && k <= |checks| && ChecksFit(c, checks[..k], now)
    ensures MokaHolds(codec, MokaConsumed(codec, inner, checks, k, now), Consumed(c, checks[..k]))
  {
    if k > 0 {
      assert checks[..k][..k - 1] == checks[..k - 1];
      MokaConsumes(codec, inner, c, checks, k - 1, now);
      var before, check := MokaConsumed(codec, inner, checks, k - 1, now), checks[k - 1];
      var (current, existing) := ReadEntry(codec, before, check.key);
      WriteHolds(codec, before, Consumed(c, checks[..k - 1]), check.key, current + check.amount,
                 if check.ttl.Some? then Some(ExpiryFromTtl(check.ttl.value, now)) else existing);
    }
  }

  lemma MokaChecks(codec: Codec, inner: MokaStore, c: Counters, checks: seq<Check>, now: int)
    requires Faithful(codec) && MokaHolds(codec, inner, c) && ChecksFit(c, checks, now)
    ensures MokaCheck(codec, inner, checks, now).1 == CheckAndConsume(c, checks).1
    ensures MokaHolds(codec, MokaCheck(codec, inner, checks, now).0, CheckAndConsume(c, checks).0)
  {
    assert checks[..|checks|] == checks;
    MokaFindsOver(codec, inner, c, checks, 0);
    if FirstOver(c, checks, 0).None? { MokaConsumes(codec, inner, c, checks, |checks|, now); }
  }

  lemma MokaRefines(codec: Codec, inner: MokaStore, c: Counters, op: CacheOp)
    requires Faithful(codec) && MokaHolds(codec, inner, c) && StepFits(c, op)
    ensures MokaStep(codec, inner, op).1 == SpecStep(c, op).1 && MokaHolds(codec, MokaStep(codec, inner, op).0, SpecStep(c, op).0)
  {
    match op {
      case CheckOp(checks, now) => MokaChecks(codec, inner, c, checks, now);
      case AdjustOp(key, amount) => WriteHolds(codec, inner, c, key, Clamped(Value(c, key) + amount), ReadEntry(codec, inner, key).1);
      case AcquireOp(key, max, ttl, now) => WriteHolds(codec, inner, c, key, Value(c, key) + 1, Some(ExpiryFromTtl(ttl, now)));
      case ReleaseOp(key) => WriteHolds(codec, inner, c, key, Clamped(Value(c, key) - 1), ReadEntry(codec, inner, key).1);
    }
  }

  lemma SetHolds(store: RedisStore, c: Counters, key: string, expiry: Option<int>, value: int)
    requires RedisHolds(store, c)
    ensures RedisHolds(store[key := RedisEntry(value, expiry)], c[key := value])
  {
    var store', c' := store[key := RedisEntry(value, expiry)], c[key := value];
    forall other ensures RedisValue(store', other) == Value(c', other) {
      assert RedisValue(store, other) == Value(c, other);
    }
  }

  lemma {:induction false} RedisFindsOver(store: RedisStore, c: Counters, checks: seq<Check>, i: nat)
    requires RedisHolds(store, c) && i <= |checks|
    ensures RedisFirstOver(store, checks, i) == FirstOver(c, checks, i)
    decreases |checks| - i
  {
    if i < |checks| { RedisFindsOver(store, c, checks, i + 1); }
  }

  lemma {:induction false} RedisConsumes(store: RedisStore, c: Counters, checks: seq<Check>, k: nat, now: int)
    requires RedisHolds(store, c) && k <= |checks|
    ensures RedisHolds(RedisConsumed(store, checks, k, now), Consumed(c, checks[..k]))
  {
    if k > 0 {
      assert checks[..k][..k - 1] == checks[..k - 1];
      RedisConsumes(store, c, checks, k - 1, now);
      var before, check := RedisConsumed(store, checks, k - 1, now), checks[k - 1];
      var value := RedisValue(before, check.key) + check.amount;
      SetHolds(before, Consumed(c, checks[..k - 1]), check.key, RedisConsumed(store, checks, k, now)[check.key].expiresAt, value);
      assert RedisConsumed(store, checks, k, now) ==
             before[check.key := RedisEntry(value, RedisConsumed(store, checks, k, now)[check.key].expiresAt)];
    }
  }

  lemma RedisChecks(store: RedisStore, c: Counters, checks: seq<Check>, now: int)
    requires RedisHolds(store, c)
    ensures RedisCheck(store, checks, now).1 == CheckAndConsume(c, checks).1
    ensures RedisHolds(RedisCheck(store, checks, now).0, CheckAndConsume(c, checks).0)
  {
    assert checks[..|checks|] == checks;
    RedisFindsOver(store, c, checks, 0);
    if FirstOver(c, checks, 0).None? { RedisConsumes(store, c, checks, |checks|, now); }
  }

  lemma RedisRefines(store: RedisStore, c: Counters, op: CacheOp)
    requires RedisHolds(store, c)
    ensures RedisStep(store, op).1 == SpecStep(c, op).1 && RedisHolds(RedisStep(store, op).0, SpecStep(c, op).0)
  {
    match op {
      case CheckOp(checks, now) => RedisChecks(store, c, checks, now);
      case AdjustOp(key, amount) => SetHolds(store, c, key, RedisStep(store, op).0[key].expiresAt, Clamped(Value(c, key) + amount));
      case AcquireOp(key, max, ttl, now) => SetHolds(store, c, key, Some(now + if ttl < 1 then 1 else ttl), Value(c, key) + 1);
      case ReleaseOp(key) => SetHolds(store, c, key, RedisStep(store, op).0[key].expiresAt, Clamped(Value(c, key) - 1));
    }
  }

  function SpecRun(ops: seq<CacheOp>): (Counters, seq<Reply>) {
    if ops == [] then (map[], [])
    else
      var (c, replies) := SpecRun(ops[..|ops| - 1]);
      var (c', reply) := SpecStep(c, ops[|ops| - 1]);
      (c', replies + [reply])
  }

  function MokaRun(codec: Codec, ops: seq<CacheOp>): (MokaStore, seq<Reply>) {
    if ops == [] then (map[], [])
    else
      var (inner, replies) := MokaRun(codec, ops[..|ops| - 1]);
      var (inner', reply) := MokaStep(codec, inner, ops[|ops| - 1]);
      (inner', replies + [reply])
  }

  function RedisRun(ops: seq<CacheOp>): (RedisStore, seq<Reply>) {
    if ops == [] then (map[], [])
    else
      var (store, replies) := RedisRun(ops[..|ops| - 1]);
      var (store', reply) := RedisStep(store, ops[|ops| - 1]);
      (store', replies + [reply])
  }

  predicate RunFits(ops: seq<CacheOp>) {
    ops == [] || (RunFits(ops[..|ops| - 1]) && StepFits(SpecRun(ops[..|ops| - 1]).0, ops[|ops| - 1]))
  }

  lemma {:induction false} RunsRefine(codec: Codec, ops: seq<CacheOp>)
    requires Faithful(codec) && RunFits(ops)
    ensures MokaRun(codec, ops).1 == SpecRun(ops).1 && MokaHolds(codec, MokaRun(codec, ops).0, SpecRun(ops).0)
    ensures RedisRun(ops).1 == SpecRun(ops).1 && RedisHolds(RedisRun(ops).0, SpecRun(ops).0)
  {
    if ops != [] {
      RunsRefine(codec, ops[..|ops| - 1]);
      var c, op := SpecRun(ops[..|ops| - 1]).0, ops[|ops| - 1];
      MokaRefines(codec, MokaRun(codec, ops[..|ops| - 1]).0, c, op);
      RedisRefines(RedisRun(ops[..|ops| - 1]).0, c, op);
    }
  }

  /** Leaving expiry aside, the two backends give the same replies and hold the same counters after any
      sequence of operations. */
  lemma BackendsAgree(ops: seq<CacheOp>, key: string)
    requires RunFits(ops)
    ensures MokaRun(TEXT, ops).1 == RedisRun(ops).1
    ensures ReadEntry(TEXT, MokaRun(TEXT, ops).0, key).0 == RedisValue(RedisRun(ops).0, key)
  {
    TextIsFaithful();
    RunsRefine(TEXT, ops);
    assert MokaHolds(TEXT, MokaRun(TEXT, ops).0, SpecRun(ops).0) && RedisHolds(RedisRun(ops).0, SpecRun(ops).0);
  }

  /** They do not agree on when a counter expires. A check with a time-to-live moves the expiry of an existing
      in-process counter ... */
  lemma MokaMovesExpiry(codec: Codec, value: int, expiry: int, check: Check, now: int)
    requires Faithful(codec) && InI64(value) && InI64(expiry) && InI64(value + check.amount)
    requires check.max < 0 && check.ttl.Some? && InI64(ExpiryFromTtl(check.ttl.value, now))
    ensures var inner := WriteEntry(codec, map[], check.key, value, Some(expiry));
            ReadEntry(codec, MokaCheck(codec, inner, [check], now).0, check.key) == (value + check.amount, Some(ExpiryFromTtl(check.ttl.value, now)))
  {
    var inner := WriteEntry(codec, map[], check.key, value, Some(expiry));
    ReadAfterWrite(codec, map[], check.key, value, Some(expiry), check.key);
    ReadAfterWrite(codec, inner, check.key, value + check.amount, Some(ExpiryFromTtl(check.ttl.value, now)), check.key);
    assert MokaFirstOver(codec, inner, [check], 1) == None;
    assert MokaFirstOver(codec, inner, [check], 0) == None;
    assert MokaConsumed(codec, inner, [check], 0, now) == inner;
    assert MokaConsumed(codec, inner, [check], 1, now) == MokaConsumedOne(codec, inner, check, now);
  }

  /** ... and leaves the expiry of an existing Redis counter where it was. */
  lemma RedisKeepsExpiry(value: int, expiry: int, check: Check, now: int)
    requires check.max < 0
    ensures var store := map[check.key := RedisEntry(value, Some(expiry))];
            RedisCheck(store, [check], now).0 == map[check.key := RedisEntry(value + check.amount, Some(expiry))]
  {
    var store := map[check.key := RedisEntry(value, Some(expiry))];
    assert RedisFirstOver(store, [check], 1) == None;
    assert RedisFirstOver(store, [check], 0) == None;
    assert RedisConsumed(store, [check], 0, now) == store;
    assert RedisConsumed(store, [check], 1, now) == IncrBy(store, check.key, check.amount);
  }

  // --- When counters expire ---------------------------------------------------------------------------------

  /** The time to live of the last check of a key that has one. */
  function LastTtl(checks: seq<Check>, key: string): Option<nat> {
    if checks == [] then None
    else
      var last := checks[|checks| - 1];
      if last.key == key && last.ttl.Some? then last.ttl else LastTtl(checks[..|checks| - 1], key)
  }

  /** The first time to live above zero of the checks of a key. */
  function FirstTtl(checks: seq<Check>, key: string): Option<nat> {
    if checks == [] then None
    else
      var before, last := FirstTtl(checks[..|checks| - 1], key), checks[|checks| - 1];
      if before.None? && last.key == key && last.ttl.Some? && last.ttl.value > 0 then last.ttl else before
  }

  function MokaExpiry(codec: Codec, inner: MokaStore, key: string): Option<int> { ReadEntry(codec, inner, key).1 }

  function RedisExpiry(store: RedisStore, key: string): Option<int> { if key in store then store[key].expiresAt else None }

  lemma OneCheckExpires(codec: Codec, before: MokaStore, check: Check, now: int, key: string)
    requires Faithful(codec) && InI64(ReadEntry(codec, before, check.key).0 + check.amount)
    requires check.ttl.Some? ==> InI64(ExpiryFromTtl(check.ttl.value, now))
    ensures MokaExpiry(codec, MokaConsumedOne(codec, before, check, now), key)
            == if key == check.key && check.ttl.Some? then Some(now / 1000 + check.ttl.value / 1000) else MokaExpiry(codec, before, key)
  {
    var (current, existing) := ReadEntry(codec, before, check.key);
    ReadAfterWrite(codec, before, check.key, current + check.amount,
                   if check.ttl.Some? then Some(ExpiryFromTtl(check.ttl.value, now)) else existing, key);
  }

  lemma LastTtlNext(checks: seq<Check>, k: nat, key: string)
    requires k < |checks|
    ensures LastTtl(checks[..k + 1], key) == if checks[k].key == key && checks[k].ttl.Some? then checks[k].ttl else LastTtl(checks[..k], key)
  {
    assert checks[..k + 1][..k] == checks[..k];
  }

  lemma {:induction false} MokaConsumedExpiry(codec: Codec, inner: MokaStore, c: Counters, checks: seq<Check>, k: nat, now: int, key: string)
    requires Faithful(codec) && MokaHolds(codec, inner, c) && k <= |checks| && ChecksFit(c, checks[..k], now)
    ensures MokaExpiry(codec, MokaConsumed(codec, inner, checks, k, now), key)
            == var ttl := LastTtl(checks[..k], key); if ttl.Some? then Some(now / 1000 + ttl.value / 1000) else MokaExpiry(codec, inner, key)
  {
    if k > 0 {
      CheckFits(c, checks, k - 1, now);
      MokaConsumedExpiry(codec, inner, c, checks, k - 1, now, key);
      MokaConsumes(codec, inner, c, checks, k - 1, now);
      LastTtlNext(checks, k - 1, key);
      OneCheckExpires(codec, MokaConsumed(codec, inner, checks, k - 1, now), checks[k - 1], now, key);
    }
  }

  lemma CheckFits(c: Counters, checks: seq<Check>, k: nat, now: int)
    requires k < |checks| && ChecksFit(c, checks[..k + 1], now)
    ensures ChecksFit(c, checks[..k], now) && InI64(Value(Consumed(c, checks[..k]), checks[k].key) + checks[k].amount)
    ensures checks[k].ttl.Some? ==> InI64(ExpiryFromTtl(checks[k].ttl.value, now))
  {
    assert checks[..k + 1][..k] == checks[..k];
  }

  /** In the in-process store a granted slot and an allowed check with a time to live set the expiry of their counter, in whole
      seconds, the last check of a key deciding; nothing else moves an expiry. */
  lemma MokaExpiryExactly(codec: Codec, inner: MokaStore, c: Counters, op: CacheOp, key: string)
    requires Faithful(codec) && MokaHolds(codec, inner, c) && StepFits(c, op)
    ensures MokaExpiry(codec, MokaStep(codec, inner, op).0, key) ==
            if op.CheckOp? && SpecStep(c, op).1 == Checked(Allowed) && LastTtl(op.checks, key).Some?
            then Some(op.now / 1000 + LastTtl(op.checks, key).value / 1000)
            else if op.AcquireOp? && op.key == key && (op.max < 0 || Value(c, key) < op.max) then Some(op.now / 1000 + op.ttl / 1000)
            else MokaExpiry(codec, inner, key)
  {
    match op {
      case CheckOp(checks, now) =>
        MokaChecks(codec, inner, c, checks, now);
        assert checks[..|checks|] == checks;
        MokaConsumedExpiry(codec, inner, c, checks, |checks|, now, key);
      case AdjustOp(k, amount) =>
        ReadAfterWrite(codec, inner, k, Clamped(Value(c, k) + amount), ReadEntry(codec, inner, k).1, key);
      case AcquireOp(k, max, ttl, now) => ReadAfterWrite(codec, inner, k, Value(c, k) + 1, Some(ExpiryFromTtl(ttl, now)), key);
      case ReleaseOp(k) => ReadAfterWrite(codec, inner, k, Clamped(Value(c, k) - 1), ReadEntry(codec, inner, k).1, key);
    }
  }

  lemma {:induction false} RedisConsumedExpiry(store: RedisStore, checks: seq<Check>, k: nat, now: int, key: string)
    requires k <= |checks|
    ensures RedisExpiry(RedisConsumed(store, checks, k, now), key)
            == var ttl := FirstTtl(checks[..k], key);
               if RedisExpiry(store, key).None? && ttl.Some? then Some(now + ttl.value) else RedisExpiry(store, key)
  {
    if k > 0 {
      assert checks[..k][..k - 1] == checks[..k - 1];
      RedisConsumedExpiry(store, checks, k - 1, now, key);
    }
  }

  /** In Redis a granted slot sets the expiry of its counter, at least a millisecond ahead; an allowed check with a time to live
      sets that of a counter that has none, the first check of a key deciding; nothing else moves an expiry. */
  lemma RedisExpiryExactly(store: RedisStore, c: Counters, op: CacheOp, key: string)
    requires RedisHolds(store, c)
    ensures RedisExpiry(RedisStep(store, op).0, key) ==
            if op.CheckOp? && SpecStep(c, op).1 == Checked(Allowed) && RedisExpiry(store, key).None? && FirstTtl(op.checks, key).Some?
            then Some(op.now + FirstTtl(op.checks, key).value)
            else if op.AcquireOp? && op.key == key && (op.max < 0 || Value(c, key) < op.max)
            then Some(op.now + if op.ttl == 0 then 1 else op.ttl)
            else RedisExpiry(store, key)
  {
    RedisRefines(store, c, op);
    if op.CheckOp? {
      assert op.checks[..|op.checks|] == op.checks;
      RedisConsumedExpiry(store, op.checks, |op.checks|, op.now, key);
    } else if op.AcquireOp? {
      assert RedisValue(store, op.key) == Value(c, op.key);
    }
  }
}
