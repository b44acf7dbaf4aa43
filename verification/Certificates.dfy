/** Certificate issuance under a lease and a generation
    (apps/control-api/src/domain/acme.rs, certificates.rs). Times are seconds. */
module Certificates {
  import opened Basics

  const LEASE_SECONDS := 600
  const RENEW_SECONDS := 30 * 86_400

  datatype Issuer = ManualIssuer | LetsEncrypt | ZeroSsl
  datatype Status = StatusPending | StatusIssuing | StatusActive | StatusFailed | StatusDisabled

  /** A certificate with its key; what it certifies is decided by an uninterpreted check. */
  datatype Bundle = Bundle(material: nat, expiresAt: int)

  type Validity = (string, Bundle, int) -> bool

  /** Generations are fresh identifiers, drawn from a counter. */
  datatype Cert = Cert(
    hostname: string,
    ingress: nat,
    issuer: Issuer,
    contact: string,
    autoRenew: bool,
    status: Status,
    generation: nat,
    leaseUntil: Option<int>,
    retryAt: Option<int>,
    failures: nat,
    bundle: Option<Bundle>,
    account: Option<nat>,
    challenge: Option<nat>)

  /** An issuance attempt: the row it claimed, as it read it, and whether it has ended by writing its result. */
  datatype Claim = Claim(row: nat, generation: nat, hostname: string, failures: nat, until: int, finished: bool)

  datatype State = State(rows: seq<Cert>, claims: seq<Claim>, nextGeneration: nat)

  const INITIAL := State([], [], 0)

  datatype CertError = Missing | InProgress | ManualOnly | Delayed | Invalid | Changed

  // --- Pure rules --------------------------------------------------------------------------------

  function Shift(k: nat): nat { if k == 0 then 1 else 2 * Shift(k - 1) }

  function RetryDelay(failures: int): nat {
    var shift := if failures < 0 then 0 else if failures > 8 then 8 else failures;
    var delay := 300 * Shift(shift);
    if delay < 86_400 then delay else 86_400
  }

  predicate InFuture(t: Option<int>, now: int) { t.Some? && t.value > now }

  predicate Due(c: Cert, now: int) {
    && !c.issuer.ManualIssuer? && !InFuture(c.leaseUntil, now) && !InFuture(c.retryAt, now)
    && (c.status.StatusPending? || c.status.StatusIssuing? || c.status.StatusFailed?
        || c.bundle.None? || (c.autoRenew && c.bundle.value.expiresAt - now <= RENEW_SECONDS))
  }

  // --- The competing writers -----------------------------------------------------------------------

  function SetCert(s: State, i: nat, c: Cert): State
    requires i < |s.rows|
  {
    s.(rows := s.rows[i := c])
  }

  /** A new generation for row `i`. */
  function Regenerated(s: State, i: nat, c: Cert): State
    requires i < |s.rows|
  {
    s.(rows := s.rows[i := c.(generation := s.nextGeneration)], nextGeneration := s.nextGeneration + 1)
  }

  function NewCert(hostname: string, ingress: nat, issuer: Issuer, contact: string, generation: nat): Cert {
    Cert(hostname, ingress, issuer, contact, true, StatusPending, generation, None, None, 0, None, None, None)
  }

  /** The row of binding `i` follows the binding's host and ingress; a missing row is created. */
  function EnsureRecord(s: State, i: nat, hostname: string, ingress: nat, issuer: Issuer, contact: string, now: int): Result<State, CertError> {
    if i > |s.rows| then Err(Missing)
    else if i == |s.rows| then
      Ok(s.(rows := s.rows + [NewCert(hostname, ingress, issuer, contact, s.nextGeneration)], nextGeneration := s.nextGeneration + 1))
    else
      var c := s.rows[i];
      if c.hostname == hostname && c.ingress == ingress then Ok(s)
      else if InFuture(c.leaseUntil, now) then Err(InProgress)
      else
        Ok(Regenerated(s, i, c.(hostname := hostname, ingress := ingress, account := None, status := StatusPending, retryAt := None,
                                failures := 0, leaseUntil := None, challenge := None,
                                bundle := if c.hostname == hostname then c.bundle else None)))
  }

  function Queue(s: State, i: nat, now: int): Result<State, CertError> {
    if i >= |s.rows| then Err(Missing) else
    var c := s.rows[i];
    if c.issuer.ManualIssuer? then Err(ManualOnly)
    else if InFuture(c.leaseUntil, now) then Err(InProgress)
    else if InFuture(c.retryAt, now) then Err(Delayed)
    else Ok(Regenerated(s, i, c.(status := StatusPending, retryAt := None)))
  }

  function Import(valid: Validity, s: State, i: nat, bundle: Bundle, now: int): Result<State, CertError> {
    if i >= |s.rows| then Err(Missing) else
    var c := s.rows[i];
    if InFuture(c.leaseUntil, now) then Err(InProgress)
    else if !valid(c.hostname, bundle, now) then Err(Invalid)
    else Ok(Regenerated(s, i, c.(issuer := ManualIssuer, autoRenew := false, status := StatusActive, bundle := Some(bundle),
                                 leaseUntil := None, retryAt := None, failures := 0, challenge := None)))
  }

  /** The settings form: it was filled in from the row at generation `seen`. */
  function UpdateSettings(s: State, i: nat, seen: nat, autoRenew: Option<bool>, issuer: Option<Issuer>, now: int): Result<State, CertError> {
    if i >= |s.rows| then Err(Missing)
    else
      var c := s.rows[i];
      if c.generation != seen || InFuture(c.leaseUntil, now) then Err(Changed)
      else
        var renewed := if autoRenew.Some? then c.(autoRenew := autoRenew.value) else c;
        var issued := if issuer.Some? then renewed.(issuer := issuer.value, account := None) else renewed;
        var restarted := if issuer.Some? && issuer.value != c.issuer then issued.(status := StatusPending, retryAt := None, failures := 0) else issued;
        Ok(Regenerated(s, i, restarted))
  }

  // --- An issuance attempt ----------------------------------------------------------------------------

  /** A worker that read the row at generation `seen` claims it. `eligible` and `ready` are the checks on the
      binding, the ingress and its entry nodes. */
  function ClaimRow(s: State, i: nat, seen: nat, eligible: bool, ready: bool, contact: string, issuer: Issuer, now: int): Result<State, CertError> {
    if i >= |s.rows| then Err(Missing)
    else
      var c := s.rows[i];
      if c.generation != seen || !Due(c, now) || !eligible || !ready then Err(Changed)
      else
        var account := if c.contact == contact && c.issuer == issuer then c.account else None;
        var claimed := Regenerated(s, i, c.(leaseUntil := Some(now + LEASE_SECONDS), status := StatusIssuing, contact := contact,
                                            issuer := issuer, account := account));
        Ok(claimed.(claims := s.claims + [Claim(i, s.nextGeneration, c.hostname, c.failures, now + LEASE_SECONDS, false)]))
  }

  /** Every write of an attempt is conditional on the generation it claimed. */
  predicate Owns(s: State, k: nat)
    requires k < |s.claims|
  {
    s.claims[k].row < |s.rows| && s.rows[s.claims[k].row].generation == s.claims[k].generation
  }

  datatype AttemptWrite = WriteAccount(account: nat) | WriteChallenge(challenge: nat) | ClearChallenge | Finish(result: Option<Bundle>, eligible: bool)

  /** The row after the final write; an unusable bundle counts as a failure, and a domain that became
      ineligible leaves everything as it is. */
  function Finished(valid: Validity, c: Cert, claim: Claim, result: Option<Bundle>, eligible: bool, now: int): Option<Cert> {
    if result.Some? && valid(claim.hostname, result.value, now) then
      if !eligible then None
      else Some(c.(leaseUntil := None, bundle := result, status := StatusActive, retryAt := None, failures := 0))
    else Some(c.(leaseUntil := None, status := StatusFailed, retryAt := Some(now + RetryDelay(claim.failures)), failures := claim.failures + 1))
  }

  function Attempt(valid: Validity, s: State, k: nat, w: AttemptWrite, now: int): State {
    if k >= |s.claims| || !Owns(s, k) then s
    else
      var claim := s.claims[k];
      var c := s.rows[claim.row];
      match w
      case WriteAccount(a) => SetCert(s, claim.row, c.(account := Some(a)))
      case WriteChallenge(x) => SetCert(s, claim.row, c.(challenge := Some(x)))
      case ClearChallenge => SetCert(s, claim.row, c.(challenge := None))
      case Finish(result, eligible) =>
        var done := Finished(valid, c, claim, result, eligible, now);
        if done.None? then s else SetCert(s, claim.row, done.value).(claims := s.claims[k := claim.(finished := true)])
  }

  /** The sweep clears a challenge left behind on a row it read at generation `seen`. */
  function SweepChallenge(s: State, i: nat, seen: nat): State {
    if i < |s.rows| && s.rows[i].generation == seen then SetCert(s, i, s.rows[i].(challenge := None)) else s
  }

  // --- The table, updated in place -----------------------------------------------------------------------

  class CertificateTable {
    var rows: seq<Cert>
    var nextGeneration: nat
    /** The attempts of all workers, running and stalled. */
    ghost var claims: seq<Claim>

    ghost function Snapshot(): State
      reads this
    {
      State(rows, claims, nextGeneration)
    }

    /** The transaction did what the specification does; a failed one changed nothing. */
    ghost predicate Did(before: State, spec: Result<State, CertError>, error: Option<CertError>)
      reads this
    {
      match spec
      case Ok(s) => error.None? && Snapshot() == s
      case Err(e) => error == Some(e) && Snapshot() == before
    }

    constructor ()
      ensures Snapshot() == INITIAL
    {
      rows, nextGeneration, claims := [], 0, [];
    }

    method NewGeneration() returns (generation: nat)
      modifies this`nextGeneration
      ensures generation == old(nextGeneration) && nextGeneration == generation + 1
    {
      generation := nextGeneration;
      nextGeneration := nextGeneration + 1;
    }

    method EnsureRow(i: nat, hostname: string, ingress: nat, issuer: Issuer, contact: string, now: int) returns (error: Option<CertError>)
      modifies this
      ensures Did(old(Snapshot()), EnsureRecord(old(Snapshot()), i, hostname, ingress, issuer, contact, now), error)
    {
      if i > |rows| { return Some(Missing); }
      if i == |rows| {
        var generation := NewGeneration();
        rows := rows + [NewCert(hostname, ingress, issuer, contact, generation)];
        return None;
      }
      var item := rows[i];
      if item.hostname == hostname && item.ingress == ingress { return None; }
      var active := item.(hostname := hostname, ingress := ingress);
      if InFuture(item.leaseUntil, now) { return Some(InProgress); }
      active := active.(account := None, status := StatusPending, retryAt := None, failures := 0, leaseUntil := None);
      var generation := NewGeneration();
      active := active.(generation := generation, challenge := None);
      if item.hostname != hostname { active := active.(bundle := None); }
      rows := rows[i := active];
      error := None;
    }

    method QueueRow(i: nat, now: int) returns (error: Option<CertError>)
      modifies this
      ensures Did(old(Snapshot()), Queue(old(Snapshot()), i, now), error)
    {
      if i >= |rows| { return Some(Missing); }
      var item := rows[i];
      if item.issuer.ManualIssuer? { return Some(ManualOnly); }
      if InFuture(item.leaseUntil, now) { return Some(InProgress); }
      if InFuture(item.retryAt, now) { return Some(Delayed); }
      var active := item.(status := StatusPending, retryAt := None);
      var generation := NewGeneration();
      rows := rows[i := active.(generation := generation)];
      error := None;
    }

    method ImportRow(valid: Validity, i: nat, bundle: Bundle, now: int) returns (error: Option<CertError>)
      modifies this
      ensures Did(old(Snapshot()), Import(valid, old(Snapshot()), i, bundle, now), error)
    {
      if i >= |rows| { return Some(Missing); }
      var item := rows[i];
      if InFuture(item.leaseUntil, now) { return Some(InProgress); }
      if !valid(item.hostname, bundle, now) { return Some(Invalid); }
      var active := item.(issuer := ManualIssuer, autoRenew := false, status := StatusActive, bundle := Some(bundle));
      var generation := NewGeneration();
      active := active.(generation := generation, leaseUntil := None, retryAt := None, failures := 0, challenge := None);
      rows := rows[i := active];
      error := None;
    }

    /** The claim of an attempt, which keeps the row as it locked it. */
    method ClaimDue(i: nat, seen: nat, eligible: bool, ready: bool, contact: string, issuer: Issuer, now: int)
      returns (error: Option<CertError>, item: Option<Cert>)
      modifies this
      ensures Did(old(Snapshot()), ClaimRow(old(Snapshot()), i, seen, eligible, ready, contact, issuer, now), error)
      ensures error.None? ==> i < |rows| && item == Some(rows[i])
    {
      item := None;
      if i >= |rows| { return Some(Missing), None; }
      var locked := rows[i];
      if locked.generation != seen || !Due(locked, now) || !eligible || !ready { return Some(Changed), None; }
      var active := locked.(leaseUntil := Some(now + LEASE_SECONDS), status := StatusIssuing);
      var generation := NewGeneration();
      active := active.(generation := generation);
      if locked.contact != contact { active := active.(account := None); }
      active := active.(contact := contact);
      if locked.issuer != issuer { active := active.(issuer := issuer, account := None); }
      rows := rows[i := active];
      claims := claims + [Claim(i, generation, locked.hostname, locked.failures, now + LEASE_SECONDS, false)];
      return None, Some(active);
    }

    /** The attempt that keeps `item` for row `i` is the one logged as claim `k`. */
    ghost predicate IsAttempt(k: nat, i: nat, item: Cert)
      reads this
    {
      k < |claims| && claims[k].row == i && claims[k].generation == item.generation
      && claims[k].hostname == item.hostname && claims[k].failures == item.failures
    }

    /** Writes only while the row still has the generation of `item`. */
    method SaveCurrent(i: nat, item: Cert, active: Cert) returns (saved: bool)
      modifies this`rows
      ensures saved <==> i < |old(rows)| && old(rows)[i].generation == item.generation
      ensures |rows| == |old(rows)| && rows == if saved then old(rows)[i := active] else old(rows)
    {
      saved := i < |rows| && rows[i].generation == item.generation;
      if saved { rows := rows[i := active]; }
    }

    method Cleanup(i: nat, item: Cert, valid: Validity, ghost k: nat, now: int) returns (saved: bool)
      requires IsAttempt(k, i, item)
      modifies this`rows
      ensures Snapshot() == Attempt(valid, old(Snapshot()), k, ClearChallenge, now)
    {
      if i >= |rows| || rows[i].generation != item.generation { return false; }
      saved := SaveCurrent(i, item, rows[i].(challenge := None));
    }

    /** The end of an attempt: the outcome is written, or the attempt finds that it has lost the row. */
    method EndAttempt(i: nat, item: Cert, valid: Validity, result: Option<Bundle>, eligible: bool, ghost k: nat, now: int) returns (saved: bool)
      requires IsAttempt(k, i, item)
      modifies this`rows, this`claims
      ensures Snapshot() == Attempt(valid, old(Snapshot()), k, Finish(result, eligible), now)
    {
      if i >= |rows| || rows[i].generation != item.generation { return false; }
      var active := rows[i].(leaseUntil := None);
      if result.Some? && valid(item.hostname, result.value, now) {
        if !eligible { return false; }
        active := active.(bundle := result, status := StatusActive, retryAt := None, failures := 0);
      } else {
        active := active.(status := StatusFailed, retryAt := Some(now + RetryDelay(item.failures)), failures := item.failures + 1);
      }
      saved := SaveCurrent(i, item, active);
      claims := claims[k := claims[k].(finished := true)];
    }
  }

  // --- Runs -----------------------------------------------------------------------------------------------

  datatype Op =
    | OEnsure(row: nat, hostname: string, ingress: nat, issuer_: Issuer, contact: string, now: int)
    | OQueue(row: nat, now: int)
    | OImport(row: nat, bundle: Bundle, now: int)
    | OUpdate(row: nat, seen: nat, autoRenew: Option<bool>, issuer: Option<Issuer>, now: int)
    | OClaim(row: nat, seen: nat, eligible: bool, ready: bool, contact: string, issuer_: Issuer, now: int)
    | OAttempt(claim: nat, write: AttemptWrite, now: int)
    | OSweep(row: nat, seen: nat, now: int)

  function Commit(s: State, r: Result<State, CertError>): State { if r.Ok? then r.value else s }

  function Step(valid: Validity, s: State, op: Op): State {
    match op
    case OEnsure(i, hostname, ingress, issuer, contact, now) => Commit(s, EnsureRecord(s, i, hostname, ingress, issuer, contact, now))
    case OQueue(i, now) => Commit(s, Queue(s, i, now))
    case OImport(i, bundle, now) => Commit(s, Import(valid, s, i, bundle, now))
    case OUpdate(i, seen, renew, issuer, now) => Commit(s, UpdateSettings(s, i, seen, renew, issuer, now))
    case OClaim(i, seen, eligible, ready, contact, issuer, now) => Commit(s, ClaimRow(s, i, seen, eligible, ready, contact, issuer, now))
    case OAttempt(k, w, now) => Attempt(valid, s, k, w, now)
    case OSweep(i, seen, _) => SweepChallenge(s, i, seen)
  }

  function Run(valid: Validity, ops: seq<Op>): State {
    if ops == [] then INITIAL else Step(valid, Run(valid, ops[..|ops| - 1]), ops[|ops| - 1])
  }

  /** The clock never goes backwards and has not passed `now`. */
  predicate RunsUntil(ops: seq<Op>, now: int) {
    ops == [] || (ops[|ops| - 1].now <= now && RunsUntil(ops[..|ops| - 1], ops[|ops| - 1].now))
  }

  // --- What every run keeps --------------------------------------------------------------------------------

  /** The attempt holds a lease that has not expired. */
  predicate Holds(c: Claim, now: int) { !c.finished && now < c.until }

  /** The stored bundle, if any, passed the check for the row's hostname at some earlier moment. */
  ghost predicate Validated(valid: Validity, c: Cert, clock: int) {
    c.bundle.Some? ==> exists t: int :: t <= clock && valid(c.hostname, c.bundle.value, t)
  }

  predicate ClaimSound(s: State, k: nat, clock: int)
    requires k < |s.claims|
  {
    var c := s.claims[k];
    && c.row < |s.rows| && c.generation < s.nextGeneration
    && (Owns(s, k) ==> s.rows[c.row].hostname == c.hostname)
    && (Holds(c, clock) ==> Owns(s, k) && s.rows[c.row].leaseUntil == Some(c.until))
  }

  ghost predicate CertInvariant(valid: Validity, s: State, clock: int) {
    && (forall i: nat :: i < |s.rows| ==> s.rows[i].generation < s.nextGeneration && Validated(valid, s.rows[i], clock))
    && (forall k: nat :: k < |s.claims| ==> ClaimSound(s, k, clock))
    && (forall j: nat, k: nat :: j < |s.claims| && k < |s.claims| && j != k ==> s.claims[j].generation != s.claims[k].generation)
  }

  lemma LaterKeeps(valid: Validity, s: State, clock: int, now: int)
    requires CertInvariant(valid, s, clock) && clock <= now
    ensures CertInvariant(valid, s, now)
  {
    forall i: nat | i < |s.rows| ensures Validated(valid, s.rows[i], now) { assert Validated(valid, s.rows[i], clock); }
    forall k: nat | k < |s.claims| ensures ClaimSound(s, k, now) { assert ClaimSound(s, k, clock); }
  }

  /** Rewriting a row under a new generation is safe when no unexpired lease covers it. */
  lemma RegenerateKeeps(valid: Validity, s: State, i: nat, c: Cert, now: int)
    requires CertInvariant(valid, s, now) && i < |s.rows| && !InFuture(s.rows[i].leaseUntil, now)
    requires Validated(valid, c, now)
    ensures CertInvariant(valid, Regenerated(s, i, c), now)
  {
    var s' := Regenerated(s, i, c);
    forall k: nat | k < |s.claims| ensures ClaimSound(s', k, now) { assert ClaimSound(s, k, now); }
    forall j: nat | j < |s'.rows| ensures Validated(valid, s'.rows[j], now) {
      if j != i { assert Validated(valid, s.rows[j], now); }
    }
  }

  lemma EnsureKeeps(valid: Validity, s: State, i: nat, hostname: string, ingress: nat, issuer: Issuer, contact: string, now: int)
    requires CertInvariant(valid, s, now) && EnsureRecord(s, i, hostname, ingress, issuer, contact, now).Ok?
    ensures CertInvariant(valid, EnsureRecord(s, i, hostname, ingress, issuer, contact, now).value, now)
  {
    var s' := EnsureRecord(s, i, hostname, ingress, issuer, contact, now).value;
    if i == |s.rows| {
      forall j: nat | j < |s'.rows| ensures Validated(valid, s'.rows[j], now) {
        if j < i { assert Validated(valid, s.rows[j], now); }
      }
      forall k: nat | k < |s.claims| ensures ClaimSound(s', k, now) { assert ClaimSound(s, k, now); }
    } else {
      assert Validated(valid, s.rows[i], now);
      if s' != s {
        var c := s'.rows[i];
        assert Regenerated(s, i, c) == s';
        RegenerateKeeps(valid, s, i, c, now);
      }
    }
  }

  lemma ClaimKeeps(valid: Validity, s: State, i: nat, seen: nat, eligible: bool, ready: bool, contact: string, issuer: Issuer, now: int)
    requires CertInvariant(valid, s, now) && ClaimRow(s, i, seen, eligible, ready, contact, issuer, now).Ok?
    ensures CertInvariant(valid, ClaimRow(s, i, seen, eligible, ready, contact, issuer, now).value, now)
  {
    var s' := ClaimRow(s, i, seen, eligible, ready, contact, issuer, now).value;
    assert Validated(valid, s.rows[i], now);
    RegenerateKeeps(valid, s, i, s'.rows[i], now);
    var mid := Regenerated(s, i, s'.rows[i]);
    forall k: nat | k < |s'.claims| ensures ClaimSound(s', k, now) {
      if k < |s.claims| { assert ClaimSound(mid, k, now); }
    }
    forall k: nat | k < |s.claims| ensures s.claims[k].generation != s.nextGeneration { assert ClaimSound(s, k, now); }
  }

  lemma AttemptKeeps(valid: Validity, s: State, k: nat, w: AttemptWrite, now: int)
    requires CertInvariant(valid, s, now)
    ensures CertInvariant(valid, Attempt(valid, s, k, w, now), now)
  {
    var s' := Attempt(valid, s, k, w, now);
    if s' != s {
      var claim := s.claims[k];
      assert ClaimSound(s, k, now);
      assert Validated(valid, s.rows[claim.row], now);
      forall i: nat | i < |s'.rows| ensures Validated(valid, s'.rows[i], now) {
        if i != claim.row { assert Validated(valid, s.rows[i], now); }
      }
      forall j: nat | j < |s.claims| ensures ClaimSound(s', j, now) { assert ClaimSound(s, j, now); }
    }
  }

  lemma SweepKeeps(valid: Validity, s: State, i: nat, seen: nat, now: int)
    requires CertInvariant(valid, s, now)
    ensures CertInvariant(valid, SweepChallenge(s, i, seen), now)
  {
    var s' := SweepChallenge(s, i, seen);
    forall j: nat | j < |s'.rows| ensures Validated(valid, s'.rows[j], now) { assert Validated(valid, s.rows[j], now); }
    forall k: nat | k < |s.claims| ensures ClaimSound(s', k, now) { assert ClaimSound(s, k, now); }
  }

  lemma StepKeeps(valid: Validity, s: State, op: Op, clock: int)
    requires CertInvariant(valid, s, clock) && clock <= op.now
    ensures CertInvariant(valid, Step(valid, s, op), op.now)
  {
    LaterKeeps(valid, s, clock, op.now);
    match op {
      case OEnsure(i, hostname, ingress, issuer, contact, now) =>
        if EnsureRecord(s, i, hostname, ingress, issuer, contact, now).Ok? { EnsureKeeps(valid, s, i, hostname, ingress, issuer, contact, now); }
      case OQueue(i, now) =>
        if Queue(s, i, now).Ok? {
          assert Validated(valid, s.rows[i], now);
          RegenerateKeeps(valid, s, i, s.rows[i].(status := StatusPending, retryAt := None), now);
        }
      case OImport(i, bundle, now) =>
        if Import(valid, s, i, bundle, now).Ok? { RegenerateKeeps(valid, s, i, Step(valid, s, op).rows[i], now); }
      case OUpdate(i, seen, renew, issuer, now) =>
        if UpdateSettings(s, i, seen, renew, issuer, now).Ok? {
          assert Validated(valid, s.rows[i], now);
          RegenerateKeeps(valid, s, i, Step(valid, s, op).rows[i], now);
        }
      case OClaim(i, seen, eligible, ready, contact, issuer, now) =>
        if ClaimRow(s, i, seen, eligible, ready, contact, issuer, now).Ok? { ClaimKeeps(valid, s, i, seen, eligible, ready, contact, issuer, now); }
      case OAttempt(k, w, now) => AttemptKeeps(valid, s, k, w, now);
      case OSweep(i, seen, now) => SweepKeeps(valid, s, i, seen, now);
    }
  }

  lemma {:induction false} RunKeeps(valid: Validity, ops: seq<Op>, now: int)
    requires RunsUntil(ops, now)
    ensures CertInvariant(valid, Run(valid, ops), now)
  {
    if ops != [] {
      var before, op := ops[..|ops| - 1], ops[|ops| - 1];
      RunKeeps(valid, before, op.now);
      StepKeeps(valid, Run(valid, before), op, op.now);
      LaterKeeps(valid, Run(valid, ops), op.now, now);
    }
  }

  /** In every interleaving a stored bundle was validated for the hostname the row has now. */
  lemma BundlesMatchTheirHost(valid: Validity, ops: seq<Op>, now: int, i: nat)
    requires RunsUntil(ops, now) && i < |Run(valid, ops).rows| && Run(valid, ops).rows[i].bundle.Some?
    ensures var c := Run(valid, ops).rows[i]; exists t: int :: t <= now && valid(c.hostname, c.bundle.value, t)
  {
    RunKeeps(valid, ops, now);
    assert Validated(valid, Run(valid, ops).rows[i], now);
  }

  /** Two attempts never hold unexpired leases of one row at once, and the one that holds it cannot be fenced out:
      the row still has its generation and its lease. */
  lemma LeasesAreExclusive(valid: Validity, ops: seq<Op>, now: int, j: nat, k: nat)
    requires RunsUntil(ops, now) && j < |Run(valid, ops).claims| && k < |Run(valid, ops).claims|
    requires Holds(Run(valid, ops).claims[j], now)
    ensures Owns(Run(valid, ops), j)
    ensures j != k && Run(valid, ops).claims[k].row == Run(valid, ops).claims[j].row ==> !Holds(Run(valid, ops).claims[k], now)
  {
    RunKeeps(valid, ops, now);
    assert ClaimSound(Run(valid, ops), j, now) && ClaimSound(Run(valid, ops), k, now);
  }

  /** The holder of an unexpired lease is never fenced out: a valid result it writes for an eligible domain is
      stored, and its lease ends. */
  lemma HolderStores(valid: Validity, ops: seq<Op>, s: State, now: int, k: nat, bundle: Bundle)
    requires RunsUntil(ops, now) && s == Run(valid, ops) && k < |s.claims| && Holds(s.claims[k], now)
    requires valid(s.claims[k].hostname, bundle, now)
    ensures var s' := Attempt(valid, s, k, Finish(Some(bundle), true), now);
            var i := s.claims[k].row;
            && i < |s.rows| && s'.rows == s.rows[i := s'.rows[i]]
            && s'.rows[i].bundle == Some(bundle) && s'.rows[i].status.StatusActive? && s'.rows[i].leaseUntil.None?
            && s'.rows[i].generation == s.rows[i].generation && !Holds(s'.claims[k], now)
  {
    RunKeeps(valid, ops, now);
    assert ClaimSound(s, k, now);
  }

  /** Once a claim has lost its row, no later step gives it back. */
  lemma StepKeepsLost(valid: Validity, s: State, op: Op, k: nat)
    requires CertInvariant(valid, s, op.now) && k < |s.claims| && !Owns(s, k)
    ensures var s' := Step(valid, s, op); k < |s'.claims| && s'.claims[k] == s.claims[k] && !Owns(s', k)
  {
    assert ClaimSound(s, k, op.now);
  }

  /** Fencing over whole runs: after a claim has lost its row, whatever its worker still tries changes nothing. */
  lemma {:induction false} SupersededNeverWrites(valid: Validity, ops: seq<Op>, more: seq<Op>, now: int, k: nat, w: AttemptWrite)
    requires RunsUntil(ops + more, now) && k < |Run(valid, ops).claims| && !Owns(Run(valid, ops), k)
    ensures var s := Run(valid, ops + more);
            k < |s.claims| && !Owns(s, k) && Attempt(valid, s, k, w, now) == s
    decreases |more|
  {
    if more == [] {
      assert ops + more == ops;
    } else {
      var before, op := more[..|more| - 1], more[|more| - 1];
      assert (ops + more)[..|ops + more| - 1] == ops + before;
      SupersededNeverWrites(valid, ops, before, op.now, k, w);
      RunKeeps(valid, ops + before, op.now);
      StepKeepsLost(valid, Run(valid, ops + before), op, k);
    }
  }

  /** Every other writer that succeeds on a row takes it away from all earlier claims: a rename or a change of
      ingress, a queued retry, an import, a settings change and a new claim all leave earlier attempts fenced out. */
  lemma WritersFence(valid: Validity, s: State, op: Op, k: nat)
    requires CertInvariant(valid, s, op.now) && k < |s.claims|
    requires op.OEnsure? || op.OQueue? || op.OImport? || op.OUpdate? || op.OClaim?
    requires op.row == s.claims[k].row && Step(valid, s, op) != s
    ensures !Owns(Step(valid, s, op), k)
  {
    assert ClaimSound(s, k, op.now);
  }

  /** Retries wait five minutes, doubling with each failure up to the eighth; the cap of a day is never reached. */
  lemma RetryDelays(failures: int)
    ensures 300 <= RetryDelay(failures) <= 76_800
    ensures 0 <= failures < 8 ==> RetryDelay(failures + 1) == 2 * RetryDelay(failures)
    ensures failures >= 8 ==> RetryDelay(failures) == 76_800
    ensures failures <= 0 ==> RetryDelay(failures) == 300
  {
    assert Shift(4) == 16;
    assert Shift(8) == 256;
  }
}
