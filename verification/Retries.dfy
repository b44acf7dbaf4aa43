/** What each writer of a certificate row answers and writes, and how long a failed row rests. */
module Retries {
  import opened Basics
  import opened Certificates

  // --- Claims ------------------------------------------------------------------------------------------

  predicate Passed(t: Option<int>, now: int) { t == None || t.value <= now }

  /** The row can be issued or renewed now: no lease runs, no retry is waited for, and it was never issued, is not issued at the
      moment, or expires within thirty days and renews itself. */
  predicate Wants(c: Cert, now: int) {
    && c.issuer != ManualIssuer && Passed(c.leaseUntil, now) && Passed(c.retryAt, now)
    && (c.status in {StatusPending, StatusIssuing, StatusFailed} || c.bundle == None
        || (c.autoRenew && c.bundle.value.expiresAt <= now + 2_592_000))
  }

  /** A worker claims the row it read exactly when the row is still the one it read and wants it, and the domain and its entry nodes
      allow it. The claim logs what the row held, gives it a new generation and a lease of 600 seconds, and keeps the account only
      for the same contact and issuer. */
  lemma ClaimExactly(s: State, i: nat, seen: nat, eligible: bool, ready: bool, contact: string, issuer: Issuer, now: int)
    ensures var r := ClaimRow(s, i, seen, eligible, ready, contact, issuer, now);
            && (r == Err(Missing) <==> i >= |s.rows|)
            && (r.Ok? <==> i < |s.rows| && s.rows[i].generation == seen && Wants(s.rows[i], now) && eligible && ready)
            && (r.Err? && i < |s.rows| ==> r == Err(Changed))
            && (r.Ok? ==>
                 var c := s.rows[i];
                 var account := if c.contact == contact && c.issuer == issuer then c.account else None;
                 r.value == State(s.rows[i := Cert(c.hostname, c.ingress, issuer, contact, c.autoRenew, StatusIssuing, s.nextGeneration,
                                                   Some(now + 600), c.retryAt, c.failures, c.bundle, account, c.challenge)],
                                  s.claims + [Claim(i, s.nextGeneration, c.hostname, c.failures, now + 600, false)], s.nextGeneration + 1))
  {
    if i < |s.rows| { DueMeans(s.rows[i], now); }
  }

  lemma DueMeans(c: Cert, now: int)
    ensures Due(c, now) <==> Wants(c, now)
  {
  }

  // --- The other writers -------------------------------------------------------------------------------

  /** A binding's row is created, left alone while host and ingress are the same, refused while a lease runs, and otherwise starts
      again for the new ones; a bundle stays only for the same host. */
  lemma EnsureExactly(s: State, i: nat, hostname: string, ingress: nat, issuer: Issuer, contact: string, now: int)
    ensures var r := EnsureRecord(s, i, hostname, ingress, issuer, contact, now);
            && (r == Err(Missing) <==> i > |s.rows|)
            && (r == Err(InProgress) <==>
                  i < |s.rows| && (s.rows[i].hostname != hostname || s.rows[i].ingress != ingress) && !Passed(s.rows[i].leaseUntil, now))
            && (i == |s.rows| ==>
                 r == Ok(State(s.rows + [Cert(hostname, ingress, issuer, contact, true, StatusPending, s.nextGeneration, None, None, 0, None, None, None)],
                               s.claims, s.nextGeneration + 1)))
            && (i < |s.rows| && s.rows[i].hostname == hostname && s.rows[i].ingress == ingress ==> r == Ok(s))
            && (i < |s.rows| && (s.rows[i].hostname != hostname || s.rows[i].ingress != ingress) && r.Ok? ==>
                 var c := s.rows[i];
                 r.value == State(s.rows[i := Cert(hostname, ingress, c.issuer, c.contact, c.autoRenew, StatusPending, s.nextGeneration, None, None, 0,
                                                   if c.hostname == hostname then c.bundle else None, None, None)],
                                  s.claims, s.nextGeneration + 1))
            && (r.Err? ==> r.error in {Missing, InProgress})
  {
  }

  /** A row is queued again unless it is manual, leased or resting, each refused with its own error, in this order. */
  lemma QueueExactly(s: State, i: nat, now: int)
    ensures var r := Queue(s, i, now);
            && (r == Err(Missing) <==> i >= |s.rows|)
            && (i < |s.rows| ==>
                 var c := s.rows[i];
                 && (r == Err(ManualOnly) <==> c.issuer == ManualIssuer)
                 && (r == Err(InProgress) <==> c.issuer != ManualIssuer && !Passed(c.leaseUntil, now))
                 && (r == Err(Delayed) <==> c.issuer != ManualIssuer && Passed(c.leaseUntil, now) && !Passed(c.retryAt, now))
                 && (r.Ok? <==> c.issuer != ManualIssuer && Passed(c.leaseUntil, now) && Passed(c.retryAt, now))
                 && (r.Ok? ==> r.value == State(s.rows[i := c.(status := StatusPending, retryAt := None, generation := s.nextGeneration)],
                                                s.claims, s.nextGeneration + 1)))
  {
  }

  /** A bundle is imported exactly when no lease runs and it is valid for the row's host; the row is manual from then on. */
  lemma ImportExactly(valid: Validity, s: State, i: nat, bundle: Bundle, now: int)
    ensures var r := Import(valid, s, i, bundle, now);
            && (r == Err(Missing) <==> i >= |s.rows|)
            && (i < |s.rows| ==>
                 var c := s.rows[i];
                 && (r == Err(InProgress) <==> !Passed(c.leaseUntil, now))
                 && (r == Err(Invalid) <==> Passed(c.leaseUntil, now) && !valid(c.hostname, bundle, now))
                 && (r.Ok? <==> Passed(c.leaseUntil, now) && valid(c.hostname, bundle, now))
                 && (r.Ok? ==>
                      r.value == State(s.rows[i := Cert(c.hostname, c.ingress, ManualIssuer, c.contact, false, StatusActive, s.nextGeneration, None, None, 0,
                                                        Some(bundle), c.account, None)], s.claims, s.nextGeneration + 1)))
  {
  }

  /** The settings are changed exactly when the row is the one the form was filled in from and no lease runs. Naming an issuer
      forgets the account, and another issuer starts the row again. */
  lemma SettingsExactly(s: State, i: nat, seen: nat, autoRenew: Option<bool>, issuer: Option<Issuer>, now: int)
    ensures var r := UpdateSettings(s, i, seen, autoRenew, issuer, now);
            && (r == Err(Missing) <==> i >= |s.rows|)
            && (i < |s.rows| ==>
                 var c := s.rows[i];
                 && (r.Ok? <==> c.generation == seen && Passed(c.leaseUntil, now))
                 && (r.Err? ==> r == Err(Changed))
                 && (r.Ok? ==>
                      var renews := if autoRenew == None then c.autoRenew else autoRenew.value;
                      var next := if issuer == None then c.issuer else issuer.value;
                      var account := if issuer == None then c.account else None;
                      var row := if next == c.issuer
                                 then Cert(c.hostname, c.ingress, c.issuer, c.contact, renews, c.status, s.nextGeneration, c.leaseUntil, c.retryAt, c.failures,
                                           c.bundle, account, c.challenge)
                                 else Cert(c.hostname, c.ingress, next, c.contact, renews, StatusPending, s.nextGeneration, c.leaseUntil, None, 0,
                                           c.bundle, account, c.challenge);
                      r.value == State(s.rows[i := row], s.claims, s.nextGeneration + 1)))
  {
  }

  // --- Attempts ----------------------------------------------------------------------------------------

  predicate StillOwns(s: State, k: nat) {
    k < |s.claims| && s.claims[k].row < |s.rows| && s.rows[s.claims[k].row].generation == s.claims[k].generation
  }

  function Doublings(k: nat): nat { if k == 0 then 300 else 2 * Doublings(k - 1) }

  lemma {:induction false} DoublingsShift(k: nat)
    ensures Doublings(k) == 300 * Shift(k)
  {
    if k > 0 { DoublingsShift(k - 1); }
  }

  lemma DelayIsDoubled(failures: nat)
    ensures RetryDelay(failures) == Doublings(if failures <= 8 then failures else 8)
  {
    DoublingsShift(if failures <= 8 then failures else 8);
    RetryDelays(failures);
    RetryDelays(8);
    assert Shift(8) == 256;
    ShiftGrows(if failures <= 8 then failures else 8);
  }

  lemma {:induction false} ShiftGrows(k: nat)
    requires k <= 8
    ensures Shift(k) <= 256
  {
    assert Shift(8) == 2 * Shift(7) && Shift(7) == 2 * Shift(6) && Shift(6) == 2 * Shift(5) && Shift(5) == 2 * Shift(4);
    assert Shift(4) == 2 * Shift(3) && Shift(3) == 2 * Shift(2) && Shift(2) == 2 * Shift(1) && Shift(1) == 2;
  }

  /** An attempt that still owns its row ends it: a valid bundle for an eligible domain is stored, one for a domain that is not
      eligible any more changes nothing, and everything else counts one more failure than it began with, frees the lease and rests
      the row for five minutes, doubled for each failure before, eight times at most. What was stored before stays. */
  lemma AttemptEnds(valid: Validity, s: State, k: nat, result: Option<Bundle>, eligible: bool, now: int)
    requires StillOwns(s, k)
    ensures var claim := s.claims[k];
            var c := s.rows[claim.row];
            var good := result.Some? && valid(claim.hostname, result.value, now);
            var s' := Attempt(valid, s, k, Finish(result, eligible), now);
            var row := if good then c.(leaseUntil := None, bundle := result, status := StatusActive, retryAt := None, failures := 0)
                       else c.(leaseUntil := None, status := StatusFailed, failures := claim.failures + 1,
                               retryAt := Some(now + Doublings(if claim.failures <= 8 then claim.failures else 8)));
            s' == if good && !eligible then s
                  else State(s.rows[claim.row := row], s.claims[k := claim.(finished := true)], s.nextGeneration)
  {
    DelayIsDoubled(s.claims[k].failures);
  }

  /** While it goes on it writes the account and the challenge; without the row it writes nothing. */
  lemma AttemptGoesOn(valid: Validity, s: State, k: nat, w: AttemptWrite, now: int)
    ensures !StillOwns(s, k) ==> Attempt(valid, s, k, w, now) == s
    ensures StillOwns(s, k) && w.WriteAccount? ==>
              Attempt(valid, s, k, w, now) == s.(rows := s.rows[s.claims[k].row := s.rows[s.claims[k].row].(account := Some(w.account))])
    ensures StillOwns(s, k) && w.WriteChallenge? ==>
              Attempt(valid, s, k, w, now) == s.(rows := s.rows[s.claims[k].row := s.rows[s.claims[k].row].(challenge := Some(w.challenge))])
    ensures StillOwns(s, k) && w.ClearChallenge? ==>
              Attempt(valid, s, k, w, now) == s.(rows := s.rows[s.claims[k].row := s.rows[s.claims[k].row].(challenge := None)])
  {
  }

  lemma SweepExactly(s: State, i: nat, seen: nat)
    ensures SweepChallenge(s, i, seen) ==
            if i < |s.rows| && s.rows[i].generation == seen then s.(rows := s.rows[i := s.rows[i].(challenge := None)]) else s
  {
  }

  // --- Rests -------------------------------------------------------------------------------------------

  predicate Rests(s: State, i: nat, until: int) {
    i < |s.rows| && s.rows[i].retryAt == Some(until)
  }

  /** Nothing but another host or ingress, an import or new settings for the row, or the end of an attempt on it, ends its rest. */
  predicate Disturbs(s: State, op: Op, i: nat) {
    ((op.OEnsure? || op.OImport? || op.OUpdate?) && op.row == i)
    || (op.OAttempt? && op.write.Finish? && op.claim < |s.claims| && s.claims[op.claim].row == i)
  }

  /** The claims are the same, but for their ends, and new ones are of other rows. */
  predicate NoNewClaim(s: State, s': State, i: nat) {
    && |s.claims| <= |s'.claims| && (forall k: nat :: k < |s.claims| ==> s'.claims[k].row == s.claims[k].row)
    && forall k: nat :: |s.claims| <= k < |s'.claims| ==> s'.claims[k].row != i
  }

  /** Row `i` still rests, as it did, and was not claimed. */
  predicate RestedOn(s: State, s': State, i: nat, until: int) {
    Rests(s, i, until) && Rests(s', i, until) && s'.rows[i].generation == s.rows[i].generation && NoNewClaim(s, s', i)
  }

  lemma RestIsKept(valid: Validity, s: State, op: Op, i: nat, until: int, s': State)
    requires Rests(s, i, until) && op.now < until && !Disturbs(s, op, i) && s' == Step(valid, s, op)
    ensures RestedOn(s, s', i, until)
  {
    if op.OClaim? && op.row == i { DueMeans(s.rows[i], op.now); }
  }

  lemma RestChain(s: State, mid: State, s': State, i: nat, until: int)
    requires RestedOn(s, mid, i, until) && RestedOn(mid, s', i, until)
    ensures RestedOn(s, s', i, until)
  {
  }

  /** No step of the run reaches the time or disturbs the rest. */
  ghost predicate Undisturbed(valid: Validity, ops: seq<Op>, more: seq<Op>, i: nat, until: int) {
    forall k: nat :: k < |more| ==> more[k].now < until && !Disturbs(Run(valid, ops + more[..k]), more[k], i)
  }

  lemma UndisturbedBefore(valid: Validity, ops: seq<Op>, more: seq<Op>, i: nat, until: int)
    requires Undisturbed(valid, ops, more, i, until) && more != []
    ensures var before := more[..|more| - 1];
            && Undisturbed(valid, ops, before, i, until)
            && more[|more| - 1].now < until && !Disturbs(Run(valid, ops + before), more[|more| - 1], i)
            && Run(valid, ops + more) == Step(valid, Run(valid, ops + before), more[|more| - 1])
  {
    var before := more[..|more| - 1];
    forall k: nat | k < |before| ensures before[k].now < until && !Disturbs(Run(valid, ops + before[..k]), before[k], i) {
      assert before[..k] == more[..k];
    }
    RunSnoc(valid, ops, more);
  }

  lemma RunSnoc(valid: Validity, ops: seq<Op>, more: seq<Op>)
    requires more != []
    ensures Run(valid, ops + more) == Step(valid, Run(valid, ops + more[..|more| - 1]), more[|more| - 1])
  {
    assert (ops + more)[..|ops + more| - 1] == ops + more[..|more| - 1];
  }

  /** A row that rests is neither claimed nor queued before its time, whatever else happens: from any state of a run, over any
      further steps. */
  lemma {:induction false} RestsUntilRetry(valid: Validity, ops: seq<Op>, more: seq<Op>, i: nat, until: int)
    requires Rests(Run(valid, ops), i, until) && Undisturbed(valid, ops, more, i, until)
    ensures RestedOn(Run(valid, ops), Run(valid, ops + more), i, until)
    decreases |more|
  {
    if more == [] {
      assert ops + more == ops;
    } else {
      var before, op := more[..|more| - 1], more[|more| - 1];
      UndisturbedBefore(valid, ops, more, i, until);
      RestsUntilRetry(valid, ops, before, i, until);
      RestIsKept(valid, Run(valid, ops + before), op, i, until, Run(valid, ops + more));
      RestChain(Run(valid, ops), Run(valid, ops + before), Run(valid, ops + more), i, until);
    }
  }
}
