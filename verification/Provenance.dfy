/** What stands behind trust, over whole runs of the system: the proof a decision rests on, and the nonce that proof
    consumed (strategies/ca_ztcf.py, identity/proof.py). */
module Provenance {
  import opened Base
  import opened Policy
  import opened Identity
  import opened Counters
  import opened Bindings
  import opened Collector
  import opened Trust
  import opened Strategy

  // -- the proof ------------------------------------------------------------------

  /** At place i of the run the device presented a proof that verified. */
  ghost predicate ProvedAt(s: System, cfg: Deployment, actions: seq<Action>, i: nat, d: Text) {
    && i < |actions| && actions[i].Decided? && actions[i].request.deviceId == d
    && Proves(ActAll(s, cfg, actions[..i]), actions[i].request)
  }

  /** Every stored proof was presented in some earlier request of its device. */
  lemma {:induction false} StoredProof(s: System, cfg: Deployment, actions: seq<Action>, n: nat, d: Text)
    returns (i: nat)
    requires n <= |actions| && s.proofs == map[] && WellKeyed(s.registry)
    requires forall k | 0 <= k < |actions| :: KeepsKeys(actions[k])
    ensures WellKeyed(ActAll(s, cfg, actions[..n]).registry)
    ensures var proofs := ActAll(s, cfg, actions[..n]).proofs;
      d in proofs ==>
        && i < n && ProvedAt(s, cfg, actions, i, d)
        && proofs[d].valid && proofs[d].verifiedAt == Some(actions[i].request.clock.verified)
    decreases n
  {
    hide Act, Proves, WellKeyed, KeepsKeys;
    i := 0;
    if n > 0 {
      var before := ActAll(s, cfg, actions[..n - 1]);
      i := StoredProof(s, cfg, actions, n - 1, d);
      assert actions[..n][..n - 1] == actions[..n - 1];
      ActAllStep(s, cfg, actions[..n]);
      ActProofs(before, cfg, actions[n - 1], d);
      var after := ActAll(s, cfg, actions[..n]);
      if d in after.proofs && !(d in before.proofs && after.proofs[d] == before.proofs[d]) {
        i := n - 1;
      }
    }
  }

  /** Over any run that starts with no stored proofs, a decision at or above TRANSITIONAL traces back to a proof the
      device itself presented, in this request or an earlier one, no longer ago than the proof lifetime. The result is
      the place of that request, |actions| standing for this one. */
  lemma TrustRestsOnProof(s: System, cfg: Deployment, actions: seq<Action>, r: Request) returns (i: nat)
    requires s.proofs == map[] && WellKeyed(s.registry) && forall k | 0 <= k < |actions| :: KeepsKeys(actions[k])
    ensures var all := actions + [Decided(r)];
      Rank(Decide(ActAll(s, cfg, actions), cfg, r).1.trustState) >= Rank(TRANSITIONAL) ==>
        ProvedAt(s, cfg, all, i, r.deviceId) && Now(r) - all[i].request.clock.verified <= cfg.settings.popTtl
  {
    hide Act, ActAll, Decide, Gather, ProofStep, Proves, WellKeyed, KeepsKeys, EvaluatePosture;
    var all, now := actions + [Decided(r)], ActAll(s, cfg, actions);
    assert actions[..|actions|] == actions && all[..|actions|] == actions;
    i := StoredProof(s, cfg, actions, |actions|, r.deviceId);
    TrustNeedsEvidence(now, cfg, r);
    DecideLeaves(now, cfg, r);
    ProofStepResult(now, cfg, r);
    var pop := Gather(now, cfg, r).2.pop;
    if Proves(now, r) && pop.Some? && pop.value.verifiedAt == Some(r.clock.verified) {
      i := |actions|;
    } else if r.deviceId in now.proofs {
      assert all[..i] == actions[..i];
    }
  }

  // -- the nonce ------------------------------------------------------------------

  /** The verifier tries the request's nonce: the device is registered and the proof names it. */
  predicate Tries(s: System, r: Request) {
    r.deviceId in s.registry && r.proof.Some? && r.proof.value.deviceId == s.registry[r.deviceId].deviceId
  }

  /** What an action means for the nonce table. */
  function NonceEvents(s: System, a: Action): seq<NonceEvent> {
    match a
    case NonceRequested(nonce, d, now) => [NonceIssued(nonce, d, now)]
    case Decided(r) =>
      if Tries(s, r) then [NonceTried(r.proof.value.nonce, r.proof.value.deviceId, r.clock.consumed)] else []
    case _ => []
  }

  /** What has happened to nonces in the first n actions of a run. */
  function NonceLog(s: System, cfg: Deployment, actions: seq<Action>, n: nat): seq<NonceEvent>
    requires n <= |actions|
  {
    if n == 0 then []
    else NonceLog(s, cfg, actions, n - 1) + NonceEvents(ActAll(s, cfg, actions[..n - 1]), actions[n - 1])
  }

  /** None of the first n actions issued a nonce after this instant. */
  ghost predicate NoIssueAfter(actions: seq<Action>, n: nat, q: Instant) {
    n <= |actions| && forall k | 0 <= k < n && actions[k].NonceRequested? :: actions[k].now <= q
  }

  lemma ProofStepNonces(s: System, cfg: Deployment, r: Request)
    ensures ProofStep(s, cfg, r).0.nonces == if Tries(s, r) then s.nonces - {r.proof.value.nonce} else s.nonces
  {
    hide VerifyProof, AddFailure;
    if r.deviceId in s.registry && r.proof.Some? {
      VerifyMeans(s.nonces, s.registry[r.deviceId].deviceId, r.proof.value, r.check, r.clock.verified,
                  r.clock.consumed);
    }
  }

  /** The effect of an action on the table is that of its events. */
  lemma ActTracks(s: System, cfg: Deployment, a: Action, log: seq<NonceEvent>)
    requires Tracks(s.nonces, log, cfg.nonceTtl)
    ensures Tracks(Act(s, cfg, a).nonces, log + NonceEvents(s, a), cfg.nonceTtl)
  {
    hide Decide, ProofStep, Tracks, IssueNonce, Upsert, ResetIn;
    assert log + [] == log;
    match a
    case NonceRequested(nonce, d, now) => IssueTracks(s.nonces, log, nonce, d, now, cfg.nonceTtl);
    case Decided(r) =>
      DecideLeaves(s, cfg, r);
      ProofStepNonces(s, cfg, r);
      if Tries(s, r) {
        TryTracks(s.nonces, log, r.proof.value.nonce, r.proof.value.deviceId, r.clock.consumed, cfg.nonceTtl);
      }
    case _ =>
  }

  lemma {:induction false} NoncesTracked(s: System, cfg: Deployment, actions: seq<Action>, n: nat)
    requires n <= |actions| && s.nonces == map[]
    ensures Tracks(ActAll(s, cfg, actions[..n]).nonces, NonceLog(s, cfg, actions, n), cfg.nonceTtl)
    decreases n
  {
    hide Act, NonceEvents, Tries;
    if n > 0 {
      hide Tracks;
      NoncesTracked(s, cfg, actions, n - 1);
      assert actions[..n][..n - 1] == actions[..n - 1];
      ActAllStep(s, cfg, actions[..n]);
      ActTracks(ActAll(s, cfg, actions[..n - 1]), cfg, actions[n - 1], NonceLog(s, cfg, actions, n - 1));
    }
  }

  lemma {:induction false} LogNotAfter(s: System, cfg: Deployment, actions: seq<Action>, n: nat, q: Instant)
    requires NoIssueAfter(actions, n, q)
    ensures Identity.NotAfter(NonceLog(s, cfg, actions, n), q)
    decreases n
  {
    hide ActAll, Tries;
    if n > 0 {
      LogNotAfter(s, cfg, actions, n - 1, q);
      var events := NonceEvents(ActAll(s, cfg, actions[..n - 1]), actions[n - 1]);
      assert forall i | 0 <= i < |events| && events[i].NonceIssued? :: events[i].at <= q;
    }
  }

  /** The k-th action issues the nonce, or has the verifier try it. */
  ghost predicate Touches(s: System, cfg: Deployment, actions: seq<Action>, k: nat, nonce: Text) {
    && k < |actions|
    && var a := actions[k];
    || (a.NonceRequested? && a.nonce == nonce)
    || (a.Decided? && Tries(ActAll(s, cfg, actions[..k]), a.request) && a.request.proof.value.nonce == nonce)
  }

  ghost predicate Untouched(s: System, cfg: Deployment, actions: seq<Action>, from: nat, to: nat, nonce: Text) {
    forall k: nat | from < k < to :: !Touches(s, cfg, actions, k, nonce)
  }

  /** An outstanding nonce was issued by some action, and nothing has touched it since. */
  lemma {:induction false} NonceSource(s: System, cfg: Deployment, actions: seq<Action>, n: nat, nonce: Text)
    returns (j: nat)
    requires n <= |actions| && Outstanding(NonceLog(s, cfg, actions, n), nonce, cfg.nonceTtl).Some?
    ensures j < n && actions[j].NonceRequested? && actions[j].nonce == nonce
    ensures Outstanding(NonceLog(s, cfg, actions, n), nonce, cfg.nonceTtl)
         == Some(Issued(actions[j].deviceId, actions[j].now + cfg.nonceTtl))
    ensures Untouched(s, cfg, actions, j, n, nonce)
    decreases n
  {
    hide ActAll, Tries, Outstanding;
    NothingOutstanding(nonce, cfg.nonceTtl);
    var a, log := actions[n - 1], NonceLog(s, cfg, actions, n - 1);
    var events := NonceEvents(ActAll(s, cfg, actions[..n - 1]), a);
    if events != [] {
      OutstandingGrows(log, events[0], nonce, cfg.nonceTtl);
      assert log + events == log + [events[0]];
    } else {
      assert log + events == log;
    }
    if a.NonceRequested? && a.nonce == nonce {
      j := n - 1;
    } else {
      j := NonceSource(s, cfg, actions, n - 1, nonce);
    }
  }

  lemma NothingOutstanding(nonce: Text, ttl: int)
    ensures Outstanding([], nonce, ttl) == None
  {}

  predicate IssuedFor(a: Action, nonce: Text, d: Text) {
    a.NonceRequested? && a.nonce == nonce && a.deviceId == d
  }

  /** The i-th action presents d's proof, its signature holds, and its nonce is the one the j-th action issued to d,
      unexpired and neither tried nor reissued in between. */
  ghost predicate Consumes(s: System, cfg: Deployment, actions: seq<Action>, i: nat, j: nat, d: Text) {
    && j < i < |actions|
    && var a := actions[i];
    && a.Decided? && a.request.deviceId == d && a.request.proof.Some? && a.request.check == Verified
    && var nonce := a.request.proof.value.nonce;
    && IssuedFor(actions[j], nonce, d)
    && a.request.clock.consumed <= actions[j].now + cfg.nonceTtl
    && Untouched(s, cfg, actions, j, i, nonce)
  }

  /** Over any run from an empty table, its clocks running any way: a proof that verified consumed a nonce that had been
      issued to that device, was unexpired, and had been neither tried nor reissued in between; and its signature was
      the device's. */
  lemma ProofConsumesNonce(s: System, cfg: Deployment, actions: seq<Action>, i: nat, d: Text) returns (j: nat)
    requires s.nonces == map[] && WellKeyed(s.registry) && forall k | 0 <= k < |actions| :: KeepsKeys(actions[k])
    requires ProvedAt(s, cfg, actions, i, d)
    ensures Consumes(s, cfg, actions, i, j, d)
  {
    hide ActAll, Tracks, WellKeyed, KeepsKeys, Untouched, NonceLog, Outstanding;
    var r, before := actions[i].request, ActAll(s, cfg, actions[..i]);
    NoncesTracked(s, cfg, actions, i);
    KeysKept(s, cfg, actions, i, d);
    VerifiesUsable(before.nonces, NonceLog(s, cfg, actions, i), before.registry[d].deviceId, r.proof.value, r.check,
                   r.clock.consumed, cfg.nonceTtl);
    j := NonceSource(s, cfg, actions, i, r.proof.value.nonce);
  }

  /** An issued nonce stays outstanding as long as nothing touches it. */
  lemma {:induction false} StaysOutstanding(s: System, cfg: Deployment, actions: seq<Action>, j: nat, n: nat,
                                            nonce: Text)
    requires j < n <= |actions| && actions[j].NonceRequested? && actions[j].nonce == nonce
    requires Untouched(s, cfg, actions, j, n, nonce)
    ensures Outstanding(NonceLog(s, cfg, actions, n), nonce, cfg.nonceTtl)
         == Some(Issued(actions[j].deviceId, actions[j].now + cfg.nonceTtl))
    decreases n
  {
    hide ActAll, Tries, Outstanding;
    var a, log := actions[n - 1], NonceLog(s, cfg, actions, n - 1);
    var events := NonceEvents(ActAll(s, cfg, actions[..n - 1]), a);
    if events != [] {
      OutstandingGrows(log, events[0], nonce, cfg.nonceTtl);
      assert log + events == log + [events[0]];
    } else {
      assert log + events == log;
    }
    if j < n - 1 {
      assert !Touches(s, cfg, actions, n - 1, nonce);
      StaysOutstanding(s, cfg, actions, j, n - 1, nonce);
    }
  }

  /** And the other way: a registered device's own proof over such a nonce does verify, as long as no nonce was issued
      at a later instant, which would have purged it. */
  lemma NonceEarnsProof(s: System, cfg: Deployment, actions: seq<Action>, i: nat, j: nat, d: Text)
    requires s.nonces == map[] && WellKeyed(s.registry) && forall k | 0 <= k < |actions| :: KeepsKeys(actions[k])
    requires Consumes(s, cfg, actions, i, j, d) && NoIssueAfter(actions, i, actions[i].request.clock.consumed)
    requires d in ActAll(s, cfg, actions[..i]).registry && actions[i].request.proof.value.deviceId == d
    ensures ProvedAt(s, cfg, actions, i, d)
  {
    hide ActAll, Tracks, WellKeyed, KeepsKeys, Untouched, NonceLog, Outstanding, NoIssueAfter;
    var r, before := actions[i].request, ActAll(s, cfg, actions[..i]);
    NoncesTracked(s, cfg, actions, i);
    KeysKept(s, cfg, actions, i, d);
    LogNotAfter(s, cfg, actions, i, r.clock.consumed);
    StaysOutstanding(s, cfg, actions, j, i, r.proof.value.nonce);
    VerifiesIsLog(before.nonces, NonceLog(s, cfg, actions, i), d, r.proof.value, r.check, r.clock.consumed,
        cfg.nonceTtl);
  }

  lemma {:induction false} KeysKept(s: System, cfg: Deployment, actions: seq<Action>, n: nat, d: Text)
    requires n <= |actions| && WellKeyed(s.registry) && forall k | 0 <= k < |actions| :: KeepsKeys(actions[k])
    ensures var registry := ActAll(s, cfg, actions[..n]).registry;
      WellKeyed(registry) && (d in registry ==> registry[d].deviceId == d)
    decreases n
  {
    hide Act, KeepsKeys;
    if n > 0 {
      KeysKept(s, cfg, actions, n - 1, d);
      assert actions[..n][..n - 1] == actions[..n - 1];
      ActAllStep(s, cfg, actions[..n]);
      ActProofs(ActAll(s, cfg, actions[..n - 1]), cfg, actions[n - 1], d);
    }
  }

  /** Two proofs that verified with one nonce, whichever devices presented them, have an issue of that nonce between
      them: a nonce is good for one proof. */
  lemma OneProofPerNonce(s: System, cfg: Deployment, actions: seq<Action>, i: nat, k: nat, d: Text, e: Text)
    returns (j: nat)
    requires s.nonces == map[] && WellKeyed(s.registry) && forall n | 0 <= n < |actions| :: KeepsKeys(actions[n])
    requires i < k
    requires ProvedAt(s, cfg, actions, i, d) && ProvedAt(s, cfg, actions, k, e)
    requires actions[i].request.proof.value.nonce == actions[k].request.proof.value.nonce
    ensures i < j < k && IssuedFor(actions[j], actions[i].request.proof.value.nonce, e)
  {
    hide ActAll, WellKeyed, KeepsKeys;
    j := ProofConsumesNonce(s, cfg, actions, k, e);
    var nonce := actions[i].request.proof.value.nonce;
    assert Touches(s, cfg, actions, i, nonce);
  }

  /** The whole chain, over any run from empty stores, its clocks running any way: a decision at or above TRANSITIONAL
      rests on a proof its device presented within the proof lifetime, and that proof on a nonce issued to the device
      within the nonce lifetime before it and used by nothing else. */
  lemma TrustRestsOnNonce(s: System, cfg: Deployment, actions: seq<Action>, r: Request) returns (i: nat, j: nat)
    requires s.proofs == map[] && s.nonces == map[] && WellKeyed(s.registry)
    requires forall k | 0 <= k < |actions| :: KeepsKeys(actions[k])
    ensures var all := actions + [Decided(r)];
      Rank(Decide(ActAll(s, cfg, actions), cfg, r).1.trustState) >= Rank(TRANSITIONAL) ==>
        && Consumes(s, cfg, all, i, j, r.deviceId)
        && Now(r) - all[i].request.clock.verified <= cfg.settings.popTtl
  {
    hide Act, ActAll, Decide, WellKeyed, KeepsKeys, Proves, Consumes;
    var all := actions + [Decided(r)];
    i := TrustRestsOnProof(s, cfg, actions, r);
    j := 0;
    if Rank(Decide(ActAll(s, cfg, actions), cfg, r).1.trustState) >= Rank(TRANSITIONAL) {
      DecisionsKeepKeys(actions, r);
      j := ProofConsumesNonce(s, cfg, all, i, r.deviceId);
    }
  }

  lemma DecisionsKeepKeys(actions: seq<Action>, r: Request)
    requires forall k | 0 <= k < |actions| :: KeepsKeys(actions[k])
    ensures var all := actions + [Decided(r)]; forall k | 0 <= k < |all| :: KeepsKeys(all[k])
  {}
}
