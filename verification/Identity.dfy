/** Challenge nonces, proof verification and the store of verified proofs (identity/proof.py, identity/models.py). */
module Identity {
  import opened Base

  datatype DeviceStatus = ACTIVE | SUSPENDED | REVOKED

  /** The registry's record of a device, as far as a decision reads it. */
  datatype DeviceIdentity = DeviceIdentity(deviceId: Text, status: DeviceStatus)

  datatype Proof = Proof(deviceId: Text, nonce: Text)

  /** What the key and the signature turn out to be. Ed25519 and base64 are not part of this model. */
  datatype SignatureCheck =
    | KeyUnreadable | KeyUnsupported | SignatureNotBase64 | NonceNotBase64 | SignatureInvalid | Verified

  datatype PoPReason =
    | DeviceIdMismatch | NonceUnknownOrUsed | NonceDeviceMismatch | NonceExpired
    | SignatureProblem(check: SignatureCheck) | PopVerified

  datatype PoPResult = PoPResult(deviceId: Text, valid: bool, reason: PoPReason, verifiedAt: Option<Instant>)

  // -- nonces ---------------------------------------------------------------

  datatype Issued = Issued(deviceId: Text, expiresAt: Instant)

  type Nonces = map<Text, Issued>

  /** `issue`: record the nonce, then purge what has expired. */
  function IssueNonce(issued: Nonces, nonce: Text, deviceId: Text, now: Instant, ttl: int): Nonces {
    var grown := issued[nonce := Issued(deviceId, now + ttl)];
    map n | n in grown && now <= grown[n].expiresAt :: grown[n]
  }

  /** Why a nonce is refused, None when it is accepted. */
  function Refusal(record: Option<Issued>, deviceId: Text, now: Instant): Option<PoPReason> {
    match record
    case None => Some(NonceUnknownOrUsed)
    case Some(r) =>
      if r.deviceId != deviceId then Some(NonceDeviceMismatch)
      else if now > r.expiresAt then Some(NonceExpired) else None
  }

  function RecordOf(issued: Nonces, nonce: Text): Option<Issued> {
    if nonce in issued then Some(issued[nonce]) else None
  }

  datatype NonceEvent =
    | NonceIssued(nonce: Text, deviceId: Text, at: Instant)
    | NonceTried(nonce: Text, deviceId: Text, at: Instant)

  /** The nonce's record if it was issued and has not been tried since. */
  function Outstanding(log: seq<NonceEvent>, nonce: Text, ttl: int): Option<Issued> {
    if log == [] then None
    else
      var e := log[|log| - 1];
      if e.nonce != nonce then Outstanding(log[..|log| - 1], nonce, ttl)
      else if e.NonceIssued? then Some(Issued(e.deviceId, e.at + ttl)) else None
  }

  /** No nonce was issued after `now`. Only issuing purges, so only that matters. */
  ghost predicate NotAfter(log: seq<NonceEvent>, now: Instant) {
    forall i | 0 <= i < |log| && log[i].NonceIssued? :: log[i].at <= now
  }

  /** The table lacks the nonce: it is not outstanding, or some issue found it expired. */
  ghost predicate Purged(log: seq<NonceEvent>, nonce: Text, ttl: int) {
    var record := Outstanding(log, nonce, ttl);
    record.Some? ==> exists i :: 0 <= i < |log| && log[i].NonceIssued? && log[i].at > record.value.expiresAt
  }

  ghost predicate Tracks(issued: Nonces, log: seq<NonceEvent>, ttl: int) {
    && (forall n | n in issued :: Outstanding(log, n, ttl) == Some(issued[n]))
    && (forall n | n !in issued :: Purged(log, n, ttl))
  }

  lemma OutstandingGrows(log: seq<NonceEvent>, e: NonceEvent, nonce: Text, ttl: int)
    ensures Outstanding(log + [e], nonce, ttl) ==
      if e.nonce != nonce then Outstanding(log, nonce, ttl)
      else if e.NonceIssued? then Some(Issued(e.deviceId, e.at + ttl)) else None
  {
    assert (log + [e])[..|log|] == log;
  }

  lemma StaysPurged(log: seq<NonceEvent>, e: NonceEvent, nonce: Text, ttl: int)
    requires Purged(log, nonce, ttl) && e.nonce != nonce
    ensures Purged(log + [e], nonce, ttl)
  {
    OutstandingGrows(log, e, nonce, ttl);
    var record := Outstanding(log, nonce, ttl);
    if record.Some? {
      var i :| 0 <= i < |log| && log[i].NonceIssued? && log[i].at > record.value.expiresAt;
      assert (log + [e])[i] == log[i];
    }
  }

  lemma IssueTracks(issued: Nonces, log: seq<NonceEvent>, nonce: Text, deviceId: Text, now: Instant, ttl: int)
    requires Tracks(issued, log, ttl)
    ensures Tracks(IssueNonce(issued, nonce, deviceId, now, ttl), log + [NonceIssued(nonce, deviceId, now)], ttl)
  {
    var e := NonceIssued(nonce, deviceId, now);
    var grown := issued[nonce := Issued(deviceId, now + ttl)];
    var after := IssueNonce(issued, nonce, deviceId, now, ttl);
    forall n | n in after ensures Outstanding(log + [e], n, ttl) == Some(after[n]) {
      OutstandingGrows(log, e, n, ttl);
    }
    forall n | n !in after ensures Purged(log + [e], n, ttl) {
      OutstandingGrows(log, e, n, ttl);
      if n in grown {
        assert (log + [e])[|log|].at > grown[n].expiresAt;
      } else {
        StaysPurged(log, e, n, ttl);
      }
    }
  }

  lemma TryTracks(issued: Nonces, log: seq<NonceEvent>, nonce: Text, deviceId: Text, now: Instant, ttl: int)
    requires Tracks(issued, log, ttl)
    ensures Tracks(issued - {nonce}, log + [NonceTried(nonce, deviceId, now)], ttl)
  {
    var e := NonceTried(nonce, deviceId, now);
    forall n | n in issued - {nonce} ensures Outstanding(log + [e], n, ttl) == Some(issued[n]) {
      OutstandingGrows(log, e, n, ttl);
    }
    forall n | n !in issued - {nonce} ensures Purged(log + [e], n, ttl) {
      OutstandingGrows(log, e, n, ttl);
      if n != nonce { StaysPurged(log, e, n, ttl); }
    }
  }

  /** What the log says: the nonce was issued to the device, not tried since, and has not expired. */
  predicate Usable(log: seq<NonceEvent>, nonce: Text, deviceId: Text, now: Instant, ttl: int) {
    var record := Outstanding(log, nonce, ttl);
    record.Some? && record.value.deviceId == deviceId && now <= record.value.expiresAt
  }

  /** As long as time has not gone backwards, purging is invisible: a lookup finds what the log says is outstanding,
      except that an expired record may be reported as unknown. */
  lemma LookupIsLog(issued: Nonces, log: seq<NonceEvent>, nonce: Text, deviceId: Text, now: Instant, ttl: int)
    requires Tracks(issued, log, ttl) && NotAfter(log, now)
    ensures Refusal(RecordOf(issued, nonce), deviceId, now).None? <==> Usable(log, nonce, deviceId, now, ttl)
  {
    if nonce !in issued { assert Purged(log, nonce, ttl); }
  }

  class NonceIssuer {
    const ttl: int
    var issued: Nonces
    ghost var log: seq<NonceEvent>

    ghost predicate Valid()
      reads this
    {
      Tracks(issued, log, ttl)
    }

    constructor (ttl: int)
      ensures Valid() && issued == map[] && log == [] && this.ttl == ttl
    {
      this.ttl := ttl;
      issued, log := map[], [];
    }

    /** `issue`; the fresh token is a parameter. */
    method Issue(nonce: Text, deviceId: Text, now: Instant) returns (expiresAt: Instant)
      requires Valid()
      modifies this
      ensures Valid() && log == old(log) + [NonceIssued(nonce, deviceId, now)]
      ensures issued == IssueNonce(old(issued), nonce, deviceId, now, ttl) && expiresAt == now + ttl
    {
      IssueTracks(issued, log, nonce, deviceId, now, ttl);
      log := log + [NonceIssued(nonce, deviceId, now)];
      expiresAt := now + ttl;
      issued := issued[nonce := Issued(deviceId, expiresAt)];
      issued := map n | n in issued && now <= issued[n].expiresAt :: issued[n];
    }

    /** `consume`: a nonce is gone after its first try, whatever the outcome. */
    method Consume(nonce: Text, deviceId: Text, now: Instant) returns (refusal: Option<PoPReason>)
      requires Valid()
      modifies this
      ensures Valid() && log == old(log) + [NonceTried(nonce, deviceId, now)]
      ensures issued == old(issued) - {nonce} && refusal == Refusal(RecordOf(old(issued), nonce), deviceId, now)
      ensures NotAfter(old(log), now) ==> (refusal.None? <==> Usable(old(log), nonce, deviceId, now, ttl))
    {
      if NotAfter(log, now) {
        LookupIsLog(issued, log, nonce, deviceId, now, ttl);
      }
      TryTracks(issued, log, nonce, deviceId, now, ttl);
      log := log + [NonceTried(nonce, deviceId, now)];
      if nonce !in issued {
        return Some(NonceUnknownOrUsed);
      }
      var record := issued[nonce];
      issued := issued - {nonce};
      if record.deviceId != deviceId {
        return Some(NonceDeviceMismatch);
      }
      if now > record.expiresAt {
        return Some(NonceExpired);
      }
      refusal := None;
    }
  }

  /** Nothing in the events issues the nonce. */
  ghost predicate NeverIssued(events: seq<NonceEvent>, nonce: Text) {
    forall i | 0 <= i < |events| && events[i].NonceIssued? :: events[i].nonce != nonce
  }

  /** Once tried, successfully or not, a nonce is never outstanding again unless the same token is issued again, so over
      a run of fresh tokens each is accepted at most once. */
  lemma {:induction false} NonceIsSingleUse(log: seq<NonceEvent>, tried: NonceEvent, later: seq<NonceEvent>, ttl: int)
    requires tried.NonceTried? && NeverIssued(later, tried.nonce)
    ensures Outstanding(log + [tried] + later, tried.nonce, ttl) == None
    decreases |later|
  {
    var full := log + [tried] + later;
    if later == [] {
      assert full[|full| - 1] == tried;
    } else {
      var n := |later| - 1;
      assert full[..|full| - 1] == log + [tried] + later[..n];
      assert full[|full| - 1] == later[n];
      NonceIsSingleUse(log, tried, later[..n], ttl);
    }
  }

  // -- verification -----------------------------------------------------------

  /** `ProofVerifier.verify`: the table afterwards and the result. A proof for another device consumes nothing. `now` is
      the verifier's reading of the clock, `tried` the nonce issuer's. */
  function VerifyProof(issued: Nonces, identityId: Text, proof: Proof, check: SignatureCheck, now: Instant,
                       tried: Instant): (Nonces, PoPResult)
  {
    if proof.deviceId != identityId then (issued, PoPResult(identityId, false, DeviceIdMismatch, None))
    else
      var refusal := Refusal(RecordOf(issued, proof.nonce), identityId, tried);
      (issued - {proof.nonce},
       if refusal.Some? then PoPResult(identityId, false, refusal.value, None)
       else if check != Verified then PoPResult(identityId, false, SignatureProblem(check), None)
       else PoPResult(identityId, true, PopVerified, Some(now)))
  }

  /** The table holds the proof's nonce for the device, unexpired, and the signature over it is the device's. */
  predicate Verifies(issued: Nonces, identityId: Text, proof: Proof, check: SignatureCheck, tried: Instant) {
    && proof.deviceId == identityId && check == Verified
    && proof.nonce in issued && issued[proof.nonce].deviceId == identityId && tried <= issued[proof.nonce].expiresAt
  }

  /** A result is valid exactly when the proof names the device, its signature holds and its nonce is in the table,
      unexpired; it speaks for the device asked about and carries the verifier's own time; the nonce is gone. */
  lemma VerifyMeans(issued: Nonces, identityId: Text, proof: Proof, check: SignatureCheck, now: Instant, tried: Instant)
    ensures var (after, pop) := VerifyProof(issued, identityId, proof, check, now, tried);
      && (pop.valid <==> Verifies(issued, identityId, proof, check, tried))
      && pop.deviceId == identityId && pop.verifiedAt == (if pop.valid then Some(now) else None)
      && after == if proof.deviceId == identityId then issued - {proof.nonce} else issued
  {}

  /** What a failed proof is told, the first thing wrong with it: it names another device, its nonce is not in the
      table, or is there for another device, or has expired, or the signature does not hold. */
  lemma ReasonMeans(issued: Nonces, identityId: Text, proof: Proof, check: SignatureCheck, now: Instant, tried: Instant)
    ensures var reason := VerifyProof(issued, identityId, proof, check, now, tried).1.reason;
      var foreign, known := proof.deviceId != identityId, proof.nonce in issued;
      && (reason == DeviceIdMismatch <==> foreign)
      && (reason == NonceUnknownOrUsed <==> !foreign && !known)
      && (reason == NonceDeviceMismatch <==> !foreign && known && issued[proof.nonce].deviceId != identityId)
      && (reason == NonceExpired <==>
            !foreign && known && issued[proof.nonce].deviceId == identityId && issued[proof.nonce].expiresAt < tried)
      && (reason.SignatureProblem? ==> reason.check == check != Verified)
      && (reason == PopVerified <==> Verifies(issued, identityId, proof, check, tried))
  {}

  /** Whatever the clocks do, purging never makes a nonce valid. */
  lemma VerifiesUsable(issued: Nonces, log: seq<NonceEvent>, identityId: Text, proof: Proof, check: SignatureCheck,
                       tried: Instant, ttl: int)
    requires Tracks(issued, log, ttl) && Verifies(issued, identityId, proof, check, tried)
    ensures Usable(log, proof.nonce, identityId, tried, ttl)
  {}

  /** In terms of what has happened rather than of the table. */
  lemma VerifiesIsLog(issued: Nonces, log: seq<NonceEvent>, identityId: Text, proof: Proof, check: SignatureCheck,
                      tried: Instant, ttl: int)
    requires Tracks(issued, log, ttl) && NotAfter(log, tried)
    ensures Verifies(issued, identityId, proof, check, tried)
       <==> proof.deviceId == identityId && check == Verified && Usable(log, proof.nonce, identityId, tried, ttl)
  {
    LookupIsLog(issued, log, proof.nonce, identityId, tried, ttl);
  }

  /** `verify`. As long as no nonce was issued later, a result is valid exactly when the proof names the identity, the
      signature holds, and the nonce was issued to it, never tried since, and is unexpired. */
  method Verify(nonces: NonceIssuer, identityId: Text, proof: Proof, check: SignatureCheck, now: Instant,
                tried: Instant)
    returns (result: PoPResult)
    requires nonces.Valid()
    modifies nonces
    ensures nonces.Valid()
    ensures (nonces.issued, result) == VerifyProof(old(nonces.issued), identityId, proof, check, now, tried)
    ensures nonces.log
         == if proof.deviceId == identityId then old(nonces.log) + [NonceTried(proof.nonce, identityId, tried)]
            else old(nonces.log)
    ensures result.valid ==> Usable(old(nonces.log), proof.nonce, identityId, tried, nonces.ttl)
    ensures NotAfter(old(nonces.log), tried) ==>
      (result.valid <==>
        proof.deviceId == identityId && check == Verified
        && Usable(old(nonces.log), proof.nonce, identityId, tried, nonces.ttl))
  {
    hide Usable, Tracks;
    VerifyMeans(nonces.issued, identityId, proof, check, now, tried);
    if Verifies(nonces.issued, identityId, proof, check, tried) {
      VerifiesUsable(nonces.issued, nonces.log, identityId, proof, check, tried, nonces.ttl);
    }
    if proof.deviceId != identityId {
      return PoPResult(identityId, false, DeviceIdMismatch, None);
    }
    var refusal := nonces.Consume(proof.nonce, identityId, tried);
    if refusal.Some? {
      return PoPResult(identityId, false, refusal.value, None);
    }
    if check != Verified {
      return PoPResult(identityId, false, SignatureProblem(check), None);
    }
    result := PoPResult(identityId, true, PopVerified, Some(now));
  }

  // -- verified proofs ----------------------------------------------------------

  type Proofs = map<Text, PoPResult>

  /** `record`: only successes are retained. */
  function Record(verified: Proofs, result: PoPResult): Proofs {
    if result.valid && result.verifiedAt.Some? then verified[result.deviceId := result] else verified
  }

  function Fresh(result: PoPResult, ttl: int, now: Instant): bool {
    result.verifiedAt.Some? && now - result.verifiedAt.value <= ttl
  }

  /** `get`: an entry past its lifetime is deleted, not returned. */
  function Lookup(verified: Proofs, deviceId: Text, ttl: int, now: Instant): (Proofs, Option<PoPResult>) {
    if deviceId !in verified || verified[deviceId].verifiedAt.None? then (verified, None)
    else if Fresh(verified[deviceId], ttl, now) then (verified, Some(verified[deviceId]))
    else (verified - {deviceId}, None)
  }

  datatype ProofEvent =
    | Recorded(result: PoPResult) | Fetched(deviceId: Text, at: Instant) | Invalidated(deviceId: Text) | AllCleared

  /** The device's latest success since it was last invalidated. */
  function LatestSuccess(log: seq<ProofEvent>, deviceId: Text): Option<PoPResult> {
    if log == [] then None
    else SuccessAfter(log[|log| - 1], LatestSuccess(log[..|log| - 1], deviceId), deviceId)
  }

  function SuccessAfter(e: ProofEvent, before: Option<PoPResult>, deviceId: Text): Option<PoPResult> {
    match e
    case Recorded(r) => if r.deviceId == deviceId && r.valid && r.verifiedAt.Some? then Some(r) else before
    case Fetched(_, _) => before
    case Invalidated(d) => if d == deviceId then None else before
    case AllCleared => None
  }

  /** The device's own proof was not fetched for an instant after `now`. */
  ghost predicate NoFetchAfter(log: seq<ProofEvent>, deviceId: Text, now: Instant) {
    forall i | 0 <= i < |log| && log[i].Fetched? && log[i].deviceId == deviceId :: log[i].at <= now
  }

  ghost predicate Discarded(log: seq<ProofEvent>, deviceId: Text, ttl: int) {
    var latest := LatestSuccess(log, deviceId);
    latest.Some? ==>
      exists i ::
        0 <= i < |log| && log[i].Fetched? && log[i].deviceId == deviceId && !Fresh(latest.value, ttl, log[i].at)
  }

  ghost predicate Retained(verified: Proofs, log: seq<ProofEvent>, deviceId: Text, ttl: int) {
    if deviceId in verified
    then LatestSuccess(log, deviceId) == Some(verified[deviceId]) && verified[deviceId].verifiedAt.Some?
    else Discarded(log, deviceId, ttl)
  }

  lemma SuccessGrows(log: seq<ProofEvent>, e: ProofEvent, deviceId: Text, ttl: int)
    ensures LatestSuccess(log + [e], deviceId) == SuccessAfter(e, LatestSuccess(log, deviceId), deviceId)
    ensures Discarded(log, deviceId, ttl) && LatestSuccess(log + [e], deviceId) == LatestSuccess(log, deviceId)
      ==> Discarded(log + [e], deviceId, ttl)
  {
    var grown := log + [e];
    assert grown[..|log|] == log;
    var latest := LatestSuccess(log, deviceId);
    if Discarded(log, deviceId, ttl) && latest.Some? {
      var i :| 0 <= i < |log| && log[i].Fetched? && log[i].deviceId == deviceId && !Fresh(latest.value, ttl, log[i].at);
      assert grown[i] == log[i];
    }
  }

  /** What each event does to the store. */
  function StoreAfter(verified: Proofs, e: ProofEvent, ttl: int): Proofs {
    match e
    case Recorded(result) => Record(verified, result)
    case Fetched(d, at) => Lookup(verified, d, ttl, at).0
    case Invalidated(d) => verified - {d}
    case AllCleared => map[]
  }

  /** One event and the store's answer to it keep every device's entry right. */
  lemma StoreStep(verified: Proofs, log: seq<ProofEvent>, e: ProofEvent, ttl: int)
    requires forall d :: Retained(verified, log, d, ttl)
    ensures var after, grown := StoreAfter(verified, e, ttl), log + [e];
      forall d :: Retained(after, grown, d, ttl)
  {
    var after, grown := StoreAfter(verified, e, ttl), log + [e];
    forall d ensures Retained(after, grown, d, ttl) {
      assert Retained(verified, log, d, ttl);
      StoreStepFor(verified, log, e, d, ttl);
    }
  }

  lemma StoreStepFor(verified: Proofs, log: seq<ProofEvent>, e: ProofEvent, deviceId: Text, ttl: int)
    requires Retained(verified, log, deviceId, ttl)
    ensures Retained(StoreAfter(verified, e, ttl), log + [e], deviceId, ttl)
  {
    SuccessGrows(log, e, deviceId, ttl);
    assert (log + [e])[|log|] == e;
  }

  class ProofStore {
    const ttl: int
    var verified: Proofs
    ghost var log: seq<ProofEvent>

    ghost predicate Valid()
      reads this
    {
      forall d :: Retained(verified, log, d, ttl)
    }

    constructor (ttl: int)
      ensures Valid() && verified == map[] && log == [] && this.ttl == ttl
    {
      this.ttl := ttl;
      verified, log := map[], [];
    }

    /** `record`. */
    method Remember(result: PoPResult)
      requires Valid()
      modifies this
      ensures Valid() && log == old(log) + [Recorded(result)] && verified == Record(old(verified), result)
    {
      ghost var before := verified;
      if result.valid && result.verifiedAt.Some? {
        verified := verified[result.deviceId := result];
      }
      assert verified == StoreAfter(before, Recorded(result), ttl);
      StoreStep(before, log, Recorded(result), ttl);
      log := log + [Recorded(result)];
    }

    /** `get`. As long as queries for the device do not go back in time it returns the latest success exactly while it
        is within its lifetime; failures recorded in between make no difference. */
    method Get(deviceId: Text, now: Instant) returns (r: Option<PoPResult>)
      requires Valid()
      modifies this
      ensures Valid() && log == old(log) + [Fetched(deviceId, now)]
      ensures (verified, r) == Lookup(old(verified), deviceId, ttl, now)
      ensures NoFetchAfter(old(log), deviceId, now) ==>
        var latest := LatestSuccess(old(log), deviceId);
        r == if latest.Some? && Fresh(latest.value, ttl, now) then latest else None
    {
      ghost var before := verified;
      assert Retained(verified, log, deviceId, ttl);
      if deviceId in verified && now - verified[deviceId].verifiedAt.value > ttl {
        verified := verified - {deviceId};
        r := None;
      } else {
        r := if deviceId in verified then Some(verified[deviceId]) else None;
      }
      assert verified == StoreAfter(before, Fetched(deviceId, now), ttl);
      StoreStep(before, log, Fetched(deviceId, now), ttl);
      log := log + [Fetched(deviceId, now)];
    }

    /** `invalidate`. */
    method Invalidate(deviceId: Text)
      requires Valid()
      modifies this
      ensures Valid() && log == old(log) + [Invalidated(deviceId)] && verified == old(verified) - {deviceId}
    {
      ghost var before := verified;
      verified := verified - {deviceId};
      assert verified == StoreAfter(before, Invalidated(deviceId), ttl);
      StoreStep(before, log, Invalidated(deviceId), ttl);
      log := log + [Invalidated(deviceId)];
    }
  }
}
