/** The static-continuity baseline (strategies/static_continuity.py): a session token with a fixed lifetime, honoured
    whatever the access domains say. */
module StaticContinuity {
  import opened Base
  import opened Topics
  import opened Policy
  import opened Identity
  import opened Counters
  import opened Transitions
  import opened Bindings
  import opened Collector
  import opened Trust
  import Strategy
  import Decisions
  import opened StrategyService

  type Request = Strategy.Request

  type System = Strategy.System

  type Deployment = Strategy.Deployment

  /** `SessionToken`. */
  datatype Token = Token(deviceId: Text, issuedAt: Instant, expiresAt: Instant)

  type Tokens = map<Text, Token>

  /** The shared services and this strategy's tokens. */
  datatype Held = Held(system: System, tokens: Tokens)

  /** Why the strategy decided as it did. */
  datatype Basis = Honoured | Granted | Unregistered | Inactive | Unproved

  function Now(r: Request): Instant {
    Strategy.Now(r)
  }

  predicate HoldsToken(tokens: Tokens, r: Request) {
    r.deviceId in tokens && Now(r) <= tokens[r.deviceId].expiresAt
  }

  /** The observation made for parity with the other strategies. */
  function Seen(s: System, cfg: Deployment, r: Request): System {
    s.(collector := ObserveIn(s.collector, cfg.transitions, r.deviceId, Strategy.ObservationOf(s, r)))
  }

  /** `decide`, up to the decision record. */
  function Admit(h: Held, cfg: Deployment, ttl: int, r: Request): (Held, Basis) {
    var seen := Seen(h.system, cfg, r);
    if HoldsToken(h.tokens, r) then (Held(seen, h.tokens), Honoured)
    else Renew(Held(seen, h.tokens - {r.deviceId}), cfg, ttl, r)
  }

  /** Without a valid token: a registered, active device that proves itself gets a new one. */
  function Renew(h: Held, cfg: Deployment, ttl: int, r: Request): (Held, Basis) {
    if r.deviceId !in h.system.registry then (h, Unregistered)
    else if h.system.registry[r.deviceId].status != ACTIVE then (h, Inactive)
    else
      var (proved, pop) := Strategy.ProofStep(h.system, cfg, r);
      if pop.None? || !pop.value.valid then (h.(system := proved), Unproved)
      else (Held(proved, h.tokens[r.deviceId := Token(r.deviceId, Now(r), Now(r) + ttl)]), Granted)
  }

  function StateFor(basis: Basis): TrustState {
    match basis
    case Honoured => STABLE
    case Granted => STABLE
    case Unregistered => UNKNOWN
    case Inactive => UNTRUSTED
    case Unproved => DEGRADED
  }

  /** `PolicyEvaluator.direct`: always in context NONE, stamped by the clock. */
  function Direct(state: TrustState, cfg: Deployment, r: Request): Decision {
    var entry := cfg.matrix(state, NONE);
    Decision(r.decisionId, r.deviceId, state, NONE, entry.action, Resolve(entry.scope, r.deviceId), entry.ttlMs,
             r.clock.stamped)
  }

  /** `decide`. */
  function Answer(h: Held, cfg: Deployment, ttl: int, r: Request): (Held, Decision) {
    var (after, basis) := Admit(h, cfg, ttl, r);
    (after, Direct(StateFor(basis), cfg, r))
  }

  /** Which state a request is given: STABLE with a token that has not expired; else by the registry; else STABLE again
      for a proof within its lifetime, and DEGRADED without one. */
  ghost predicate Merits(h: Held, cfg: Deployment, r: Request, state: TrustState) {
    var s := h.system;
    var held := r.deviceId in h.tokens && Now(r) <= h.tokens[r.deviceId].expiresAt;
    var registered := r.deviceId in s.registry;
    var active := registered && s.registry[r.deviceId].status == ACTIVE;
    var proved := exists at :: Decisions.ProvedWith(s, cfg, r, at);
    match state
    case STABLE => held || (active && proved)
    case UNKNOWN => !held && !registered
    case UNTRUSTED => !held && registered && !active
    case DEGRADED => !held && active && !proved
    case _ => false
  }

  /** In any state of the services and the tokens: the decision's state is the one merited, its context is NONE, and the
      rest is what the matrix has for the two, for the device that asked, at the instant of the clock. */
  lemma DecisionMeans(h: Held, cfg: Deployment, ttl: int, r: Request, state: TrustState)
    ensures var d := Answer(h, cfg, ttl, r).1;
      && (d.trustState == state <==> Merits(h, cfg, r, state))
      && d.context == NONE
      && Decisions.Follows(d, cfg.matrix, r.decisionId, r.deviceId, r.clock.stamped)
  {
    hide ObserveIn, Strategy.ProofStep, Decisions.ProvedWith, Replace;
    ProofMeans(Seen(h.system, cfg, r), cfg, r);
    SeenProofs(h.system, cfg, r);
  }

  /** A proof counts here exactly when it counts for CA-ZTCF. */
  lemma ProofMeans(s: System, cfg: Deployment, r: Request)
    ensures var pop := Strategy.ProofStep(s, cfg, r).1;
      pop.Some? && pop.value.valid <==> exists at :: Decisions.ProvedWith(s, cfg, r, at)
  {
    hide AddFailure;
    var pop := Strategy.ProofStep(s, cfg, r).1;
    if pop.Some? && pop.value.valid {
      assert Decisions.ProvedWith(s, cfg, r, pop.value.verifiedAt.value);
    }
  }

  lemma SeenProofs(s: System, cfg: Deployment, r: Request)
    ensures forall at :: Decisions.ProvedWith(Seen(s, cfg, r), cfg, r, at) <==> Decisions.ProvedWith(s, cfg, r, at)
  {
    hide ObserveIn;
  }

  // -- runs -----------------------------------------------------------------

  /** A request, `clear_tokens`, or anything that happens to the shared services in between. */
  datatype Happening = Requested(request: Request) | TokensCleared | Elsewhere(action: Strategy.Action)

  function Follow(h: Held, cfg: Deployment, ttl: int, e: Happening): Held {
    match e
    case Requested(r) => Admit(h, cfg, ttl, r).0
    case TokensCleared => h.(tokens := map[])
    case Elsewhere(a) => h.(system := Strategy.Act(h.system, cfg, a))
  }

  function Run(h: Held, cfg: Deployment, ttl: int, es: seq<Happening>): Held {
    if es == [] then h else Follow(Run(h, cfg, ttl, es[..|es| - 1]), cfg, ttl, es[|es| - 1])
  }

  predicate Asks(e: Happening, deviceId: Text) {
    e.Requested? && e.request.deviceId == deviceId
  }

  /** How the i-th happening, a request, was answered. */
  function BasisAt(h: Held, cfg: Deployment, ttl: int, es: seq<Happening>, i: nat): Basis
    requires i < |es| && es[i].Requested?
  {
    Admit(Run(h, cfg, ttl, es[..i]), cfg, ttl, es[i].request).1
  }

  lemma RunStep(h: Held, cfg: Deployment, ttl: int, es: seq<Happening>, n: nat)
    requires n < |es|
    ensures Run(h, cfg, ttl, es[..n + 1]) == Follow(Run(h, cfg, ttl, es[..n]), cfg, ttl, es[n])
  {
    assert es[..n + 1][..n] == es[..n];
  }

  // -- the life of a token ------------------------------------------------------

  /** Between i and j nothing drops the token granted at i: no clear, and no request of its device past its expiry. */
  ghost predicate TokenSpared(es: seq<Happening>, ttl: int, i: nat, j: nat)
    requires i < j <= |es| && es[i].Requested?
  {
    forall k | i < k < j ::
      !es[k].TokensCleared? && (Asks(es[k], es[i].request.deviceId) ==> Now(es[k].request) <= Now(es[i].request) + ttl)
  }

  lemma {:induction false} TokenStands(h: Held, cfg: Deployment, ttl: int, es: seq<Happening>, i: nat, j: nat)
    requires i < j <= |es| && es[i].Requested? && BasisAt(h, cfg, ttl, es, i) == Granted && TokenSpared(es, ttl, i, j)
    ensures var r, tokens := es[i].request, Run(h, cfg, ttl, es[..j]).tokens;
      r.deviceId in tokens && tokens[r.deviceId] == Token(r.deviceId, Now(r), Now(r) + ttl)
    decreases j
  {
    hide Run, Seen, Strategy.ProofStep, Strategy.Act;
    RunStep(h, cfg, ttl, es, j - 1);
    if j > i + 1 {
      TokenStands(h, cfg, ttl, es, i, j - 1);
    }
  }

  /** A granted token is honoured at the device's next requests exactly up to its expiry. */
  lemma HonouredUntilExpiry(h: Held, cfg: Deployment, ttl: int, es: seq<Happening>, i: nat, j: nat)
    requires i < j < |es| && es[i].Requested? && BasisAt(h, cfg, ttl, es, i) == Granted && TokenSpared(es, ttl, i, j)
    requires Asks(es[j], es[i].request.deviceId)
    ensures BasisAt(h, cfg, ttl, es, j) == Honoured <==> Now(es[j].request) <= Now(es[i].request) + ttl
  {
    hide Run, Seen, Strategy.ProofStep;
    TokenStands(h, cfg, ttl, es, i, j);
  }

  /** Over any run whose requests for the device do not go back in time, two tokens granted to it with no clear in
      between are more than a lifetime apart. */
  lemma GrantsAreFarApart(h: Held, cfg: Deployment, ttl: int, es: seq<Happening>, i: nat, j: nat)
    requires i < j < |es| && es[i].Requested? && Asks(es[j], es[i].request.deviceId)
    requires BasisAt(h, cfg, ttl, es, i) == Granted && BasisAt(h, cfg, ttl, es, j) == Granted
    requires forall k | i < k < j :: !es[k].TokensCleared?
    requires forall k | i < k < j && Asks(es[k], es[i].request.deviceId) :: Now(es[k].request) <= Now(es[j].request)
    ensures Now(es[j].request) - Now(es[i].request) > ttl
  {
    hide BasisAt;
    if TokenSpared(es, ttl, i, j) {
      HonouredUntilExpiry(h, cfg, ttl, es, i, j);
    }
  }

  // -- where trust comes from -----------------------------------------------------

  /** This strategy is the only one deciding, and the registry stays well keyed. */
  ghost predicate Ordinary(e: Happening) {
    e.Elsewhere? ==> !e.action.Decided? && (e.action.RegistryChanged? ==> Strategy.WellKeyed(e.action.registry))
  }

  /** The i-th happening granted the device a token on a proof presented there and then, and that proof verified. */
  ghost predicate ProvedAt(h: Held, cfg: Deployment, ttl: int, es: seq<Happening>, i: int, deviceId: Text) {
    && 0 <= i < |es| && Asks(es[i], deviceId) && es[i].request.proof.Some?
    && BasisAt(h, cfg, ttl, es, i) == Granted
    && Strategy.Proves(Run(h, cfg, ttl, es[..i]).system, es[i].request)
  }

  function Max(a: int, b: int): int {
    if a < b then b else a
  }

  lemma {:induction false} StaysWellKeyed(h: Held, cfg: Deployment, ttl: int, es: seq<Happening>, n: nat)
    requires n <= |es| && Strategy.WellKeyed(h.system.registry) && forall k | 0 <= k < |es| :: Ordinary(es[k])
    ensures Strategy.WellKeyed(Run(h, cfg, ttl, es[..n]).system.registry)
    decreases n
  {
    hide Run, Strategy.WellKeyed, ObserveIn;
    if n == 0 {
      assert Run(h, cfg, ttl, es[..0]) == h by { RunNothing(h, cfg, ttl, es); }
    } else {
      RunStep(h, cfg, ttl, es, n - 1);
      StaysWellKeyed(h, cfg, ttl, es, n - 1);
      KeepsRegistry(Run(h, cfg, ttl, es[..n - 1]), cfg, ttl, es[n - 1]);
    }
  }

  lemma RunNothing(h: Held, cfg: Deployment, ttl: int, es: seq<Happening>)
    ensures Run(h, cfg, ttl, es[..0]) == h
  {}

  lemma KeepsRegistry(h: Held, cfg: Deployment, ttl: int, e: Happening)
    requires Ordinary(e)
    ensures var after := Follow(h, cfg, ttl, e).system.registry;
      after == if e.Elsewhere? && e.action.RegistryChanged? then e.action.registry else h.system.registry
  {
    hide Admit, Strategy.Act, Strategy.WellKeyed;
    match e
    case Requested(r) => AdmitKeepsRegistry(h, cfg, ttl, r);
    case TokensCleared =>
    case Elsewhere(a) => OtherActions(h.system, cfg, a, []);
  }

  /** What the other operations on the services do to the registry and to the proof store. */
  lemma OtherActions(s: System, cfg: Deployment, a: Strategy.Action, d: Text)
    requires !a.Decided?
    ensures var after := Strategy.Act(s, cfg, a);
      && after.registry == (if a.RegistryChanged? then a.registry else s.registry)
      && (d in after.proofs ==> d in s.proofs && after.proofs[d] == s.proofs[d])
  {
    hide Strategy.Decide, Upsert, ResetIn, IssueNonce;
  }

  lemma AdmitKeepsRegistry(h: Held, cfg: Deployment, ttl: int, r: Request)
    ensures Admit(h, cfg, ttl, r).0.system.registry == h.system.registry
  {
    hide ObserveIn, VerifyProof, Identity.Lookup, Identity.Record, AddFailure;
  }

  /** What one happening leaves in the proof store for a device: what was there, or the success of a proof it
      presented. */
  lemma ProofsStep(h: Held, cfg: Deployment, ttl: int, e: Happening, d: Text)
    requires Ordinary(e) && Strategy.WellKeyed(h.system.registry)
    ensures var before, after := h.system.proofs, Follow(h, cfg, ttl, e).system.proofs;
      d in after ==>
        || (d in before && after[d] == before[d])
        || (&& Asks(e, d) && e.request.proof.Some? && Admit(h, cfg, ttl, e.request).1 == Granted
            && after[d].valid && after[d].verifiedAt == Some(e.request.clock.verified))
  {
    hide Admit, Strategy.Act, Strategy.WellKeyed;
    match e
    case Requested(r) => AdmitProofs(h, cfg, ttl, r, d);
    case TokensCleared =>
    case Elsewhere(a) => OtherActions(h.system, cfg, a, d);
  }

  lemma AdmitProofs(h: Held, cfg: Deployment, ttl: int, r: Request, d: Text)
    requires Strategy.WellKeyed(h.system.registry)
    ensures var before, (after, basis) := h.system.proofs, Admit(h, cfg, ttl, r);
      d in after.system.proofs ==>
        || (d in before && after.system.proofs[d] == before[d])
        || (&& r.deviceId == d && r.proof.Some? && basis == Granted
            && after.system.proofs[d].valid && after.system.proofs[d].verifiedAt == Some(r.clock.verified))
  {
    hide ObserveIn, Strategy.ProofStep, VerifyProof, HoldsToken, Strategy.ObservationOf, Strategy.WellKeyed;
    var seen := Seen(h.system, cfg, r);
    Strategy.ProofStepStores(seen, cfg, r, d);
    if Strategy.Proves(seen, r) {
      Strategy.FreshProofAnswers(seen, cfg, r);
    }
  }

  /** Every stored proof was presented in some request that granted a token. */
  lemma {:induction false} ProofSource(h: Held, cfg: Deployment, ttl: int, es: seq<Happening>, n: nat, d: Text)
    returns (i: nat)
    requires n <= |es| && h.system.proofs == map[] && Strategy.WellKeyed(h.system.registry)
    requires forall k | 0 <= k < |es| :: Ordinary(es[k])
    requires d in Run(h, cfg, ttl, es[..n]).system.proofs
    ensures i < n && ProvedAt(h, cfg, ttl, es, i, d)
    ensures var p := Run(h, cfg, ttl, es[..n]).system.proofs[d];
      p.valid && p.verifiedAt == Some(es[i].request.clock.verified)
    decreases n
  {
    hide Run, Follow, Admit, Strategy.WellKeyed, Strategy.Proves;
    RunNothing(h, cfg, ttl, es);
    RunStep(h, cfg, ttl, es, n - 1);
    StaysWellKeyed(h, cfg, ttl, es, n - 1);
    var before := Run(h, cfg, ttl, es[..n - 1]);
    ProofsStep(before, cfg, ttl, es[n - 1], d);
    if d in before.system.proofs && Run(h, cfg, ttl, es[..n]).system.proofs[d] == before.system.proofs[d] {
      i := ProofSource(h, cfg, ttl, es, n - 1, d);
    } else {
      i := n - 1;
      GrantProves(before, cfg, ttl, es[i].request);
    }
  }

  /** A proof presented with a request that is granted a token has verified. */
  lemma GrantProves(h: Held, cfg: Deployment, ttl: int, r: Request)
    requires Admit(h, cfg, ttl, r).1 == Granted && r.proof.Some?
    ensures Strategy.Proves(h.system, r)
  {
    hide ObserveIn, VerifyProof;
    VerifyMeans(h.system.nonces, h.system.registry[r.deviceId].deviceId, r.proof.value, r.check, r.clock.verified,
                r.clock.consumed);
  }

  /** A grant rests on a proof presented with the request, or on a stored one still within its lifetime. */
  lemma GrantNeedsProof(h: Held, cfg: Deployment, ttl: int, r: Request)
    requires Admit(h, cfg, ttl, r).1 == Granted
    ensures r.proof.None? ==>
      var proofs := h.system.proofs;
      && r.deviceId in proofs && proofs[r.deviceId].verifiedAt.Some?
      && Now(r) - proofs[r.deviceId].verifiedAt.value <= cfg.proofTtl
  {
    hide ObserveIn, VerifyProof;
  }

  /** The grant at n goes back to a proof no older than the proof lifetime, or than the request's own clock skew. */
  lemma GrantSource(h: Held, cfg: Deployment, ttl: int, es: seq<Happening>, n: nat, skew: int) returns (i: nat)
    requires h.system.proofs == map[] && Strategy.WellKeyed(h.system.registry)
    requires forall k | 0 <= k < |es| :: Ordinary(es[k])
    requires n < |es| && es[n].Requested? && BasisAt(h, cfg, ttl, es, n) == Granted
    requires Now(es[n].request) - es[n].request.clock.verified <= skew
    ensures i <= n && ProvedAt(h, cfg, ttl, es, i, es[n].request.deviceId)
    ensures Now(es[n].request) - es[i].request.clock.verified <= Max(cfg.proofTtl, skew)
  {
    hide Run, Admit, Strategy.Proves;
    GrantNeedsProof(Run(h, cfg, ttl, es[..n]), cfg, ttl, es[n].request);
    if es[n].request.proof.Some? {
      i := n;
      GrantProves(Run(h, cfg, ttl, es[..n]), cfg, ttl, es[n].request);
    } else {
      i := ProofSource(h, cfg, ttl, es, n, es[n].request.deviceId);
    }
  }

  lemma TokenStep(h: Held, cfg: Deployment, ttl: int, e: Happening, d: Text)
    ensures var before, after := h.tokens, Follow(h, cfg, ttl, e).tokens;
      d in after ==>
        || (d in before && after[d] == before[d])
        || (&& Asks(e, d) && Admit(h, cfg, ttl, e.request).1 == Granted
            && after[d] == Token(d, Now(e.request), Now(e.request) + ttl))
  {
    hide ObserveIn, Strategy.ProofStep, Strategy.Act;
  }

  /** Every token was granted by some request of its device. */
  lemma {:induction false} TokenSource(h: Held, cfg: Deployment, ttl: int, es: seq<Happening>, n: nat, d: Text)
    returns (i: nat)
    requires n <= |es| && h.tokens == map[] && d in Run(h, cfg, ttl, es[..n]).tokens
    ensures i < n && Asks(es[i], d) && BasisAt(h, cfg, ttl, es, i) == Granted
    ensures Run(h, cfg, ttl, es[..n]).tokens[d] == Token(d, Now(es[i].request), Now(es[i].request) + ttl)
    decreases n
  {
    hide Run, Follow, Admit;
    RunNothing(h, cfg, ttl, es);
    RunStep(h, cfg, ttl, es, n - 1);
    var before := Run(h, cfg, ttl, es[..n - 1]);
    TokenStep(before, cfg, ttl, es[n - 1], d);
    if d in before.tokens && Run(h, cfg, ttl, es[..n]).tokens[d] == before.tokens[d] {
      i := TokenSource(h, cfg, ttl, es, n - 1, d);
    } else {
      i := n - 1;
    }
  }

  /** Over any run that starts with no tokens and no proofs, a STABLE decision traces back to a proof the device
      presented no longer ago than a token lifetime plus a proof lifetime. `skew` bounds how far the instants requests
      name run ahead of the clock; it is 0 when they name
      none and the clock does not run backwards. */
  lemma StableIsBacked(h: Held, cfg: Deployment, ttl: int, es: seq<Happening>, n: nat, skew: int) returns (i: nat)
    requires h.tokens == map[] && h.system.proofs == map[] && Strategy.WellKeyed(h.system.registry)
    requires forall k | 0 <= k < |es| :: Ordinary(es[k])
    requires forall k | 0 <= k < |es| && es[k].Requested? :: Now(es[k].request) - es[k].request.clock.verified <= skew
    requires n < |es| && es[n].Requested? && StateFor(BasisAt(h, cfg, ttl, es, n)) == STABLE
    ensures i <= n && ProvedAt(h, cfg, ttl, es, i, es[n].request.deviceId)
    ensures Now(es[n].request) - es[i].request.clock.verified <= Max(ttl, 0) + Max(cfg.proofTtl, skew)
  {
    hide Run, Seen, Strategy.ProofStep, ProvedAt, Ordinary, Strategy.WellKeyed;
    if BasisAt(h, cfg, ttl, es, n) == Granted {
      i := GrantSource(h, cfg, ttl, es, n, skew);
    } else {
      var g := TokenSource(h, cfg, ttl, es, n, es[n].request.deviceId);
      i := GrantSource(h, cfg, ttl, es, g, skew);
    }
  }

  // -- what the baseline does not look at ---------------------------------------------

  /** Neither the access position of a request nor anything the access domains have reported plays any part. */
  lemma AccessIsIgnored(a: Held, b: Held, cfg: Deployment, ttl: int, r: Request, q: Request)
    requires a.tokens == b.tokens && a.system.registry == b.system.registry
    requires a.system.nonces == b.system.nonces && a.system.proofs == b.system.proofs
    requires q == r.(address := q.address, domain := q.domain, sessionIdentity := q.sessionIdentity,
                     transitionId := q.transitionId)
    ensures Admit(a, cfg, ttl, r).1 == Admit(b, cfg, ttl, q).1
    ensures Admit(a, cfg, ttl, r).0.tokens == Admit(b, cfg, ttl, q).0.tokens
  {
    hide ObserveIn, VerifyProof, Identity.Lookup, Identity.Record, AddFailure;
    var pa := Strategy.ProofStep(Seen(a.system, cfg, r), cfg, r);
    var pb := Strategy.ProofStep(Seen(b.system, cfg, q), cfg, q);
    assert pa.1 == pb.1;
  }

  /** The contrast the baseline exists for: with a token in hand, a device using another device's live address is STABLE
      here and UNKNOWN or UNTRUSTED under CA-ZTCF. */
  lemma TokenOutlivesConflict(h: Held, cfg: Deployment, ttl: int, r: Request, owner: Text)
    requires HoldsToken(h.tokens, r)
    requires AttributedTo(h.system.store, r.address, owner)
    requires Live(h.system.store, r.address, r.clock.claimed).Some? && r.deviceId != owner
    ensures StateFor(Admit(h, cfg, ttl, r).1) == STABLE
    ensures Strategy.Decide(h.system, cfg, r).1.trustState in {UNKNOWN, UNTRUSTED}
  {
    hide Strategy.Decide, Live;
    Strategy.ConflictIsTerminal(h.system, cfg, r, owner);
  }

  // -- in place -------------------------------------------------------------

  class TokenStrategy {
    const deps: Service
    const ttl: int
    var tokens: Tokens

    ghost function View(): Held
      reads this, deps, deps.nonces, deps.proofs, deps.counters, deps.transitions, deps.transitions.tracks.Values,
        deps.bindings, deps.states
    {
      Held(deps.View(), tokens)
    }

    constructor (deps: Service, ttl: int)
      ensures this.deps == deps && this.ttl == ttl && tokens == map[]
    {
      this.deps, this.ttl, tokens := deps, ttl, map[];
    }

    method ClearTokens()
      modifies this
      ensures tokens == map[]
    {
      tokens := map[];
    }

    /** `deps.transitions.observe`. */
    method Observe(r: Request)
      requires deps.Valid()
      modifies deps.transitions, deps.transitions.tracks.Values
      ensures deps.Valid() && fresh(deps.transitions.tracks.Values - old(deps.transitions.tracks.Values))
      ensures deps.View() == Seen(old(deps.View()), deps.cfg, r)
    {
      hide ObserveIn, EvidenceFor, VerdictOf, Reported;
      var _, _ := deps.transitions.ObserveDetailed(r.deviceId, r.domain, Some(r.address), Now(r),
                                                    r.clock.corroborated, r.transitionId);
    }

    /** `decide`. */
    method Decide(r: Request) returns (decision: Decision)
      requires deps.Valid()
      modifies this, deps.nonces, deps.proofs, deps.counters, deps.transitions, deps.transitions.tracks.Values
      ensures deps.Valid() && fresh(deps.transitions.tracks.Values - old(deps.transitions.tracks.Values))
      ensures (View(), decision) == Answer(old(View()), deps.cfg, ttl, r)
    {
      hide Seen, Strategy.ProofStep, Service.Valid, Service.View, Direct;
      Observe(r);
      if r.deviceId in tokens && Now(r) <= tokens[r.deviceId].expiresAt {
        return Direct(STABLE, deps.cfg, r);
      }
      tokens := tokens - {r.deviceId};
      var basis := Admission(r);
      decision := Direct(StateFor(basis), deps.cfg, r);
    }

    /** The rest of `decide`, once no token is valid. */
    method Admission(r: Request) returns (basis: Basis)
      requires deps.Valid() && r.deviceId !in tokens
      modifies this, deps.nonces, deps.proofs, deps.counters
      ensures deps.Valid() && deps.transitions.tracks == old(deps.transitions.tracks)
      ensures (View(), basis) == Renew(old(View()), deps.cfg, ttl, r)
    {
      hide Strategy.ProofStep, Service.Valid, TransitionCollector.View;
      if r.deviceId !in deps.registry {
        return Unregistered;
      }
      if deps.registry[r.deviceId].status != ACTIVE {
        return Inactive;
      }
      var pop := deps.Prove(r);
      if pop.None? || !pop.value.valid {
        return Unproved;
      }
      tokens := tokens[r.deviceId := Token(r.deviceId, Now(r), Now(r) + ttl)];
      basis := Granted;
    }
  }
}
