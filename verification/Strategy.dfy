/** The CA-ZTCF decision (strategies/ca_ztcf.py): one call through every store, as a function on values, and what every
    interleaving of such calls with the rest of the system keeps. */
module Strategy {
  import opened Base
  import opened Topics
  import opened Policy
  import opened Identity
  import opened Counters
  import opened Bindings
  import opened Transitions
  import opened Collector
  import opened Trust

  datatype PolicyEntry = PolicyEntry(action: PolicyAction, scope: AccessScope, ttlMs: int)

  /** Configuration: thresholds, windows, and the policy matrix as an arbitrary function. */
  datatype Deployment = Deployment(
    settings: Settings, transitions: Config, nonceTtl: int, proofTtl: int, failureWindow: int,
    matrix: (TrustState, TransitionContext) -> PolicyEntry)

  /** The services' state. */
  datatype System = System(
    registry: map<Text, DeviceIdentity>, nonces: Nonces, proofs: Proofs, failures: Buckets, conflicts: map<Text, nat>,
    collector: State, store: Store, states: map<Text, TrustState>)

  /** The readings of the clock one decision may take: on entry, verifying the proof, consuming its nonce, corroborating
      the position, claiming the address, and stamping a decision that no evaluation stamps. */
  datatype Readings = Readings(
    called: Instant, verified: Instant, consumed: Instant, corroborated: Instant, claimed: Instant, stamped: Instant)

  /** An access request, with what the clock, the key and the identifier generators contribute to its evaluation. */
  datatype Request = Request(
    deviceId: Text, address: Text, domain: AccessDomain, sessionIdentity: Option<Text>, proof: Option<Proof>,
    at: Option<Instant>, clock: Readings, check: SignatureCheck, transitionId: nat, decisionId: nat)

  /** `self.now(request)`. */
  function Now(r: Request): Instant {
    if r.at.Some? then r.at.value else r.clock.called
  }

  const COLON: byte := 58

  /** The session belongs to the device: absent, the device itself, or one of its sub-sessions. */
  predicate SessionConsistent(r: Request) {
    r.sessionIdentity.None? || r.sessionIdentity.value == r.deviceId || r.deviceId + [COLON] <= r.sessionIdentity.value
  }

  /** Verify a fresh proof, or fall back on the last verified one. */
  function ProofStep(s: System, cfg: Deployment, r: Request): (System, Option<PoPResult>) {
    if r.deviceId !in s.registry then (s, None)
    else if r.proof.Some? then
      var (nonces, pop) :=
          VerifyProof(s.nonces, s.registry[r.deviceId].deviceId, r.proof.value, r.check, r.clock.verified,
                      r.clock.consumed);
      (s.(nonces := nonces, proofs := Record(s.proofs, pop),
          failures := if pop.valid then s.failures else AddFailure(s.failures, r.deviceId, Now(r), cfg.failureWindow)),
       Some(pop))
    else
      var (proofs, pop) := Lookup(s.proofs, r.deviceId, cfg.proofTtl, Now(r));
      (s.(proofs := proofs), pop)
  }

  function ObservationOf(s: System, r: Request): Observation {
    Observation(r.domain, Some(r.address), Now(r),
                EvidenceFor(Some(s.store), r.domain, Some(r.address), r.clock.corroborated), r.transitionId)
  }

  /** Observe the position, then derive the transition context. */
  function TransitionStep(s: System, cfg: Deployment, r: Request): (System, TransitionContext) {
    var observed := ObserveIn(s.collector, cfg.transitions, r.deviceId, ObservationOf(s, r));
    (s.(collector := ContextIn(observed, cfg.transitions, r.deviceId, Now(r))),
     ContextFor(TrackOf(observed, r.deviceId), cfg.transitions, Now(r)))
  }

  /** Claim the address, counting a conflict. */
  function ClaimStep(s: System, r: Request): (System, Option<Binding>, bool) {
    var (store, binding, consistent) := Claim(s.store, r.address, r.deviceId, r.clock.claimed);
    (s.(store := store,
        conflicts := if consistent then s.conflicts
                     else s.conflicts[r.deviceId :=
                       (if r.deviceId in s.conflicts then s.conflicts[r.deviceId] else 0) + 1]),
     binding, consistent)
  }

  /** Read the two window counters, pruning them. */
  function CountStep(s: System, cfg: Deployment, r: Request): (System, nat, nat) {
    var collector := CountIn(s.collector, cfg.transitions, r.deviceId, Now(r));
    var failures := PruneFailures(s.failures, r.deviceId, Now(r), cfg.failureWindow);
    (s.(collector := collector, failures := failures),
     |TrackOf(collector, r.deviceId).history|, |Bucket(failures, r.deviceId)|)
  }

  /** What the assembler is given. */
  function Gather(s: System, cfg: Deployment, r: Request): (System, TransitionContext, Inputs) {
    var (proved, pop) := ProofStep(s, cfg, r);
    var (moved, context) := TransitionStep(proved, cfg, r);
    var (claimed, binding, consistent) := ClaimStep(moved, r);
    var (counted, count, failures) := CountStep(claimed, cfg, r);
    (counted, context,
     Inputs(if r.deviceId in s.registry then Some(s.registry[r.deviceId]) else None, pop, binding, consistent,
            IsRecent(TrackOf(claimed.collector, r.deviceId), cfg.transitions, Now(r)), count, failures,
            SessionConsistent(r), Now(r)))
  }

  function DecisionOf(state: TrustState, context: TransitionContext, cfg: Deployment, r: Request): Decision {
    var entry := cfg.matrix(state, context);
    Decision(r.decisionId, r.deviceId, state, context, entry.action, Resolve(entry.scope, r.deviceId), entry.ttlMs,
             Now(r))
  }

  /** `decide`. */
  function Decide(s: System, cfg: Deployment, r: Request): (System, Decision) {
    var (after, context, inputs) := Gather(s, cfg, r);
    var state := Derive(inputs, cfg.settings);
    (after.(states := s.states[r.deviceId := state]), DecisionOf(state, context, cfg, r))
  }

  // -- the context agrees with the state, in any system state -----------------------------------

  /** Each step changes its own part of the system and nothing else. */
  lemma StepsLeave(s: System, cfg: Deployment, r: Request)
    ensures var t := ProofStep(s, cfg, r).0;
      t == s.(nonces := t.nonces, proofs := t.proofs, failures := t.failures)
    ensures var t := TransitionStep(s, cfg, r).0; t == s.(collector := t.collector)
    ensures var t := ClaimStep(s, r).0; t == s.(store := t.store, conflicts := t.conflicts)
    ensures var t := CountStep(s, cfg, r).0; t == s.(collector := t.collector, failures := t.failures)
  {
    hide ObserveIn, ContextIn, CountIn, ContextFor, IsRecent, VerifyProof, Lookup, Claim, PruneFailures, AddFailure;
  }

  /** What a decision takes from the proof and the claim, and what it leaves of the rest. */
  lemma GatherParts(s: System, cfg: Deployment, r: Request)
    ensures var (t, _, inputs) := Gather(s, cfg, r);
      var (claimed, binding, consistent) := Claim(s.store, r.address, r.deviceId, r.clock.claimed);
      && t.registry == s.registry && t.states == s.states && t.store == claimed
      && t.nonces == ProofStep(s, cfg, r).0.nonces && t.proofs == ProofStep(s, cfg, r).0.proofs
      && inputs.identity == (if r.deviceId in s.registry then Some(s.registry[r.deviceId]) else None)
      && inputs.pop == ProofStep(s, cfg, r).1
      && inputs.binding == binding && inputs.bindingConsistent == consistent && inputs.now == Now(r)
  {
    hide ProofStep, TransitionStep, CountStep, IsRecent, Claim;
    var (proved, _) := ProofStep(s, cfg, r);
    var (moved, _) := TransitionStep(proved, cfg, r);
    var (claimed, _, _) := ClaimStep(moved, r);
    StepsLeave(s, cfg, r);
    StepsLeave(proved, cfg, r);
    StepsLeave(moved, cfg, r);
    StepsLeave(claimed, cfg, r);
  }

  /** The failures counted are those the proof step left, pruned. */
  lemma GatherFailures(s: System, cfg: Deployment, r: Request)
    ensures var (t, _, inputs) := Gather(s, cfg, r);
      && t.failures == PruneFailures(ProofStep(s, cfg, r).0.failures, r.deviceId, Now(r), cfg.failureWindow)
      && inputs.authnFailures == |Bucket(t.failures, r.deviceId)|
  {
    hide ProofStep, TransitionStep, Claim, IsRecent, CountIn, PruneFailures, Bucket;
    var (proved, _) := ProofStep(s, cfg, r);
    StepsLeave(proved, cfg, r);
  }

  lemma DecisionState(s: System, cfg: Deployment, r: Request)
    ensures Decide(s, cfg, r).1.trustState == Derive(Gather(s, cfg, r).2, cfg.settings)
    ensures Decide(s, cfg, r).0.store == Gather(s, cfg, r).0.store
  {
    hide Gather, Derive;
  }

  lemma ObserveAt(s: State, cfg: Config, deviceId: Text, o: Observation)
    ensures TrackOf(ObserveIn(s, cfg, deviceId, o), deviceId) == Observe(TrackOf(s, deviceId), cfg, deviceId, o)
  {}

  lemma ContextAt(s: State, cfg: Config, deviceId: Text, at: Instant)
    requires deviceId in s.tracks
    ensures TrackOf(ContextIn(s, cfg, deviceId, at), deviceId) == Contexted(TrackOf(s, deviceId), cfg, at)
  {}

  lemma CountAt(s: State, cfg: Config, deviceId: Text, at: Instant)
    requires deviceId in s.tracks
    ensures TrackOf(CountIn(s, cfg, deviceId, at), deviceId) == Counted(TrackOf(s, deviceId), cfg, at)
  {}

  lemma {:induction false} PruneTwice(history: seq<Instant>, cutoff: Instant)
    ensures Window.Prune(Window.Prune(history, cutoff), cutoff) == Window.Prune(history, cutoff)
  {
    if history != [] && history[0] < cutoff { PruneTwice(history[1..], cutoff); }
  }

  /** The window count and the recency the predicates see are the ones the context was derived from. */
  lemma GatheredTransition(s: System, cfg: Deployment, r: Request)
    ensures var (_, context, inputs) := Gather(s, cfg, r);
      var t := Observe(TrackOf(s.collector, r.deviceId), cfg.transitions, r.deviceId, ObservationOf(s, r));
      && inputs.transitionRecent == IsRecent(t, cfg.transitions, Now(r))
      && inputs.transitionsInWindow == |Counted(t, cfg.transitions, Now(r)).history|
      && context == ContextFor(t, cfg.transitions, Now(r))
  {
    hide Observe, IsRecent, ContextFor, Derive, Claim, VerifyProof, Lookup, Reindex;
    var (proved, _) := ProofStep(s, cfg, r);
    assert proved.collector == s.collector && proved.store == s.store;
    var o := ObservationOf(s, r);
    var observed := ObserveIn(s.collector, cfg.transitions, r.deviceId, o);
    ObserveAt(s.collector, cfg.transitions, r.deviceId, o);
    ContextAt(observed, cfg.transitions, r.deviceId, Now(r));
    var contexted := ContextIn(observed, cfg.transitions, r.deviceId, Now(r));
    CountAt(contexted, cfg.transitions, r.deviceId, Now(r));
    var t := Observe(TrackOf(s.collector, r.deviceId), cfg.transitions, r.deviceId, o);
    ContextKeepsRecency(t, cfg.transitions, Now(r));
  }

  lemma ContextKeepsRecency(t: Track, cfg: Config, at: Instant)
    ensures IsRecent(Contexted(t, cfg, at), cfg, at) == IsRecent(t, cfg, at)
    ensures Counted(Contexted(t, cfg, at), cfg, at) == Counted(t, cfg, at)
  {
    PruneTwice(t.history, at - cfg.rateWindow);
  }

  /** The validated configuration. */
  ghost predicate Validated(cfg: Deployment) {
    cfg.transitions.repeatThreshold <= cfg.settings.maxTransitions
  }

  /** The two axes of the policy matrix never disagree: the context is NONE exactly when no transition is recent, so
      STABLE comes with NONE and TRANSITIONAL never does, and a rate violation inside the window is always REPEATED. */
  lemma ContextMatchesState(s: System, cfg: Deployment, r: Request)
    requires Validated(cfg)
    ensures var (_, context, inputs) := Gather(s, cfg, r);
      var d := Decide(s, cfg, r).1;
      && (context == NONE <==> !inputs.transitionRecent)
      && d.context == context
      && (d.trustState == STABLE ==> d.context == NONE)
      && (d.trustState == TRANSITIONAL ==> d.context != NONE)
      && (inputs.transitionRecent && inputs.transitionsInWindow > cfg.settings.maxTransitions ==> d.context == REPEATED)
  {
    hide Gather, Observe, StateOf, EvaluatePosture;
    GatheredTransition(s, cfg, r);
    var (_, _, inputs) := Gather(s, cfg, r);
    RankOf(Evaluate(Assemble(inputs, cfg.settings), cfg.settings));
  }

  // -- attribution, over every interleaving ---------------------------------------------

  /** While an address is attributed to a device and its binding is live, any other device deciding from that address
      is UNKNOWN or UNTRUSTED, and the attribution stands. */
  lemma ConflictIsTerminal(s: System, cfg: Deployment, r: Request, owner: Text)
    requires AttributedTo(s.store, r.address, owner) && Live(s.store, r.address, r.clock.claimed).Some?
    requires r.deviceId != owner
    ensures var d := Decide(s, cfg, r).1; d.trustState == UNKNOWN || d.trustState == UNTRUSTED
    ensures Decide(s, cfg, r).0.store == s.store
  {
    hide Gather, StateOf, EvaluatePosture, DecisionOf;
    GatherParts(s, cfg, r);
    DecisionState(s, cfg, r);
    var (_, _, inputs) := Gather(s, cfg, r);
    ConflictingClaim(s.store, r.address, owner, r.deviceId, r.clock.claimed);
    RankOf(Evaluate(Assemble(inputs, cfg.settings), cfg.settings));
  }

  /** A device that decides from a live address nobody has claimed becomes its owner, whether or not it proved
      anything. */
  lemma FirstClaimantOwns(s: System, cfg: Deployment, r: Request)
    requires Live(s.store, r.address, r.clock.claimed).Some? && s.store[r.address].deviceRef == None
    ensures AttributedTo(Decide(s, cfg, r).0.store, r.address, r.deviceId)
  {
    hide Gather, Derive, DecisionOf;
    GatherParts(s, cfg, r);
  }

  /** Everything that can happen between two decisions. Time passes inside every one of them. */
  datatype Action =
    | Decided(request: Request)
    | BindingUpserted(binding: Binding) | BindingReleased(address: Text) | BindingsCleared
    | NonceRequested(nonce: Text, deviceId: Text, now: Instant)
    | RegistryChanged(registry: map<Text, DeviceIdentity>)
    | ProofInvalidated(deviceId: Text) | TransitionsReset(deviceId: Text)

  function Act(s: System, cfg: Deployment, a: Action): System {
    match a
    case Decided(r) => Decide(s, cfg, r).0
    case BindingUpserted(b) => s.(store := Upsert(s.store, b))
    case BindingReleased(address) => s.(store := s.store - {address})
    case BindingsCleared => s.(store := map[])
    case NonceRequested(nonce, d, now) => s.(nonces := IssueNonce(s.nonces, nonce, d, now, cfg.nonceTtl))
    case RegistryChanged(registry) => s.(registry := registry)
    case ProofInvalidated(d) => s.(proofs := s.proofs - {d})
    case TransitionsReset(d) => s.(collector := ResetIn(s.collector, d))
  }

  function ActAll(s: System, cfg: Deployment, actions: seq<Action>): System
    decreases |actions|
  {
    if actions == [] then s else ActAll(Act(s, cfg, actions[0]), cfg, actions[1..])
  }

  /** What an action does to the binding store. */
  function BindingEvents(a: Action): seq<Bindings.Event> {
    match a
    case Decided(r) => [Claimed(r.address, r.deviceId, r.clock.claimed)]
    case BindingUpserted(b) => [Upserted(b)]
    case BindingReleased(address) => [Released(address)]
    case BindingsCleared => [Bindings.Cleared]
    case _ => []
  }

  lemma ActOnStore(s: System, cfg: Deployment, a: Action)
    ensures Act(s, cfg, a).store == ApplyAll(s.store, BindingEvents(a))
  {
    hide Gather, Derive, DecisionOf, Claim, Upsert, IssueNonce, ResetIn;
    if a.Decided? {
      GatherParts(s, cfg, a.request);
    }
    if BindingEvents(a) != [] {
      assert BindingEvents(a)[1..] == [];
    }
  }

  /** No action ends the attribution: no release, no clear, no upsert from the other domain, none naming another
      device. */
  ghost predicate Undisturbed(s: System, cfg: Deployment, actions: seq<Action>, address: Text, owner: Text)
    decreases |actions|
  {
    actions == [] || (
      && NoneEnds(s.store, BindingEvents(actions[0]), address, owner)
      && Undisturbed(Act(s, cfg, actions[0]), cfg, actions[1..], address, owner))
  }

  /** Whatever the system does in between, in whatever order, as long as nothing ends the attribution: a decision for
      any other device from that address, while the binding is live, is UNKNOWN or UNTRUSTED. Letting the binding expire
      and its own domain refresh it does not help. */
  lemma {:induction false} AttributionIsSafe(s: System, cfg: Deployment, actions: seq<Action>, owner: Text, r: Request)
    requires AttributedTo(s.store, r.address, owner) && Undisturbed(s, cfg, actions, r.address, owner)
    requires Live(ActAll(s, cfg, actions).store, r.address, r.clock.claimed).Some? && r.deviceId != owner
    ensures AttributedTo(ActAll(s, cfg, actions).store, r.address, owner)
    ensures var d := Decide(ActAll(s, cfg, actions), cfg, r).1; d.trustState == UNKNOWN || d.trustState == UNTRUSTED
    decreases |actions|
  {
    hide Act, Decide, Live;
    if actions == [] {
      ConflictIsTerminal(s, cfg, r, owner);
    } else {
      ActOnStore(s, cfg, actions[0]);
      AttributionPersists(s.store, BindingEvents(actions[0]), r.address, owner);
      AttributionIsSafe(Act(s, cfg, actions[0]), cfg, actions[1..], owner, r);
    }
  }

  // -- proofs behind decisions -----------------------------------------------------------

  /** A decision at or above TRANSITIONAL rests on a verified proof within its lifetime, on a live, fresh binding this
      device owns, and on accepted posture. */
  lemma TrustNeedsEvidence(s: System, cfg: Deployment, r: Request)
    ensures Rank(Decide(s, cfg, r).1.trustState) >= Rank(TRANSITIONAL) ==>
      var (_, _, inputs) := Gather(s, cfg, r);
      && r.deviceId in s.registry && s.registry[r.deviceId].status == ACTIVE
      && inputs.pop.Some? && inputs.pop.value.valid && inputs.pop.value.verifiedAt.Some?
      && IsFresh(inputs.pop.value.verifiedAt.value, Now(r), cfg.settings.popTtl)
      && AttributedTo(Decide(s, cfg, r).0.store, r.address, r.deviceId)
      && Live(s.store, r.address, r.clock.claimed).Some?
      && inputs.binding.Some? && IsFresh(inputs.binding.value.lastSeen, Now(r), cfg.settings.bindingFreshnessMax)
      && EvaluatePosture(inputs.binding, cfg.settings).ok
      && inputs.authnFailures <= cfg.settings.maxAuthnFailures
      && inputs.transitionsInWindow <= cfg.settings.maxTransitions
  {
    hide Gather, StateOf, EvaluatePosture, DecisionOf;
    GatherParts(s, cfg, r);
    DecisionState(s, cfg, r);
    var (_, _, inputs) := Gather(s, cfg, r);
    RankOf(Evaluate(Assemble(inputs, cfg.settings), cfg.settings));
  }

  /** The registry files every identity under its own device id. */
  ghost predicate WellKeyed(registry: map<Text, DeviceIdentity>) {
    forall d | d in registry :: registry[d].deviceId == d
  }

  /** The request carries a proof, and the proof verifies. */
  predicate Proves(s: System, r: Request) {
    && r.deviceId in s.registry && r.proof.Some?
    && Verifies(s.nonces, s.registry[r.deviceId].deviceId, r.proof.value, r.check, r.clock.consumed)
  }

  /** What the proof store holds for a device after a request's proof has been dealt with: what it held before, or the
      success of the proof just presented. */
  lemma ProofStepStores(s: System, cfg: Deployment, r: Request, d: Text)
    requires WellKeyed(s.registry)
    ensures var after := ProofStep(s, cfg, r).0.proofs;
      d in after ==>
        || (d in s.proofs && after[d] == s.proofs[d])
        || (r.deviceId == d && Proves(s, r) && after[d].valid && after[d].verifiedAt == Some(r.clock.verified))
  {
    hide VerifyProof, AddFailure;
    if r.deviceId in s.registry && r.proof.Some? {
      VerifyMeans(s.nonces, s.registry[r.deviceId].deviceId, r.proof.value, r.check, r.clock.verified,
                  r.clock.consumed);
    }
  }

  /** A valid result comes from a proof that verifies, or from the store. */
  lemma ProofStepResult(s: System, cfg: Deployment, r: Request)
    requires WellKeyed(s.registry)
    ensures var pop := ProofStep(s, cfg, r).1;
      pop.Some? && pop.value.valid ==>
        || (Proves(s, r) && pop.value.verifiedAt == Some(r.clock.verified))
        || (r.deviceId in s.proofs && pop.value == s.proofs[r.deviceId])
  {
    hide VerifyProof, AddFailure;
    if r.deviceId in s.registry && r.proof.Some? {
      VerifyMeans(s.nonces, s.registry[r.deviceId].deviceId, r.proof.value, r.check, r.clock.verified,
                  r.clock.consumed);
    }
  }

  /** A proof that verifies is the answer. */
  lemma FreshProofAnswers(s: System, cfg: Deployment, r: Request)
    requires Proves(s, r)
    ensures var pop := ProofStep(s, cfg, r).1; pop.Some? && pop.value.valid
  {
    hide VerifyProof, AddFailure;
    VerifyMeans(s.nonces, s.registry[r.deviceId].deviceId, r.proof.value, r.check, r.clock.verified,
                r.clock.consumed);
  }

  lemma DecideLeaves(s: System, cfg: Deployment, r: Request)
    ensures Decide(s, cfg, r).0.proofs == ProofStep(s, cfg, r).0.proofs && Decide(s, cfg, r).0.registry == s.registry
    ensures Decide(s, cfg, r).0.nonces == ProofStep(s, cfg, r).0.nonces
    ensures Gather(s, cfg, r).2.pop == ProofStep(s, cfg, r).1
  {
    hide Gather, Derive, DecisionOf;
    GatherParts(s, cfg, r);
  }

  /** The registry stays well keyed. */
  ghost predicate KeepsKeys(a: Action) {
    a.RegistryChanged? ==> WellKeyed(a.registry)
  }

  lemma ActProofs(s: System, cfg: Deployment, a: Action, d: Text)
    requires WellKeyed(s.registry) && KeepsKeys(a)
    ensures var after := Act(s, cfg, a);
      && WellKeyed(after.registry)
      && (d in after.proofs ==>
          || (d in s.proofs && after.proofs[d] == s.proofs[d])
          || (&& a.Decided? && a.request.deviceId == d && Proves(s, a.request)
              && after.proofs[d].valid && after.proofs[d].verifiedAt == Some(a.request.clock.verified)))
  {
    hide Decide, Proves, WellKeyed, ProofStep, Upsert, ResetIn, IssueNonce;
    if a.Decided? {
      DecideLeaves(s, cfg, a.request);
      ProofStepStores(s, cfg, a.request, d);
    }
  }

  lemma {:induction false} ActAllStep(s: System, cfg: Deployment, actions: seq<Action>)
    requires actions != []
    ensures ActAll(s, cfg, actions) == Act(ActAll(s, cfg, actions[..|actions| - 1]), cfg, actions[|actions| - 1])
    decreases |actions|
  {
    hide Act;
    if |actions| > 1 {
      assert actions[1..][..|actions| - 2] == actions[..|actions| - 1][1..];
      ActAllStep(Act(s, cfg, actions[0]), cfg, actions[1..]);
    }
  }
}
