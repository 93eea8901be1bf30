/** What a CA-ZTCF decision says, in terms of what has happened in the system (strategies/ca_ztcf.py,
    policy/evaluator.py): its trust state, its transition context, and what the policy matrix gives for the two. */
module Decisions {
  import opened Base
  import opened Window
  import opened Topics
  import opened Policy
  import opened Identity
  import opened Bindings
  import opened Transitions
  import opened Moves
  import opened Collector
  import opened Trust
  import opened Strategy
  import opened Provenance
  import opened Rates

  // -- the answer -------------------------------------------------------------------

  /** The patterns with the device's id for the placeholder, one for one. */
  ghost predicate Substituted(patterns: seq<Text>, resolved: seq<Text>, id: Text) {
    |resolved| == |patterns| && forall i | 0 <= i < |patterns| :: resolved[i] == Replace(patterns[i], id)
  }

  /** The decision is what the matrix has for its own state and context, issued to this device at this instant. */
  ghost predicate Follows(d: Decision, matrix: (TrustState, TransitionContext) -> PolicyEntry, id: nat, device: Text,
                          at: Instant)
  {
    var entry := matrix(d.trustState, d.context);
    && d.id == id && d.deviceId == device && d.createdAt == at
    && d.action == entry.action && d.ttlMs == entry.ttlMs
    && d.scope.name == entry.scope.name
    && Substituted(entry.scope.allow, d.scope.allow, device)
    && Substituted(entry.scope.deny, d.scope.deny, device)
  }

  /** In any state of the system, so after every run: action, scope and lifetime are the matrix's, for the device that
      asked, from the instant it asked about. */
  lemma DecisionFollowsMatrix(s: System, cfg: Deployment, r: Request)
    ensures Follows(Decide(s, cfg, r).1, cfg.matrix, r.decisionId, r.deviceId,
                    if r.at.Some? then r.at.value else r.clock.called)
  {
    hide Gather, Derive;
  }

  // -- one device's topics are no other's --------------------------------------------

  /** Every entry of the policy matrix allows only patterns that name the device at level k or are shared. */
  ghost predicate NamesDevices(matrix: (TrustState, TransitionContext) -> PolicyEntry, k: nat, shared: seq<Text>) {
    forall state, context :: NamesOrShares(matrix(state, context).scope, k, shared)
  }

  /** Whatever the scope permits, topic or filter, has the id at level k, unless a shared pattern accepts it. */
  ghost predicate Confined(scope: AccessScope, id: Text, k: nat, shared: seq<Text>) {
    forall topic: Text | ScopePermits(scope, topic) :: InCommon(shared, id, topic) || AtLevel(topic, k, id)
  }

  ghost predicate AtLevel(topic: Text, k: nat, id: Text) {
    k < |Split(topic)| && Split(topic)[k] == id
  }

  lemma FollowsConfines(d: Decision, matrix: (TrustState, TransitionContext) -> PolicyEntry, id: nat, device: Text,
                        at: Instant, k: nat, shared: seq<Text>)
    requires Follows(d, matrix, id, device, at) && NamesDevices(matrix, k, shared) && RegistryCharset(device)
    ensures Confined(d.scope, device, k, shared)
  {
    hide ScopePermits, NamesOrShares, InCommon;
    var scope := matrix(d.trustState, d.context).scope;
    assert d.scope == Resolve(scope, device);
    assert NamesOrShares(scope, k, shared);
    forall topic: Text | ScopePermits(d.scope, topic)
      ensures InCommon(shared, device, topic) || AtLevel(topic, k, device)
    {
      PermittedLevelOrShared(scope, device, k, shared, topic);
    }
  }

  /** Over every run, for any two decisions taken in it for different devices: whatever each permits on its own account,
      topic or filter, has nothing in common with what the other does. */
  lemma DecisionsIsolateDevices(s: System, cfg: Deployment, actions: seq<Action>, i: nat, j: nat, k: nat,
                                shared: seq<Text>, a: Text, b: Text)
    requires i < |actions| && j < |actions| && actions[i].Decided? && actions[j].Decided?
    requires actions[i].request.deviceId != actions[j].request.deviceId && NamesDevices(cfg.matrix, k, shared)
    requires RegistryCharset(actions[i].request.deviceId) && RegistryCharset(actions[j].request.deviceId)
    requires !InCommon(shared, actions[i].request.deviceId, a) && !InCommon(shared, actions[j].request.deviceId, b)
    ensures var d := Decide(ActAll(s, cfg, actions[..i]), cfg, actions[i].request).1;
      var e := Decide(ActAll(s, cfg, actions[..j]), cfg, actions[j].request).1;
      ScopePermits(d.scope, a) && ScopePermits(e.scope, b) ==>
        a != b && !TopicMatches(a, b) && forall topic: Text :: !(TopicMatches(a, topic) && TopicMatches(b, topic))
  {
    hide Decide, ActAll, Follows, InCommon, ScopePermits, TopicMatches, Split, RegistryCharset, NamesDevices;
    var p, q := actions[i].request, actions[j].request;
    var d, e := Decide(ActAll(s, cfg, actions[..i]), cfg, p).1, Decide(ActAll(s, cfg, actions[..j]), cfg, q).1;
    DecisionFollowsMatrix(ActAll(s, cfg, actions[..i]), cfg, p);
    DecisionFollowsMatrix(ActAll(s, cfg, actions[..j]), cfg, q);
    FollowsConfines(d, cfg.matrix, p.decisionId, p.deviceId, Now(p), k, shared);
    FollowsConfines(e, cfg.matrix, q.decisionId, q.deviceId, Now(q), k, shared);
    if ScopePermits(d.scope, a) && ScopePermits(e.scope, b) {
      LevelsApart(a, p.deviceId, b, q.deviceId, k);
    }
  }

  // -- what is gathered --------------------------------------------------------------

  /** The address has a binding that has not expired when it is claimed. */
  predicate Bound(s: System, r: Request) {
    && r.address in s.store
    && (s.store[r.address].expiresAt.Some? ==> r.clock.claimed <= s.store[r.address].expiresAt.value)
  }

  /** And it is attributed to another device. */
  predicate Taken(s: System, r: Request) {
    Bound(s, r) && s.store[r.address].deviceRef.Some? && s.store[r.address].deviceRef.value != r.deviceId
  }

  /** The claim finds the live binding, takes it if nobody has, and is inconsistent exactly when another device has. */
  lemma GatheredBinding(s: System, cfg: Deployment, r: Request)
    ensures var (after, _, inputs) := Gather(s, cfg, r);
      && (inputs.binding.Some? <==> Bound(s, r)) && (inputs.bindingConsistent <==> !Taken(s, r))
      && (Bound(s, r) ==>
            && var b := s.store[r.address];
            && inputs.binding.value == (if b.deviceRef.None? then b.(deviceRef := Some(r.deviceId)) else b)
            && after.store == s.store[r.address := inputs.binding.value])
      && (!Bound(s, r) ==> after.store == s.store)
  {
    hide Gather;
    GatherParts(s, cfg, r);
  }

  /** The proof the evidence names was verified at this instant: presented and verified now, or, none being presented,
      stored and still within its lifetime. */
  ghost predicate ProvedWith(s: System, cfg: Deployment, r: Request, at: Instant) {
    && r.deviceId in s.registry
    && if r.proof.Some? then
         && r.clock.verified == at && r.check == Verified
         && var p, identity := r.proof.value, s.registry[r.deviceId].deviceId;
         && p.deviceId == identity && p.nonce in s.nonces && s.nonces[p.nonce].deviceId == identity
         && r.clock.consumed <= s.nonces[p.nonce].expiresAt
       else
         && r.deviceId in s.proofs && s.proofs[r.deviceId].valid && s.proofs[r.deviceId].verifiedAt == Some(at)
         && Now(r) - at <= cfg.proofTtl
  }

  lemma GatheredProof(s: System, cfg: Deployment, r: Request, at: Instant)
    ensures var pop := Gather(s, cfg, r).2.pop;
      pop.Some? && pop.value.valid && pop.value.verifiedAt == Some(at) <==> ProvedWith(s, cfg, r, at)
  {
    hide Gather, Counters.AddFailure;
    GatherParts(s, cfg, r);
  }

  /** The session is neither absent, nor the device's own, nor one of its sub-sessions "device:...". */
  ghost predicate Foreign(r: Request) {
    && r.sessionIdentity.Some?
    && var x, n := r.sessionIdentity.value, |r.deviceId|;
    && x != r.deviceId && !(|x| > n && x[n] == COLON && forall i | 0 <= i < n :: x[i] == r.deviceId[i])
  }

  lemma SessionIsForeign(r: Request)
    ensures SessionConsistent(r) <==> !Foreign(r)
  {
    if r.sessionIdentity.Some? && r.sessionIdentity.value != r.deviceId {
      var x, n := r.sessionIdentity.value, |r.deviceId|;
      var own := r.deviceId + [COLON];
      assert own <= x ==> x[n] == own[n] && forall i | 0 <= i < n :: x[i] == own[i];
      assert |x| > n && x[n] == COLON && (forall i | 0 <= i < n :: x[i] == r.deviceId[i]) ==> own == x[..n + 1];
    }
  }

  lemma GatheredSession(s: System, cfg: Deployment, r: Request)
    ensures var inputs := Gather(s, cfg, r).2;
      && inputs.sessionConsistent == SessionConsistent(r) && inputs.now == Now(r)
      && inputs.identity == if r.deviceId in s.registry then Some(s.registry[r.deviceId]) else None
  {
    hide ProofStep, TransitionStep, ClaimStep, CountStep, IsRecent, SessionConsistent;
    var (proved, _) := ProofStep(s, cfg, r);
    StepsLeave(s, cfg, r);
  }

  // -- the context, over runs ---------------------------------------------------------

  /** The observation a decision makes: the request's own position at its own instant, corroborated by the binding that
      is live and of the claimed domain. */
  lemma ObservationMeans(s: System, r: Request)
    ensures var o := ObservationOf(s, r);
      && o.domain == r.domain && o.address == Some(r.address) && o.at == Now(r) && o.id == r.transitionId
      && var live := r.address in s.store && (s.store[r.address].expiresAt.Some? ==>
                       r.clock.corroborated <= s.store[r.address].expiresAt.value);
      && o.evidence == if live && s.store[r.address].domain == r.domain then Some(s.store[r.address].id) else None
  {}

  /** Over any run, as long as the device itself has named no later instant: the decision's context is the one that fits
      the moves of the device, this request's included. */
  lemma ContextFromHistory(s: System, cfg: Deployment, actions: seq<Action>, r: Request)
    requires s.collector == State(map[], map[]) && cfg.transitions.rateWindow >= 0
    requires OwnNotLater(actions, r.deviceId, Now(r))
    ensures var d := Decide(ActAll(s, cfg, actions), cfg, r).1;
      Fits(d.context, OfferedTo(s, cfg, actions, r), cfg.transitions, Now(r))
    ensures var (_, context, inputs) := Gather(ActAll(s, cfg, actions), cfg, r);
      && Fits(context, OfferedTo(s, cfg, actions, r), cfg.transitions, Now(r))
      && inputs.transitionRecent == (context != NONE)
  {
    hide ActAll, Gather, Derive, Observe, Fits, Transitions.Run, InputsFor, ObservationOf, Count;
    var now, d := ActAll(s, cfg, actions), r.deviceId;
    var offered := OfferedTo(s, cfg, actions, r);
    assert actions[..|actions|] == actions;
    TrackIsRun(s, cfg, actions, |actions|, d);
    GatheredTransition(now, cfg, r);
    RunGrows(InputsFor(s, cfg, actions, |actions|, d), Offer(ObservationOf(now, r)), cfg.transitions, d);
    InputsNotLater(s, cfg, actions, |actions|, d, Now(r));
    ObservationMeans(now, r);
    ContextFits(offered, cfg.transitions, d, Now(r));
  }

  // -- the trust state, over runs ------------------------------------------------------

  /** What the registry, the stores and the device's own history say at the time of a request. */
  datatype History = History(transitions: nat, failures: nat, moved: bool)

  ghost predicate Admitted(s: System, r: Request) {
    r.deviceId in s.registry && s.registry[r.deviceId].status == ACTIVE && !Taken(s, r)
  }

  ghost predicate Suspected(s: System, cfg: Deployment, r: Request, past: History) {
    || past.transitions > cfg.settings.maxTransitions || past.failures > cfg.settings.maxAuthnFailures
    || Foreign(r) || (Bound(s, r) && Misses(s.store[r.address], cfg.settings))
  }

  /** A proof within its lifetime, and a binding that is live and recent. */
  ghost predicate Backed(s: System, cfg: Deployment, r: Request) {
    && (exists at :: ProvedWith(s, cfg, r, at) && 0 <= cfg.settings.popTtl && Now(r) - at <= cfg.settings.popTtl)
    && Bound(s, r) && Recent(s.store[r.address], Now(r), cfg.settings)
  }

  ghost predicate Merits(s: System, cfg: Deployment, r: Request, past: History, state: TrustState) {
    match state
    case UNKNOWN => r.deviceId !in s.registry
    case UNTRUSTED => r.deviceId in s.registry && !Admitted(s, r)
    case SUSPICIOUS => Admitted(s, r) && Suspected(s, cfg, r, past)
    case DEGRADED => Admitted(s, r) && !Suspected(s, cfg, r, past) && !Backed(s, cfg, r)
    case TRANSITIONAL => Admitted(s, r) && !Suspected(s, cfg, r, past) && Backed(s, cfg, r) && past.moved
    case STABLE => Admitted(s, r) && !Suspected(s, cfg, r, past) && Backed(s, cfg, r) && !past.moved
  }

  /** The device's own history: its moves and failed proofs in the windows that end with the request, and whether its
      last move is recent. */
  ghost function HistoryOf(s: System, cfg: Deployment, actions: seq<Action>, r: Request): History {
    var inputs := OfferedTo(s, cfg, actions, r);
    var places := MovesOf(inputs, |inputs|);
    History(Count(MoveTimes(inputs), Now(r) - cfg.transitions.rateWindow, Now(r)),
            Count(FailedTimes(s, cfg, actions, r), Now(r) - cfg.failureWindow, Now(r)),
            places != [] && Now(r) - inputs[places[|places| - 1]].o.at <= cfg.transitions.transitionWindow)
  }

  /** In any state of the system, from the counts gathered. */
  lemma StateMerited(s: System, cfg: Deployment, r: Request, state: TrustState)
    ensures var inputs := Gather(s, cfg, r).2;
      var past := History(inputs.transitionsInWindow, inputs.authnFailures, inputs.transitionRecent);
      Decide(s, cfg, r).1.trustState == state <==> Merits(s, cfg, r, past, state)
  {
    hide Gather, Derive, Decide, Foreign, SessionConsistent, ProvedWith, Recent;
    var inputs := Gather(s, cfg, r).2;
    DecisionState(s, cfg, r);
    DerivedStateMeans(inputs, cfg.settings, state);
    GatheredBinding(s, cfg, r);
    GatheredSession(s, cfg, r);
    SessionIsForeign(r);
    forall at ensures inputs.pop.Some? && inputs.pop.value.valid && inputs.pop.value.verifiedAt == Some(at)
                 <==> ProvedWith(s, cfg, r, at)
    {
      GatheredProof(s, cfg, r, at);
    }
    if Bound(s, r) {
      SameConstraints(inputs.binding.value, s.store[r.address], Now(r), cfg.settings);
    }
    BackedIsEvidenced(s, cfg, r, inputs);
  }

  lemma SameConstraints(a: Binding, b: Binding, now: Instant, cfg: Settings)
    requires a == b.(deviceRef := a.deviceRef)
    ensures Misses(a, cfg) <==> Misses(b, cfg)
    ensures Recent(a, now, cfg) <==> Recent(b, now, cfg)
  {}

  lemma BackedIsEvidenced(s: System, cfg: Deployment, r: Request, inputs: Inputs)
    requires inputs.now == Now(r) && (inputs.binding.Some? <==> Bound(s, r))
    requires Bound(s, r) ==>
      (Recent(inputs.binding.value, Now(r), cfg.settings) <==> Recent(s.store[r.address], Now(r), cfg.settings))
    requires forall at ::
      (inputs.pop.Some? && inputs.pop.value.valid && inputs.pop.value.verifiedAt == Some(at)
       <==> ProvedWith(s, cfg, r, at))
    ensures Evidenced(inputs, cfg.settings) <==> Backed(s, cfg, r)
  {
    hide Bound, Recent, ProvedWith;
  }

  /** Over any run, whatever other devices do: the state a device is given is the one that the registry, the stores and
      its own history merit, as long as the device names its instants in order. */
  lemma TrustFromHistory(s: System, cfg: Deployment, actions: seq<Action>, r: Request, state: TrustState)
    requires s.collector == State(map[], map[]) && s.failures == map[]
    requires cfg.transitions.rateWindow >= 0 && cfg.failureWindow >= 0
    requires OwnOrder(actions + [Decided(r)], r.deviceId)
    ensures var now := ActAll(s, cfg, actions);
      Decide(now, cfg, r).1.trustState == state
      <==> Merits(now, cfg, r, HistoryOf(s, cfg, actions, r), state)
  {
    hide ActAll, Gather, Decide, Merits, Fits, Count, FailedTimes, OwnOrder, OwnNotLater, OfferedTo, MovesOf,
         MoveTimes, IsMove;
    var now, inputs := ActAll(s, cfg, actions), Gather(ActAll(s, cfg, actions), cfg, r).2;
    FailedTimesAscend(s, cfg, actions, r);
    StateMerited(now, cfg, r, state);
    ReportedFailures(s, cfg, actions, r);
    CountedMoves(s, cfg, actions, r);
    ContextFromHistory(s, cfg, actions, r);
    MovedIff(Gather(now, cfg, r).1, OfferedTo(s, cfg, actions, r), cfg.transitions, Now(r));
  }

  lemma MovedIff(context: TransitionContext, inputs: seq<Input>, cfg: Config, q: Instant)
    requires Fits(context, inputs, cfg, q)
    ensures var places := MovesOf(inputs, |inputs|);
      context != NONE <==> places != [] && q - inputs[places[|places| - 1]].o.at <= cfg.transitionWindow
  {
    hide MovesOf, Count, IsMove, MoveTimes;
  }

  /** The count behind C8 is the number of moves in the window. */
  lemma CountedMoves(s: System, cfg: Deployment, actions: seq<Action>, r: Request)
    requires s.collector == State(map[], map[]) && cfg.transitions.rateWindow >= 0
    requires OwnNotLater(actions, r.deviceId, Now(r))
    ensures Gather(ActAll(s, cfg, actions), cfg, r).2.transitionsInWindow
         == Count(MoveTimes(OfferedTo(s, cfg, actions, r)), Now(r) - cfg.transitions.rateWindow, Now(r))
  {
    hide ActAll, Gather, WindowExact, Count, TimesOf, Accepted, MoveTimes;
    CountedIsWindow(s, cfg, actions, r);
    InputsNotLater(s, cfg, actions, |actions|, r.deviceId, Now(r));
    WindowIsExact(OfferedTo(s, cfg, actions, r), cfg.transitions, r.deviceId, Now(r));
    TimesAreMoves(OfferedTo(s, cfg, actions, r), cfg.transitions, r.deviceId);
  }

  // -- a proof serves until it is too old ------------------------------------------------

  /** The action leaves the device's stored proof, verified at this instant, where it is: it neither replaces it with
      another success, nor invalidates it, nor looks it up too late. */
  ghost predicate Spares(s: System, cfg: Deployment, a: Action, d: Text, at: Instant) {
    match a
    case Decided(r) =>
      r.deviceId == d ==> !Proves(s, r) && (r.proof.None? && d in s.registry ==> Now(r) - at <= cfg.proofTtl)
    case ProofInvalidated(e) => e != d
    case _ => true
  }

  lemma StepSpares(s: System, cfg: Deployment, r: Request, d: Text, at: Instant)
    requires WellKeyed(s.registry) && Spares(s, cfg, Decided(r), d, at)
    requires d in s.proofs && s.proofs[d].verifiedAt == Some(at)
    ensures var after := ProofStep(s, cfg, r).0.proofs; d in after && after[d] == s.proofs[d]
  {
    hide VerifyProof, Counters.AddFailure, Proves;
    if r.deviceId in s.registry && r.proof.Some? {
      PresentedProof(s, r);
    }
  }

  lemma PresentedProof(s: System, r: Request)
    requires WellKeyed(s.registry) && r.deviceId in s.registry && r.proof.Some?
    ensures var pop := VerifyProof(s.nonces, s.registry[r.deviceId].deviceId, r.proof.value, r.check, r.clock.verified,
                                   r.clock.consumed).1;
      (pop.valid <==> Proves(s, r)) && pop.deviceId == r.deviceId
  {
    hide VerifyProof;
    VerifyMeans(s.nonces, s.registry[r.deviceId].deviceId, r.proof.value, r.check, r.clock.verified, r.clock.consumed);
  }

  lemma SparedProofStays(s: System, cfg: Deployment, a: Action, d: Text, at: Instant)
    requires WellKeyed(s.registry) && Spares(s, cfg, a, d, at)
    requires d in s.proofs && s.proofs[d].verifiedAt == Some(at)
    ensures var after := Act(s, cfg, a).proofs; d in after && after[d] == s.proofs[d]
  {
    hide Decide, ProofStep, Proves, WellKeyed, IssueNonce, Upsert, ResetIn;
    if a.Decided? {
      DecideLeaves(s, cfg, a.request);
      StepSpares(s, cfg, a.request, d, at);
    }
  }

  lemma VerifiedProofIsStored(s: System, cfg: Deployment, r: Request)
    requires WellKeyed(s.registry) && Proves(s, r)
    ensures var after := Act(s, cfg, Decided(r)).proofs;
      r.deviceId in after && after[r.deviceId].valid && after[r.deviceId].verifiedAt == Some(r.clock.verified)
  {
    hide Decide, VerifyProof, Counters.AddFailure;
    DecideLeaves(s, cfg, r);
    VerifyMeans(s.nonces, s.registry[r.deviceId].deviceId, r.proof.value, r.check, r.clock.verified, r.clock.consumed);
  }

  ghost predicate AllSpare(s: System, cfg: Deployment, actions: seq<Action>, i: nat, n: nat, d: Text, at: Instant) {
    n <= |actions| && forall k: nat | i < k < n :: Spares(ActAll(s, cfg, actions[..k]), cfg, actions[k], d, at)
  }

  lemma {:induction false} ProofStaysStored(s: System, cfg: Deployment, actions: seq<Action>, i: nat, n: nat, d: Text)
    requires i < n <= |actions| && WellKeyed(s.registry) && forall k | 0 <= k < |actions| :: KeepsKeys(actions[k])
    requires ProvedAt(s, cfg, actions, i, d)
    requires AllSpare(s, cfg, actions, i, n, d, actions[i].request.clock.verified)
    ensures var proofs := ActAll(s, cfg, actions[..n]).proofs;
      d in proofs && proofs[d].valid && proofs[d].verifiedAt == Some(actions[i].request.clock.verified)
    decreases n
  {
    hide ActAll, Act, Proves, Spares, WellKeyed, KeepsKeys;
    var at := actions[i].request.clock.verified;
    assert actions[..n][..n - 1] == actions[..n - 1];
    ActAllStep(s, cfg, actions[..n]);
    KeysKept(s, cfg, actions, n - 1, d);
    var before := ActAll(s, cfg, actions[..n - 1]);
    if i == n - 1 {
      VerifiedProofIsStored(before, cfg, actions[i].request);
    } else {
      ProofStaysStored(s, cfg, actions, i, n - 1, d);
      SparedProofStays(before, cfg, actions[n - 1], d, at);
    }
  }

  /** Over any run, the other half of what trust rests on: a proof that verified serves its device, with no new proof,
      at every later request up to its lifetime and at none after it, as long as nothing replaces or invalidates it or
      asks for it too late in between. */
  lemma ProofServes(s: System, cfg: Deployment, actions: seq<Action>, i: nat, r: Request)
    requires i < |actions| && WellKeyed(s.registry) && forall k | 0 <= k < |actions| :: KeepsKeys(actions[k])
    requires ProvedAt(s, cfg, actions, i, r.deviceId) && r.proof.None?
    requires AllSpare(s, cfg, actions, i, |actions|, r.deviceId, actions[i].request.clock.verified)
    requires r.deviceId in ActAll(s, cfg, actions).registry
    ensures var at := actions[i].request.clock.verified;
      var pop := Gather(ActAll(s, cfg, actions), cfg, r).2.pop;
      && (pop.Some? <==> Now(r) - at <= cfg.proofTtl)
      && (pop.Some? ==> pop.value.valid && pop.value.verifiedAt == Some(at))
  {
    hide ActAll, Gather, ProvedAt, AllSpare, WellKeyed, KeepsKeys;
    assert actions[..|actions|] == actions;
    ProofStaysStored(s, cfg, actions, i, |actions|, r.deviceId);
    GatherParts(ActAll(s, cfg, actions), cfg, r);
  }

  // -- what a decision leaves behind --------------------------------------------------------

  /** How many of the first n actions were decisions for the device at an address taken by another. */
  function ConflictsOf(s: System, cfg: Deployment, actions: seq<Action>, n: nat, d: Text): nat
    requires n <= |actions|
  {
    if n == 0 then 0
    else
      var a := actions[n - 1];
      ConflictsOf(s, cfg, actions, n - 1, d) +
      if a.Decided? && a.request.deviceId == d && Taken(ActAll(s, cfg, actions[..n - 1]), a.request) then 1 else 0
  }

  lemma DecideConflicts(s: System, cfg: Deployment, r: Request, d: Text)
    ensures var before, after := s.conflicts, Decide(s, cfg, r).0.conflicts;
      (if d in after then after[d] else 0)
        == (if d in before then before[d] else 0) + if d == r.deviceId && Taken(s, r) then 1 else 0
    ensures Decide(s, cfg, r).0.states == s.states[r.deviceId := Decide(s, cfg, r).1.trustState]
  {
    hide ProofStep, TransitionStep, CountStep, IsRecent, Derive, Resolve;
    var (proved, _) := ProofStep(s, cfg, r);
    var (moved, _) := TransitionStep(proved, cfg, r);
    var (claimed, _, _) := ClaimStep(moved, r);
    StepsLeave(s, cfg, r);
    StepsLeave(proved, cfg, r);
    StepsLeave(moved, cfg, r);
    StepsLeave(claimed, cfg, r);
  }

  lemma OthersConflicts(s: System, cfg: Deployment, a: Action)
    requires !a.Decided?
    ensures Act(s, cfg, a).conflicts == s.conflicts && Act(s, cfg, a).states == s.states
  {
    hide Decide, IssueNonce, Upsert, ResetIn;
  }

  /** Over every run: a device's conflict counter is the number of its decisions at addresses taken by others. */
  lemma {:induction false} ConflictsCounted(s: System, cfg: Deployment, actions: seq<Action>, n: nat, d: Text)
    requires n <= |actions| && s.conflicts == map[]
    ensures var conflicts := ActAll(s, cfg, actions[..n]).conflicts;
      (if d in conflicts then conflicts[d] else 0) == ConflictsOf(s, cfg, actions, n, d)
    decreases n
  {
    hide Act, Decide, Taken;
    if n > 0 {
      ConflictsCounted(s, cfg, actions, n - 1, d);
      assert actions[..n][..n - 1] == actions[..n - 1];
      ActAllStep(s, cfg, actions[..n]);
      ActConflicts(ActAll(s, cfg, actions[..n - 1]), cfg, actions[n - 1], d);
    }
  }

  lemma ActConflicts(s: System, cfg: Deployment, a: Action, d: Text)
    ensures var before, after := s.conflicts, Act(s, cfg, a).conflicts;
      (if d in after then after[d] else 0)
        == (if d in before then before[d] else 0)
           + if a.Decided? && a.request.deviceId == d && Taken(s, a.request) then 1 else 0
  {
    hide Decide, Taken, IssueNonce, Upsert, ResetIn;
    if a.Decided? {
      DecideConflicts(s, cfg, a.request, d);
    } else {
      OthersConflicts(s, cfg, a);
    }
  }
}
