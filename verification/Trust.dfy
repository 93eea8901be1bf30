/** From evidence to a trust state: posture and evidence assembly (evidence/assembler.py), the predicates C1-C11
    (evidence/predicates.py), the ordered rules and the per-device state history (trust_engine/engine.py). */
module Trust {
  import opened Base
  import opened Policy
  import opened Bindings
  import opened Identity

  // -- settings -------------------------------------------------------------

  datatype NrPosture = NrPosture(
    allowedGnbIds: seq<string>, allowedDnns: seq<string>, allowedRatTypes: seq<string>,
    requiredRegistrationStates: seq<string>, requireActivePduSession: bool)

  datatype WlanPosture = WlanPosture(
    allowedSsids: seq<string>, allowedBssids: seq<string>, allowedAkms: seq<string>, requireEapSuccess: bool)

  /** Durations in microseconds. */
  datatype Settings = Settings(
    popTtl: int, bindingFreshnessMax: int, maxTransitions: nat, maxAuthnFailures: nat, nr: NrPosture, wlan: WlanPosture)

  // -- posture --------------------------------------------------------------

  datatype PostureReason =
    | NoBinding | RegistrationStateNotAllowed | NoActivePduSession | RatTypeNotAllowed | GnbNotAllowed | DnnNotAllowed
    | EapNotSuccessful | AkmNotAllowed | SsidNotAllowed | BssidNotAllowed | PostureOk

  datatype PostureOutcome = PostureOutcome(ok: bool, reason: PostureReason, unauthorized: bool)

  /** `attrs.get(name) == value`. */
  predicate AttributeIs(attributes: map<string, string>, name: string, value: string) {
    name in attributes && attributes[name] == value
  }

  /** An empty allow-list constrains nothing. */
  predicate Permitted(attributes: map<string, string>, name: string, allowed: seq<string>) {
    allowed == [] || (name in attributes && attributes[name] in allowed)
  }

  /** `evaluate_posture`. */
  function EvaluatePosture(binding: Option<Binding>, cfg: Settings): PostureOutcome {
    if binding.None? then PostureOutcome(false, NoBinding, false)
    else
      var a := binding.value.attributes;
      if binding.value.domain == NR then
        if !Permitted(a, "registration_state", cfg.nr.requiredRegistrationStates)
        then PostureOutcome(false, RegistrationStateNotAllowed, true)
        else if cfg.nr.requireActivePduSession && !AttributeIs(a, "pdu_session_active", "true")
        then PostureOutcome(false, NoActivePduSession, false)
        else if !Permitted(a, "rat_type", cfg.nr.allowedRatTypes) then PostureOutcome(false, RatTypeNotAllowed, true)
        else if !Permitted(a, "gnb_id", cfg.nr.allowedGnbIds) then PostureOutcome(false, GnbNotAllowed, true)
        else if !Permitted(a, "dnn", cfg.nr.allowedDnns) then PostureOutcome(false, DnnNotAllowed, true)
        else PostureOutcome(true, PostureOk, false)
      else
        if cfg.wlan.requireEapSuccess && !AttributeIs(a, "eap_success", "true")
        then PostureOutcome(false, EapNotSuccessful, false)
        else if !Permitted(a, "akm", cfg.wlan.allowedAkms) then PostureOutcome(false, AkmNotAllowed, true)
        else if !Permitted(a, "ssid", cfg.wlan.allowedSsids) then PostureOutcome(false, SsidNotAllowed, true)
        else if !Permitted(a, "ap_bssid", cfg.wlan.allowedBssids) then PostureOutcome(false, BssidNotAllowed, true)
        else PostureOutcome(true, PostureOk, false)
  }

  // -- what posture accepts -------------------------------------------------

  /** One constraint on an attribute: it must be in an allow-list, or a flag must read "true" when it is demanded. */
  datatype Check =
    | Listed(attribute: string, allowed: seq<string>, refusal: PostureReason)
    | Flagged(attribute: string, demanded: bool, refusal: PostureReason)

  /** The constraints of a domain, in the order in which they give the reason. */
  function ChecksOf(domain: AccessDomain, cfg: Settings): seq<Check> {
    match domain
    case NR =>
      [ Listed("registration_state", cfg.nr.requiredRegistrationStates, RegistrationStateNotAllowed),
        Flagged("pdu_session_active", cfg.nr.requireActivePduSession, NoActivePduSession),
        Listed("rat_type", cfg.nr.allowedRatTypes, RatTypeNotAllowed),
        Listed("gnb_id", cfg.nr.allowedGnbIds, GnbNotAllowed),
        Listed("dnn", cfg.nr.allowedDnns, DnnNotAllowed) ]
    case WLAN =>
      [ Flagged("eap_success", cfg.wlan.requireEapSuccess, EapNotSuccessful),
        Listed("akm", cfg.wlan.allowedAkms, AkmNotAllowed),
        Listed("ssid", cfg.wlan.allowedSsids, SsidNotAllowed),
        Listed("ap_bssid", cfg.wlan.allowedBssids, BssidNotAllowed) ]
  }

  /** A nonempty allow-list must hold the attribute's value at some place; a missing attribute is in no list. */
  ghost predicate Meets(attributes: map<string, string>, c: Check) {
    match c
    case Listed(name, allowed, _) =>
      |allowed| > 0 ==> name in attributes && exists i | 0 <= i < |allowed| :: allowed[i] == attributes[name]
    case Flagged(name, demanded, _) => demanded ==> name in attributes && attributes[name] == "true"
  }

  lemma MeetsIs(attributes: map<string, string>, c: Check)
    ensures Meets(attributes, c) <==>
      match c
      case Listed(name, allowed, _) => Permitted(attributes, name, allowed)
      case Flagged(name, demanded, _) => !demanded || AttributeIs(attributes, name, "true")
  {}

  /** A binding is accepted exactly when it meets every constraint of its domain; otherwise the first one it does not
      meet names the reason, and a value outside its list, unlike a flag, makes the access unauthorised. */
  lemma PostureMeans(b: Binding, cfg: Settings)
    ensures var checks, outcome := ChecksOf(b.domain, cfg), EvaluatePosture(Some(b), cfg);
      && (outcome.ok <==> forall k | 0 <= k < |checks| :: Meets(b.attributes, checks[k]))
      && (outcome.ok ==> outcome.reason == PostureOk && !outcome.unauthorized)
      && forall k | 0 <= k < |checks| && !Meets(b.attributes, checks[k]) ::
           (forall j | 0 <= j < k :: Meets(b.attributes, checks[j])) ==>
             outcome == PostureOutcome(false, checks[k].refusal, checks[k].Listed?)
  {
    hide Permitted, AttributeIs, Meets;
    var checks := ChecksOf(b.domain, cfg);
    MeetsIs(b.attributes, checks[0]);
    MeetsIs(b.attributes, checks[1]);
    MeetsIs(b.attributes, checks[2]);
    MeetsIs(b.attributes, checks[3]);
    if b.domain == NR {
      MeetsIs(b.attributes, checks[4]);
    }
  }

  // -- evidence -------------------------------------------------------------

  datatype Inputs = Inputs(
    identity: Option<DeviceIdentity>, pop: Option<PoPResult>, binding: Option<Binding>, bindingConsistent: bool,
    transitionRecent: bool, transitionsInWindow: nat, authnFailures: nat, sessionConsistent: bool, now: Instant)

  /** The items of an evidence record that the predicates read. */
  datatype Evidence = Evidence(
    identityRegistered: bool, identityEnabled: bool, popValid: bool,
    bindingPresent: bool, bindingFresh: bool, bindingConsistent: bool,
    transitionDetected: bool, transitionCount: nat, authnFailureCount: nat, sessionMismatch: bool, postureOk: bool)

  /** `is_fresh`: an observation in the future has age 0, and the bound is inclusive. */
  predicate IsFresh(observedAt: Instant, now: Instant, ttl: int) {
    (if now > observedAt then now - observedAt else 0) <= ttl
  }

  /** `assemble`. */
  function Assemble(i: Inputs, cfg: Settings): Evidence {
    Evidence(
      i.identity.Some?,
      i.identity.Some? && i.identity.value.status == ACTIVE,
      (&& i.pop.Some? && i.pop.value.valid && i.pop.value.verifiedAt.Some?
       && IsFresh(i.pop.value.verifiedAt.value, i.now, cfg.popTtl)),
      i.binding.Some?,
      (&& i.binding.Some? && IsFresh(i.binding.value.lastSeen, i.now, cfg.bindingFreshnessMax)
       && !i.binding.value.IsExpired(i.now)),
      i.bindingConsistent, i.transitionRecent, i.transitionsInWindow, i.authnFailures, !i.sessionConsistent,
      EvaluatePosture(i.binding, cfg).ok)
  }

  // -- predicates -----------------------------------------------------------

  datatype IdentityVerdict = NotRegistered | NotEnabled | IdentityValid

  /** C1-C11; C1 keeps its reason because rule R0 reads it. */
  datatype PredicateVector = PredicateVector(
    c1: IdentityVerdict, c2: bool, c3: bool, c4: bool, c5: bool, c6: bool, c7: bool, c8: bool, c9: bool, c10: bool,
    c11: bool)

  /** `PredicateEvaluator.evaluate`. */
  function Evaluate(e: Evidence, cfg: Settings): PredicateVector {
    PredicateVector(
      if !e.identityRegistered then NotRegistered else if !e.identityEnabled then NotEnabled else IdentityValid,
      e.popValid, e.bindingPresent, e.bindingFresh, e.bindingConsistent,
      !e.transitionDetected, e.transitionDetected,
      e.transitionCount <= cfg.maxTransitions, e.authnFailureCount <= cfg.maxAuthnFailures,
      !e.sessionMismatch, e.postureOk)
  }

  // -- rules ----------------------------------------------------------------

  datatype TrustRule = TrustRule(state: TrustState, condition: PredicateVector -> bool)

  /** `RULES`: R0 to R5, in order. */
  function Rules(): seq<TrustRule> {
    [ TrustRule(UNKNOWN, (v: PredicateVector) => v.c1 == NotRegistered),
      TrustRule(UNTRUSTED, (v: PredicateVector) => v.c1 != IdentityValid || !v.c5),
      TrustRule(SUSPICIOUS, (v: PredicateVector) => !v.c8 || !v.c9 || !v.c10 || (v.c3 && !v.c11)),
      TrustRule(DEGRADED, (v: PredicateVector) => !v.c3 || !v.c4 || !v.c2),
      TrustRule(TRANSITIONAL, (v: PredicateVector) => v.c7),
      TrustRule(STABLE, (v: PredicateVector) => true) ]
  }

  /** What each state means, without an order of rules. */
  ghost predicate Means(state: TrustState, v: PredicateVector) {
    var contradicted := !v.c8 || !v.c9 || !v.c10 || (v.c3 && !v.c11);
    var identified := v.c1 == IdentityValid && v.c5;
    var evidenced := v.c2 && v.c3 && v.c4;
    match state
    case UNKNOWN => v.c1 == NotRegistered
    case UNTRUSTED => v.c1 == NotEnabled || (v.c1 == IdentityValid && !v.c5)
    case SUSPICIOUS => identified && contradicted
    case DEGRADED => identified && !contradicted && !evidenced
    case TRANSITIONAL => identified && !contradicted && evidenced && v.c7
    case STABLE => identified && !contradicted && evidenced && !v.c7
  }

  function FirstMatch(rules: seq<TrustRule>, v: PredicateVector): Option<TrustState> {
    if rules == [] then None
    else if rules[0].condition(v) then Some(rules[0].state)
    else FirstMatch(rules[1..], v)
  }

  function StateOf(v: PredicateVector): TrustState {
    match FirstMatch(Rules(), v) case Some(s) => s case None => STABLE
  }

  /** The loop of `TrustEngine.evaluate`. */
  method EvaluateRules(v: PredicateVector) returns (state: TrustState)
    ensures state == StateOf(v)
  {
    var rules := Rules();
    state := rules[|rules| - 1].state;
    for i := 0 to |rules|
      invariant FirstMatch(rules, v) == FirstMatch(rules[i..], v)
      invariant state == STABLE
    {
      if rules[i].condition(v) {
        return rules[i].state;
      }
      assert rules[i..][1..] == rules[i + 1..];
    }
  }

  /** The six states partition the predicate vectors: the ordered rules pick the one state whose meaning holds. */
  lemma StateOfMeans(v: PredicateVector, state: TrustState)
    ensures StateOf(v) == state <==> Means(state, v)
  {
    hide FirstMatch;
    var rules := Rules();
    RuleApplies(rules, 5, v);
    RuleApplies(rules, 4, v);
    RuleApplies(rules, 3, v);
    RuleApplies(rules, 2, v);
    RuleApplies(rules, 1, v);
    RuleApplies(rules, 0, v);
    assert rules[0..] == rules;
  }

  lemma RuleApplies(rules: seq<TrustRule>, i: nat, v: PredicateVector)
    requires i < |rules|
    ensures FirstMatch(rules[i..], v)
      == if rules[i].condition(v) then Some(rules[i].state) else FirstMatch(rules[i + 1..], v)
  {
    assert rules[i..][1..] == rules[i + 1..];
  }

  /** The state assembled inputs lead to. */
  function Derive(i: Inputs, cfg: Settings): TrustState {
    StateOf(Evaluate(Assemble(i, cfg), cfg))
  }

  /** The registry knows the device, it is active, and the address is not another device's. */
  ghost predicate Identified(i: Inputs) {
    i.identity.Some? && i.identity.value.status == ACTIVE && i.bindingConsistent
  }

  /** Too many transitions or failed proofs, a foreign session, or a binding that misses some constraint. */
  ghost predicate Contradicted(i: Inputs, cfg: Settings) {
    || i.transitionsInWindow > cfg.maxTransitions || i.authnFailures > cfg.maxAuthnFailures || !i.sessionConsistent
    || (i.binding.Some? && Misses(i.binding.value, cfg))
  }

  ghost predicate Misses(b: Binding, cfg: Settings) {
    exists k | 0 <= k < |ChecksOf(b.domain, cfg)| :: !Meets(b.attributes, ChecksOf(b.domain, cfg)[k])
  }

  /** Seen no longer ago than the bound, and not past its own expiry. */
  ghost predicate Recent(b: Binding, now: Instant, cfg: Settings) {
    && 0 <= cfg.bindingFreshnessMax && now - b.lastSeen <= cfg.bindingFreshnessMax
    && (b.expiresAt.Some? ==> now <= b.expiresAt.value)
  }

  /** A verified proof within its lifetime, and a recent binding. */
  ghost predicate Evidenced(i: Inputs, cfg: Settings) {
    && i.pop.Some? && i.pop.value.valid && i.pop.value.verifiedAt.Some?
    && 0 <= cfg.popTtl && i.now - i.pop.value.verifiedAt.value <= cfg.popTtl
    && i.binding.Some? && Recent(i.binding.value, i.now, cfg)
  }

  /** Each state, from what was gathered alone. */
  ghost predicate Earns(i: Inputs, cfg: Settings, state: TrustState) {
    match state
    case UNKNOWN => i.identity.None?
    case UNTRUSTED => i.identity.Some? && !Identified(i)
    case SUSPICIOUS => Identified(i) && Contradicted(i, cfg)
    case DEGRADED => Identified(i) && !Contradicted(i, cfg) && !Evidenced(i, cfg)
    case TRANSITIONAL => Identified(i) && !Contradicted(i, cfg) && Evidenced(i, cfg) && i.transitionRecent
    case STABLE => Identified(i) && !Contradicted(i, cfg) && Evidenced(i, cfg) && !i.transitionRecent
  }

  /** Evidence assembly, predicates and rules together: the state derived is the one the inputs earn. In particular an
      attribute outside its list makes an identified device SUSPICIOUS, however good the rest of the evidence is. */
  lemma DerivedStateMeans(i: Inputs, cfg: Settings, state: TrustState)
    ensures Derive(i, cfg) == state <==> Earns(i, cfg, state)
  {
    hide EvaluatePosture, StateOf, ChecksOf, Meets;
    if i.binding.Some? { PostureMeans(i.binding.value, cfg); }
    StateOfMeans(Evaluate(Assemble(i, cfg), cfg), state);
  }

  // -- more evidence ----------------------------------------------------------

  /** From no identity at all up to full trust. */
  function Rank(s: TrustState): nat {
    match s
    case UNKNOWN => 0
    case UNTRUSTED => 1
    case SUSPICIOUS => 2
    case DEGRADED => 3
    case TRANSITIONAL => 4
    case STABLE => 5
  }

  ghost predicate ProofNoOlder(a: Option<PoPResult>, b: Option<PoPResult>) {
    a.Some? && a.value.valid && a.value.verifiedAt.Some? ==>
      b.Some? && b.value.valid && b.value.verifiedAt.Some? && b.value.verifiedAt.value >= a.value.verifiedAt.value
  }

  ghost predicate BindingNoWorse(a: Binding, b: Binding, cfg: Settings) {
    && a.lastSeen <= b.lastSeen
    && (b.expiresAt.Some? ==> a.expiresAt.Some? && a.expiresAt.value <= b.expiresAt.value)
    && (EvaluatePosture(Some(a), cfg).ok ==> EvaluatePosture(Some(b), cfg).ok)
  }

  /** Everything but the binding is at least as good. */
  ghost predicate RestNoWorse(a: Inputs, b: Inputs) {
    && a.now == b.now
    && (a.identity.Some? ==> b.identity.Some?)
    && (a.identity.Some? && a.identity.value.status == ACTIVE ==> b.identity.value.status == ACTIVE)
    && ProofNoOlder(a.pop, b.pop)
    && (a.bindingConsistent ==> b.bindingConsistent)
    && (b.transitionRecent ==> a.transitionRecent)
    && b.transitionsInWindow <= a.transitionsInWindow
    && b.authnFailures <= a.authnFailures
    && (a.sessionConsistent ==> b.sessionConsistent)
  }

  lemma RankOf(v: PredicateVector)
    ensures Means(StateOf(v), v)
  {
    StateOfMeans(v, StateOf(v));
  }

  /** Holding the presence of a binding fixed, better evidence of any kind never gives a worse state. */
  lemma BetterEvidenceNeverHurts(a: Inputs, b: Inputs, cfg: Settings)
    requires RestNoWorse(a, b) && a.binding.Some? == b.binding.Some?
    requires a.binding.Some? ==> BindingNoWorse(a.binding.value, b.binding.value, cfg)
    ensures Rank(Derive(a, cfg)) <= Rank(Derive(b, cfg))
  {
    hide EvaluatePosture, StateOf;
    RankOf(Evaluate(Assemble(a, cfg), cfg));
    RankOf(Evaluate(Assemble(b, cfg), cfg));
  }

  /** Without a binding a device is never above DEGRADED. */
  lemma NoBindingIsAtMostDegraded(i: Inputs, cfg: Settings)
    requires i.binding.None?
    ensures Rank(Derive(i, cfg)) <= Rank(DEGRADED)
  {
    hide EvaluatePosture, StateOf;
    RankOf(Evaluate(Assemble(i, cfg), cfg));
  }

  /** Gaining a binding worsens the state in exactly one case: a DEGRADED device whose new binding fails posture. */
  lemma GainingABinding(a: Inputs, b: Inputs, cfg: Settings)
    requires RestNoWorse(a, b) && a.binding.None? && b.binding.Some?
    ensures Rank(Derive(b, cfg)) < Rank(Derive(a, cfg))
       <==> Derive(a, cfg) == DEGRADED && !EvaluatePosture(b.binding, cfg).ok
  {
    hide EvaluatePosture, StateOf;
    RankOf(Evaluate(Assemble(a, cfg), cfg));
    RankOf(Evaluate(Assemble(b, cfg), cfg));
  }

  // -- the state manager ----------------------------------------------------------

  /** One recorded outcome. */
  datatype Entry = Entry(at: Instant, state: TrustState)

  datatype Outcome = Outcome(deviceId: Text, entry: Entry)

  function EntriesOf(log: seq<Outcome>, deviceId: Text): seq<Entry> {
    if log == [] then []
    else
      EntriesOf(log[..|log| - 1], deviceId)
      + if log[|log| - 1].deviceId == deviceId then [log[|log| - 1].entry] else []
  }

  /** When the last unbroken stretch of one state began. */
  function Since(entries: seq<Entry>): Instant
    requires entries != []
  {
    var n := |entries| - 1;
    if n > 0 && entries[n - 1].state == entries[n].state then Since(entries[..n]) else entries[n].at
  }

  function Latest(entries: seq<Entry>, limit: nat): seq<Entry> {
    if |entries| <= limit then entries else entries[|entries| - limit..]
  }

  /** The three dictionaries hold, for this device, its last state, the start of its current stretch, and the last
      entries of its history. */
  ghost predicate Reflects(current: map<Text, TrustState>, enteredAt: map<Text, Instant>,
                           history: map<Text, seq<Entry>>, log: seq<Outcome>, limit: nat, deviceId: Text)
  {
    var entries := EntriesOf(log, deviceId);
    if entries == [] then deviceId !in current && deviceId !in enteredAt && deviceId !in history
    else
      && deviceId in current && current[deviceId] == entries[|entries| - 1].state
      && deviceId in enteredAt && enteredAt[deviceId] == Since(entries)
      && deviceId in history && history[deviceId] == Latest(entries, limit)
  }

  class TrustStateManager {
    const limit: nat
    var current: map<Text, TrustState>
    var enteredAt: map<Text, Instant>
    var history: map<Text, seq<Entry>>
    ghost var log: seq<Outcome>

    ghost predicate Valid()
      reads this
    {
      forall d :: Reflects(current, enteredAt, history, log, limit, d)
    }

    constructor (limit: nat)
      ensures Valid() && log == [] && current == map[] && this.limit == limit
    {
      this.limit := limit;
      current, enteredAt, history, log := map[], map[], map[], [];
    }

    /** `record`; returns the state held before. */
    method Record(deviceId: Text, state: TrustState, at: Instant) returns (previous: Option<TrustState>)
      requires Valid()
      modifies this
      ensures Valid() && log == old(log) + [Outcome(deviceId, Entry(at, state))]
      ensures current == old(current)[deviceId := state]
      ensures previous == if deviceId in old(current) then Some(old(current)[deviceId]) else None
    {
      hide Reflects;
      ghost var c, a, h, l := current, enteredAt, history, log;
      previous := if deviceId in current then Some(current[deviceId]) else None;
      current := current[deviceId := state];
      if previous != Some(state) {
        enteredAt := enteredAt[deviceId := at];
      }
      var kept := (if deviceId in history then history[deviceId] else []) + [Entry(at, state)];
      if |kept| > limit {
        kept := kept[|kept| - limit..];
      }
      history := history[deviceId := kept];
      log := log + [Outcome(deviceId, Entry(at, state))];
      AllReflect(c, a, h, l, limit, deviceId, Entry(at, state), enteredAt, kept, history);
    }
  }

  /** One record keeps every device's entries right. */
  lemma AllReflect(current: map<Text, TrustState>, enteredAt: map<Text, Instant>, history: map<Text, seq<Entry>>,
                   log: seq<Outcome>, limit: nat, deviceId: Text, e: Entry, entered: map<Text, Instant>,
                   kept: seq<Entry>, after: map<Text, seq<Entry>>)
    requires forall d :: Reflects(current, enteredAt, history, log, limit, d)
    requires entered ==
      if deviceId in current && current[deviceId] == e.state then enteredAt else enteredAt[deviceId := e.at]
    requires var grown := (if deviceId in history then history[deviceId] else []) + [e];
      kept == if |grown| > limit then grown[|grown| - limit..] else grown
    requires after == history[deviceId := kept]
    ensures var c, l := current[deviceId := e.state], log + [Outcome(deviceId, e)];
      forall d :: Reflects(c, entered, after, l, limit, d)
  {
    hide Reflects;
    var c, l := current[deviceId := e.state], log + [Outcome(deviceId, e)];
    forall d ensures Reflects(c, entered, after, l, limit, d) {
      assert Reflects(current, enteredAt, history, log, limit, d);
      if d == deviceId {
        OwnReflects(current, enteredAt, history, log, limit, deviceId, e, entered, kept, after);
      } else {
        OtherReflects(current, enteredAt, history, log, limit, d, Outcome(deviceId, e), c, entered, after);
      }
    }
  }

  lemma OwnReflects(current: map<Text, TrustState>, enteredAt: map<Text, Instant>, history: map<Text, seq<Entry>>,
                    log: seq<Outcome>, limit: nat, d: Text, e: Entry, entered: map<Text, Instant>,
                    kept: seq<Entry>, after: map<Text, seq<Entry>>)
    requires Reflects(current, enteredAt, history, log, limit, d)
    requires entered == if d in current && current[d] == e.state then enteredAt else enteredAt[d := e.at]
    requires var grown := (if d in history then history[d] else []) + [e];
      kept == if |grown| > limit then grown[|grown| - limit..] else grown
    requires after == history[d := kept]
    ensures Reflects(current[d := e.state], entered, after, log + [Outcome(d, e)], limit, d)
  {
    var entries := EntriesOf(log, d);
    EntriesGrow(log, Outcome(d, e), d);
    LatestGrows(entries, e, limit);
    SinceGrows(entries, e);
    assert entries == [] ==> Latest(entries, limit) == [];
  }

  lemma OtherReflects(current: map<Text, TrustState>, enteredAt: map<Text, Instant>, history: map<Text, seq<Entry>>,
                      log: seq<Outcome>,
                      limit: nat, d: Text, o: Outcome,
                      c: map<Text, TrustState>, a: map<Text, Instant>, h: map<Text, seq<Entry>>)
    requires Reflects(current, enteredAt, history, log, limit, d) && o.deviceId != d
    requires (d in c <==> d in current) && (d in current ==> c[d] == current[d])
    requires (d in a <==> d in enteredAt) && (d in enteredAt ==> a[d] == enteredAt[d])
    requires (d in h <==> d in history) && (d in history ==> h[d] == history[d])
    ensures Reflects(c, a, h, log + [o], limit, d)
  {
    EntriesGrow(log, o, d);
  }

  lemma EntriesGrow(log: seq<Outcome>, o: Outcome, deviceId: Text)
    ensures EntriesOf(log + [o], deviceId)
      == if o.deviceId == deviceId then EntriesOf(log, deviceId) + [o.entry] else EntriesOf(log, deviceId)
  {
    assert (log + [o])[..|log|] == log;
  }

  lemma LatestGrows(entries: seq<Entry>, e: Entry, limit: nat)
    ensures var kept := Latest(entries, limit) + [e];
      Latest(entries + [e], limit) == if |kept| > limit then kept[|kept| - limit..] else kept
  {}

  lemma SinceGrows(entries: seq<Entry>, e: Entry)
    ensures Since(entries + [e])
      == if entries != [] && entries[|entries| - 1].state == e.state then Since(entries) else e.at
  {
    assert (entries + [e])[..|entries|] == entries;
  }
}
