/** The vocabulary of decisions (policy/models.py, trust_engine/states.py, collectors/transition.py). */
module Policy {
  import opened Base
  import opened Topics

  datatype TrustState = UNKNOWN | STABLE | TRANSITIONAL | DEGRADED | SUSPICIOUS | UNTRUSTED

  datatype TransitionContext = NONE | NR_TO_WLAN | WLAN_TO_NR | INTRA | REPEATED

  datatype PolicyAction =
    ALLOW | ALLOW_WITH_RESTRICTIONS | STEP_UP_AUTHENTICATION | REAUTHENTICATE | QUARANTINE | DENY

  /** `TERMINATING_ACTIONS`, and the gateway's `REFUSING_ACTIONS`. */
  predicate Terminating(action: PolicyAction) {
    action == REAUTHENTICATE || action == DENY
  }

  /** The fields of a decision that enforcement reads. */
  datatype Decision = Decision(
    id: nat, deviceId: Text, trustState: TrustState, context: TransitionContext,
    action: PolicyAction, scope: AccessScope, ttlMs: int, createdAt: Instant)

  /** `_is_expired` and `_decision_expired`. */
  predicate Expired(decision: Decision, now: Instant) {
    decision.ttlMs <= 0 || now > decision.createdAt + decision.ttlMs * MICROS_PER_MS
  }

  /** It has a lifetime, and was made no longer ago than that. */
  ghost predicate InTime(decision: Decision, now: Instant) {
    0 < decision.ttlMs && now - decision.createdAt <= 1_000 * decision.ttlMs
  }

  lemma ExpiredIff(decision: Decision, now: Instant)
    ensures Expired(decision, now) <==> !InTime(decision, now)
  {}

  // -- evaluating a topic against a scope -----------------------------------------

  datatype ScopeVerdict = DeniedBy(pattern: Text) | Allowed | NotInScope

  function FirstMatch(patterns: seq<Text>, topic: Text): (r: Option<Text>)
    ensures r.Some? <==> AnyMatches(patterns, topic)
    ensures r.Some? ==> r.value in patterns && TopicMatches(r.value, topic)
  {
    if patterns == [] then None
    else if TopicMatches(patterns[0], topic) then Some(patterns[0])
    else
      assert AnyMatches(patterns, topic) ==> AnyMatches(patterns[1..], topic) by {
        if AnyMatches(patterns, topic) {
          var i :| 0 <= i < |patterns| && TopicMatches(patterns[i], topic);
          assert patterns[1..][i - 1] == patterns[i];
        }
      }
      assert AnyMatches(patterns[1..], topic) ==> AnyMatches(patterns, topic) by {
        if AnyMatches(patterns[1..], topic) {
          var i :| 0 <= i < |patterns[1..]| && TopicMatches(patterns[1..][i], topic);
          assert patterns[i + 1] == patterns[1..][i];
        }
      }
      FirstMatch(patterns[1..], topic)
  }

  /** It is the first of them that does. */
  lemma {:induction false} FirstMatchIsFirst(patterns: seq<Text>, topic: Text, i: nat)
    requires i < |patterns| && TopicMatches(patterns[i], topic)
    requires forall j | 0 <= j < i :: !TopicMatches(patterns[j], topic)
    ensures FirstMatch(patterns, topic) == Some(patterns[i])
  {
    if i > 0 {
      assert forall j | 0 <= j < i - 1 :: patterns[1..][j] == patterns[j + 1];
      FirstMatchIsFirst(patterns[1..], topic, i - 1);
    }
  }

  function ScopeVerdictOf(scope: AccessScope, topic: Text): (v: ScopeVerdict)
    ensures v.Allowed? <==> ScopePermits(scope, topic)
    ensures v.DeniedBy? <==> AnyMatches(scope.deny, topic)
  {
    var denied := FirstMatch(scope.deny, topic);
    if denied.Some? then DeniedBy(denied.value)
    else if FirstMatch(scope.allow, topic).Some? then Allowed
    else NotInScope
  }

  /** The first pattern that matches, by the loop both enforcement points run over `deny` and over `allow`. */
  method FindMatch(patterns: seq<Text>, topic: Text) returns (r: Option<Text>)
    ensures r == FirstMatch(patterns, topic)
  {
    for i := 0 to |patterns|
      invariant FirstMatch(patterns, topic) == FirstMatch(patterns[i..], topic)
    {
      if TopicMatches(patterns[i], topic) {
        return Some(patterns[i]);
      }
      assert patterns[i..][1..] == patterns[i + 1..];
    }
    r := None;
  }

  /** `scope_permits`: deny wins, the default is deny. */
  method EvaluateScope(scope: AccessScope, topic: Text) returns (v: ScopeVerdict)
    ensures v == ScopeVerdictOf(scope, topic)
  {
    var denied := FindMatch(scope.deny, topic);
    if denied.Some? {
      return DeniedBy(denied.value);
    }
    var allowed := FindMatch(scope.allow, topic);
    v := if allowed.Some? then Allowed else NotInScope;
  }
}
