/** The transition-aware policy matrix (policy/matrix.py) and what its validation promises (config.py). */
module Matrix {
  import opened Base
  import opened Topics
  import opened Policy
  import Strategy
  import opened Decisions

  /** One rule; no contexts stands for the wildcard. */
  datatype Rule = Rule(state: TrustState, contexts: Option<set<TransitionContext>>, action: PolicyAction, scope: Text)

  datatype Table = Table(
    rules: seq<Rule>, defaultAction: PolicyAction, defaultScope: Text, scopes: map<Text, AccessScope>,
    ttlMs: map<PolicyAction, int>)

  datatype PolicyError = UndefinedScope(name: Text) | NoLifetime(action: PolicyAction)

  predicate Matches(rule: Rule, state: TrustState, context: TransitionContext) {
    rule.state == state && (rule.contexts.None? || context in rule.contexts.value)
  }

  /** What an action under a scope amounts to. */
  function EntryOf(t: Table, action: PolicyAction, scope: Text): Result<Strategy.PolicyEntry, PolicyError> {
    if scope !in t.scopes then Err(UndefinedScope(scope))
    else if action !in t.ttlMs then Err(NoLifetime(action))
    else Ok(Strategy.PolicyEntry(action, t.scopes[scope], t.ttlMs[action]))
  }

  function LookupFrom(t: Table, i: nat, state: TrustState, context: TransitionContext)
    : Result<Strategy.PolicyEntry, PolicyError>
    requires i <= |t.rules|
    decreases |t.rules| - i
  {
    if i == |t.rules| then EntryOf(t, t.defaultAction, t.defaultScope)
    else if Matches(t.rules[i], state, context) then EntryOf(t, t.rules[i].action, t.rules[i].scope)
    else LookupFrom(t, i + 1, state, context)
  }

  /** `lookup` and `ttl_ms`. */
  method Lookup(t: Table, state: TrustState, context: TransitionContext)
    returns (r: Result<Strategy.PolicyEntry, PolicyError>)
    ensures r == LookupFrom(t, 0, state, context)
  {
    for i := 0 to |t.rules|
      invariant LookupFrom(t, 0, state, context) == LookupFrom(t, i, state, context)
    {
      if Matches(t.rules[i], state, context) {
        return EntryOf(t, t.rules[i].action, t.rules[i].scope);
      }
    }
    r := EntryOf(t, t.defaultAction, t.defaultScope);
  }

  /** The first matching rule decides, and the default only where there is none. */
  lemma {:induction false} FirstRuleDecides(t: Table, from: nat, i: nat, state: TrustState, context: TransitionContext)
    requires from <= i <= |t.rules| && forall j | from <= j < i :: !Matches(t.rules[j], state, context)
    requires i < |t.rules| ==> Matches(t.rules[i], state, context)
    ensures LookupFrom(t, from, state, context)
         == if i < |t.rules| then EntryOf(t, t.rules[i].action, t.rules[i].scope)
            else EntryOf(t, t.defaultAction, t.defaultScope)
    decreases i - from
  {
    if from < i { FirstRuleDecides(t, from + 1, i, state, context); }
  }

  /** What `_cross_validate` checks: every scope named exists, and every rule's action has a lifetime. The default's
      action is not looked at. */
  predicate Validated(t: Table) {
    && t.defaultScope in t.scopes
    && forall i | 0 <= i < |t.rules| :: t.rules[i].scope in t.scopes && t.rules[i].action in t.ttlMs
  }

  ghost predicate HasRule(t: Table, state: TrustState, context: TransitionContext) {
    exists i | 0 <= i < |t.rules| :: Matches(t.rules[i], state, context)
  }

  /** Every state and context has a rule. */
  ghost predicate Covers(t: Table) {
    forall state, context :: HasRule(t, state, context)
  }

  lemma {:induction false} FindRule(t: Table, from: nat, state: TrustState, context: TransitionContext)
    returns (i: nat)
    requires from <= |t.rules|
    ensures from <= i <= |t.rules| && forall j | from <= j < i :: !Matches(t.rules[j], state, context)
    ensures i < |t.rules| ==> Matches(t.rules[i], state, context)
    decreases |t.rules| - from
  {
    i := from;
    if from < |t.rules| && !Matches(t.rules[from], state, context) {
      i := FindRule(t, from + 1, state, context);
    }
  }

  /** The matrix has an answer, rather than an error. */
  predicate Answers(t: Table, state: TrustState, context: TransitionContext) {
    LookupFrom(t, 0, state, context).Ok?
  }

  /** A validated matrix answers every state and context exactly when its rules cover them all or its default action has
      a lifetime, which validation leaves unchecked. */
  lemma AnswersAlwaysIff(t: Table)
    requires Validated(t)
    ensures (forall state, context :: Answers(t, state, context))
       <==> Covers(t) || t.defaultAction in t.ttlMs
  {
    forall state, context
      ensures Answers(t, state, context) <==> HasRule(t, state, context) || t.defaultAction in t.ttlMs
    {
      var i := FindRule(t, 0, state, context);
      FirstRuleDecides(t, 0, i, state, context);
    }
  }

  /** The matrix as decisions read it. */
  ghost predicate Realizes(t: Table, matrix: (TrustState, TransitionContext) -> Strategy.PolicyEntry) {
    forall state, context :: LookupFrom(t, 0, state, context) == Ok(matrix(state, context))
  }

  /** Where every configured scope allows only patterns that name the device at level k or are shared, so does every
      entry of the matrix, and devices are isolated in all that is decided under it. */
  lemma ScopesNameDevices(t: Table, matrix: (TrustState, TransitionContext) -> Strategy.PolicyEntry, k: nat,
                          shared: seq<Text>)
    requires Realizes(t, matrix) && forall name | name in t.scopes :: NamesOrShares(t.scopes[name], k, shared)
    ensures NamesDevices(matrix, k, shared)
  {
    hide NamesOrShares;
    forall state, context ensures NamesOrShares(matrix(state, context).scope, k, shared) {
      var i := FindRule(t, 0, state, context);
      FirstRuleDecides(t, 0, i, state, context);
      assert LookupFrom(t, 0, state, context) == Ok(matrix(state, context));
    }
  }
}
