/** What predicates C8 and C9 count, over whole runs of the system: the accepted transitions and the failed proofs of a
    device in the window that ends with its request (evidence/predicates.py, strategies/ca_ztcf.py). */
module Rates {
  import opened Base
  import opened Window
  import opened WindowRuns
  import opened Policy
  import opened Identity
  import Counters
  import opened Bindings
  import opened Transitions
  import opened Collector
  import opened Trust
  import opened Strategy

  // -- transitions ------------------------------------------------------------------

  /** What an action means for one device's track: its own decisions observe, ask for the context and count; a reset
      starts it afresh. */
  function GrowInputs(s: System, a: Action, before: seq<Input>, d: Text): seq<Input> {
    match a
    case Decided(r) =>
      if r.deviceId == d then before + [Offer(ObservationOf(s, r)), ContextAt(Now(r)), CountAt(Now(r))] else before
    case TransitionsReset(e) => if e == d then [] else before
    case _ => before
  }

  /** The device's track inputs over the first n actions of a run. */
  function InputsFor(s: System, cfg: Deployment, actions: seq<Action>, n: nat, d: Text): seq<Input>
    requires n <= |actions|
  {
    if n == 0 then []
    else
      GrowInputs(ActAll(s, cfg, actions[..n - 1]), actions[n - 1], InputsFor(s, cfg, actions, n - 1, d), d)
  }

  lemma DecideCollector(s: System, cfg: Deployment, r: Request)
    ensures Decide(s, cfg, r).0.collector
         == CountIn(ContextIn(ObserveIn(s.collector, cfg.transitions, r.deviceId, ObservationOf(s, r)),
                              cfg.transitions, r.deviceId, Now(r)),
                    cfg.transitions, r.deviceId, Now(r))
  {
    hide ObserveIn, ContextIn, CountIn, ContextFor, IsRecent, ProofStep, Claim, Derive, DecisionOf, EvidenceFor,
         Counters.PruneFailures;
    StepsLeave(s, cfg, r);
  }

  lemma ThreeMore(inputs: seq<Input>, cfg: Config, d: Text, o: Observation, at: Instant)
    ensures Transitions.Run(inputs + [Offer(o), ContextAt(at), CountAt(at)], cfg, d)
         == Counted(Contexted(Observe(Transitions.Run(inputs, cfg, d), cfg, d, o), cfg, at), cfg, at)
  {
    hide Observe, Contexted, Counted, Transitions.Run;
    RunGrows(inputs, Offer(o), cfg, d);
    RunGrows(inputs + [Offer(o)], ContextAt(at), cfg, d);
    RunGrows(inputs + [Offer(o)] + [ContextAt(at)], CountAt(at), cfg, d);
    assert inputs + [Offer(o), ContextAt(at), CountAt(at)] == inputs + [Offer(o)] + [ContextAt(at)] + [CountAt(at)];
  }

  /** One action's effect on one track is that of its inputs. */
  lemma ActTrack(s: System, cfg: Deployment, a: Action, inputs: seq<Input>, d: Text)
    requires TrackOf(s.collector, d) == Transitions.Run(inputs, cfg.transitions, d)
    ensures TrackOf(Act(s, cfg, a).collector, d) == Transitions.Run(GrowInputs(s, a, inputs, d), cfg.transitions, d)
  {
    hide Decide, Observe, Contexted, Counted, Transitions.Run, Upsert, IssueNonce, Reindex, VerdictOf, NewEvent;
    NoInputs(cfg.transitions, d);
    match a
    case Decided(r) =>
      DecideCollector(s, cfg, r);
      if r.deviceId == d {
        var observed := ObserveIn(s.collector, cfg.transitions, d, ObservationOf(s, r));
        ObserveAt(s.collector, cfg.transitions, d, ObservationOf(s, r));
        Strategy.ContextAt(observed, cfg.transitions, d, Now(r));
        Strategy.CountAt(ContextIn(observed, cfg.transitions, d, Now(r)), cfg.transitions, d, Now(r));
        ThreeMore(inputs, cfg.transitions, d, ObservationOf(s, r), Now(r));
      }
    case _ =>
  }

  lemma {:induction false} TrackIsRun(s: System, cfg: Deployment, actions: seq<Action>, n: nat, d: Text)
    requires n <= |actions| && s.collector == State(map[], map[])
    ensures TrackOf(ActAll(s, cfg, actions[..n]).collector, d)
         == Transitions.Run(InputsFor(s, cfg, actions, n, d), cfg.transitions, d)
    decreases n
  {
    hide Act, Transitions.Run, GrowInputs;
    if n == 0 {
      NoInputs(cfg.transitions, d);
    } else {
      TrackIsRun(s, cfg, actions, n - 1, d);
      assert actions[..n][..n - 1] == actions[..n - 1];
      ActAllStep(s, cfg, actions[..n]);
      ActTrack(ActAll(s, cfg, actions[..n - 1]), cfg, actions[n - 1], InputsFor(s, cfg, actions, n - 1, d), d);
    }
  }

  /** No decision the device took in the run named a later instant. Other devices may have named any. */
  ghost predicate OwnNotLater(actions: seq<Action>, d: Text, q: Instant) {
    forall k | 0 <= k < |actions| && actions[k].Decided? && actions[k].request.deviceId == d ::
      Now(actions[k].request) <= q
  }

  lemma {:induction false} InputsNotLater(s: System, cfg: Deployment, actions: seq<Action>, n: nat, d: Text, q: Instant)
    requires n <= |actions| && OwnNotLater(actions, d, q)
    ensures forall i | 0 <= i < |InputsFor(s, cfg, actions, n, d)| :: At(InputsFor(s, cfg, actions, n, d)[i]) <= q
    decreases n
  {
    hide ActAll;
    if n > 0 { InputsNotLater(s, cfg, actions, n - 1, d, q); }
  }

  /** The device's track inputs up to and including the observation of this request. */
  function OfferedTo(s: System, cfg: Deployment, actions: seq<Action>, r: Request): seq<Input> {
    InputsFor(s, cfg, actions, |actions|, r.deviceId) + [Offer(ObservationOf(ActAll(s, cfg, actions), r))]
  }

  /** The instants of the transitions accepted from the device since its last reset, this request's included. */
  function AcceptedTimes(s: System, cfg: Deployment, actions: seq<Action>, r: Request): seq<Instant> {
    TimesOf(Accepted(OfferedTo(s, cfg, actions, r), cfg.transitions, r.deviceId))
  }

  /** The count behind C8 is what a query about the request's instant finds after its own observation. */
  lemma CountedAfterOffer(s: System, cfg: Deployment, actions: seq<Action>, r: Request)
    requires s.collector == State(map[], map[])
    ensures Gather(ActAll(s, cfg, actions), cfg, r).2.transitionsInWindow
         == |Counted(Transitions.Run(OfferedTo(s, cfg, actions, r), cfg.transitions, r.deviceId), cfg.transitions,
                     Now(r)).history|
  {
    hide ActAll, Gather, Observe, Counted, IsRecent, ContextFor, Transitions.Run, InputsFor, ObservationOf;
    var now, d := ActAll(s, cfg, actions), r.deviceId;
    assert actions[..|actions|] == actions;
    TrackIsRun(s, cfg, actions, |actions|, d);
    GatheredTransition(now, cfg, r);
    RunGrows(InputsFor(s, cfg, actions, |actions|, d), Offer(ObservationOf(now, r)), cfg.transitions, d);
  }

  /** Over any run, the count behind C8 is the window's whenever the deque is exactly the window. */
  lemma CountedIsWindow(s: System, cfg: Deployment, actions: seq<Action>, r: Request)
    requires s.collector == State(map[], map[]) && cfg.transitions.rateWindow >= 0
    ensures WindowExact(OfferedTo(s, cfg, actions, r), cfg.transitions, r.deviceId, Now(r)) ==>
      Gather(ActAll(s, cfg, actions), cfg, r).2.transitionsInWindow
        == Count(AcceptedTimes(s, cfg, actions, r), Now(r) - cfg.transitions.rateWindow, Now(r))
  {
    hide ActAll, Gather, Counted, Transitions.Run, Accepted, WindowExact, Count, TimesOf, OfferedTo;
    CountedAfterOffer(s, cfg, actions, r);
    WindowIsExactIff(OfferedTo(s, cfg, actions, r), cfg.transitions, r.deviceId, Now(r));
  }

  /** Over any run, whatever instants other devices name: C8 fails exactly when the device's accepted transitions in the
      window that ends with the request exceed the limit, as long as the device itself has named no later instant. */
  lemma RateOkIff(s: System, cfg: Deployment, actions: seq<Action>, r: Request)
    requires s.collector == State(map[], map[]) && cfg.transitions.rateWindow >= 0
    requires OwnNotLater(actions, r.deviceId, Now(r))
    ensures var inputs := Gather(ActAll(s, cfg, actions), cfg, r).2;
      Evaluate(Assemble(inputs, cfg.settings), cfg.settings).c8
      <==> Count(AcceptedTimes(s, cfg, actions, r), Now(r) - cfg.transitions.rateWindow, Now(r))
             <= cfg.settings.maxTransitions
  {
    hide ActAll, Gather, WindowExact, Count, AcceptedTimes, EvaluatePosture;
    CountedIsWindow(s, cfg, actions, r);
    InputsNotLater(s, cfg, actions, |actions|, r.deviceId, Now(r));
    WindowIsExact(OfferedTo(s, cfg, actions, r), cfg.transitions, r.deviceId, Now(r));
  }

  // -- failed proofs ----------------------------------------------------------------

  /** A registered device presented a proof, and it did not verify. */
  predicate FailsProof(s: System, r: Request) {
    r.deviceId in s.registry && r.proof.Some? && !Proves(s, r)
  }

  /** What an action means for the failure counter. */
  function FailureEvents(s: System, a: Action): seq<Counters.Event> {
    match a
    case Decided(r) =>
      (if FailsProof(s, r) then [Counters.Failed(r.deviceId, Now(r))] else []) + [Counters.Asked(r.deviceId, Now(r))]
    case _ => []
  }

  function FailureLog(s: System, cfg: Deployment, actions: seq<Action>, n: nat): seq<Counters.Event>
    requires n <= |actions|
  {
    if n == 0 then []
    else FailureLog(s, cfg, actions, n - 1) + FailureEvents(ActAll(s, cfg, actions[..n - 1]), actions[n - 1])
  }

  lemma ProofStepFailures(s: System, cfg: Deployment, r: Request)
    ensures ProofStep(s, cfg, r).0.failures
         == if FailsProof(s, r) then Counters.AddFailure(s.failures, r.deviceId, Now(r), cfg.failureWindow)
            else s.failures
  {
    hide VerifyProof, Counters.AddFailure;
    if r.deviceId in s.registry && r.proof.Some? {
      VerifyMeans(s.nonces, s.registry[r.deviceId].deviceId, r.proof.value, r.check, r.clock.verified,
                  r.clock.consumed);
    }
  }

  lemma DecideFailures(s: System, cfg: Deployment, r: Request)
    ensures var after := Decide(s, cfg, r).0.failures;
      && after == Counters.PruneFailures(ProofStep(s, cfg, r).0.failures, r.deviceId, Now(r), cfg.failureWindow)
      && Gather(s, cfg, r).2.authnFailures == |Counters.Bucket(after, r.deviceId)|
  {
    hide Gather, ProofStep, Derive, DecisionOf, Counters.PruneFailures;
    GatherFailures(s, cfg, r);
  }

  lemma ActFailures(s: System, cfg: Deployment, a: Action, log: seq<Counters.Event>, d: Text)
    requires cfg.failureWindow >= 0 && Counters.DeviceHolds(s.failures, log, d, cfg.failureWindow)
    ensures Counters.DeviceHolds(Act(s, cfg, a).failures, log + FailureEvents(s, a), d, cfg.failureWindow)
  {
    hide Decide, ProofStep, Counters.DeviceHolds, Counters.AddFailure, Counters.PruneFailures, FailsProof, Upsert,
         IssueNonce, ResetIn;
    assert log + [] == log;
    match a
    case Decided(r) =>
      var failed, asked := Counters.Failed(r.deviceId, Now(r)), Counters.Asked(r.deviceId, Now(r));
      ProofStepFailures(s, cfg, r);
      DecideFailures(s, cfg, r);
      if FailsProof(s, r) {
        Counters.DeviceAfter(s.failures, log, failed, d, cfg.failureWindow);
        Counters.DeviceAfter(ProofStep(s, cfg, r).0.failures, log + [failed], asked, d, cfg.failureWindow);
        assert log + FailureEvents(s, a) == log + [failed] + [asked];
      } else {
        Counters.DeviceAfter(s.failures, log, asked, d, cfg.failureWindow);
        assert log + FailureEvents(s, a) == log + [asked];
      }
    case _ =>
  }

  /** Over any run, every device's bucket is what its own events leave. */
  lemma {:induction false} BucketsHold(s: System, cfg: Deployment, actions: seq<Action>, n: nat, d: Text)
    requires n <= |actions| && s.failures == map[] && cfg.failureWindow >= 0
    ensures Counters.DeviceHolds(ActAll(s, cfg, actions[..n]).failures, FailureLog(s, cfg, actions, n), d,
                                 cfg.failureWindow)
    decreases n
  {
    hide Act, FailureEvents;
    if n > 0 {
      hide Counters.DeviceHolds;
      BucketsHold(s, cfg, actions, n - 1, d);
      assert actions[..n][..n - 1] == actions[..n - 1];
      ActAllStep(s, cfg, actions[..n]);
      ActFailures(ActAll(s, cfg, actions[..n - 1]), cfg, actions[n - 1], FailureLog(s, cfg, actions, n - 1), d);
    }
  }

  /** The log up to the point at which this request's failures are counted: this request's own failure included. */
  function LogAt(s: System, cfg: Deployment, actions: seq<Action>, r: Request): seq<Counters.Event> {
    FailureLog(s, cfg, actions, |actions|) +
    if FailsProof(ActAll(s, cfg, actions), r) then [Counters.Failed(r.deviceId, Now(r))] else []
  }

  /** The instants of the device's failed proofs, this request's included. */
  function FailedTimes(s: System, cfg: Deployment, actions: seq<Action>, r: Request): seq<Instant> {
    Counters.Failures(LogAt(s, cfg, actions, r), r.deviceId)
  }

  /** The device named its instants in order. */
  ghost predicate OwnOrder(actions: seq<Action>, d: Text) {
    forall i, j | 0 <= i < j < |actions| && actions[i].Decided? && actions[j].Decided?
      && actions[i].request.deviceId == d && actions[j].request.deviceId == d ::
      Now(actions[i].request) <= Now(actions[j].request)
  }

  lemma CallsOfTwo(log: seq<Counters.Event>, more: seq<Counters.Event>, d: Text)
    requires |more| <= 2
    ensures Counters.CallsOf(log + more, d) == Counters.CallsOf(log, d) + Counters.CallsOf(more, d)
  {
    hide Counters.CallsOf;
    var none: seq<Counters.Event> := [];
    NoEvents(d);
    if more == [] {
      assert log + more == log;
      assert Counters.CallsOf(log, d) + [] == Counters.CallsOf(log, d);
    } else if |more| == 1 {
      assert log + more == log + [more[0]] && none + [more[0]] == more;
      Counters.CallsGrow(log, more[0], d);
      Counters.CallsGrow(none, more[0], d);
    } else {
      assert log + more == log + [more[0]] + [more[1]] && none + [more[0]] + [more[1]] == more;
      Counters.CallsGrow(log, more[0], d);
      Counters.CallsGrow(log + [more[0]], more[1], d);
      Counters.CallsGrow(none, more[0], d);
      Counters.CallsGrow(none + [more[0]], more[1], d);
    }
  }

  lemma OwnEventCalls(s: System, a: Action, d: Text)
    ensures var calls := Counters.CallsOf(FailureEvents(s, a), d);
      if a.Decided? && a.request.deviceId == d then
        calls == (if FailsProof(s, a.request) then [Add(Now(a.request))] else []) + [Trim(Now(a.request))]
      else calls == []
  {
    var none: seq<Counters.Event> := [];
    if a.Decided? {
      var r := a.request;
      var failed, asked := Counters.Failed(r.deviceId, Now(r)), Counters.Asked(r.deviceId, Now(r));
      Counters.CallsGrow(none, failed, d);
      Counters.CallsGrow(none + [failed], asked, d);
      Counters.CallsGrow(none, asked, d);
      assert none + [failed] + [asked] == [failed] + [asked] && none + [asked] == [asked] == [] + [asked];
    }
  }

  /** No call on the device's failure counter is later than its own decisions. */
  lemma {:induction false} OwnCallsNoLater(s: System, cfg: Deployment, actions: seq<Action>, n: nat, d: Text,
                                           q: Instant)
    requires n <= |actions| && OwnNotLater(actions[..n], d, q)
    ensures NoneLater(Counters.CallsOf(FailureLog(s, cfg, actions, n), d), q)
    decreases n
  {
    hide ActAll, FailureEvents, FailsProof, Counters.CallsOf;
    if n == 0 {
      assert Counters.CallsOf([], d) == [] by { NoEvents(d); }
    } else {
      assert forall k | 0 <= k < n - 1 :: actions[..n - 1][k] == actions[..n][k];
      OwnCallsNoLater(s, cfg, actions, n - 1, d, q);
      var before := ActAll(s, cfg, actions[..n - 1]);
      assert actions[..n][n - 1] == actions[n - 1];
      AtMostTwo(before, actions[n - 1]);
      CallsOfTwo(FailureLog(s, cfg, actions, n - 1), FailureEvents(before, actions[n - 1]), d);
      OwnEventCalls(before, actions[n - 1], d);
    }
  }

  lemma NoEvents(d: Text)
    ensures Counters.CallsOf([], d) == [] && Added([]) == []
  {}

  lemma AtMostTwo(s: System, a: Action)
    ensures |FailureEvents(s, a)| <= 2
  {}

  lemma AddedByDecision(calls: seq<Call>, failed: bool, at: Instant)
    ensures var more := (if failed then [Add(at)] else []) + [Trim(at)];
      Added(calls + more) == Added(calls) + if failed then [at] else []
  {
    var grown := if failed then calls + [Add(at)] else calls;
    assert calls + ((if failed then [Add(at)] else []) + [Trim(at)]) == grown + [Trim(at)];
    OneMoreCall(calls, Add(at), 0);
    OneMoreCall(grown, Trim(at), 0);
  }

  lemma AppendInOrder(times: seq<Instant>, at: Instant)
    requires Ascending(times) && forall i | 0 <= i < |times| :: times[i] <= at
    ensures Ascending(times + [at])
  {}

  /** A device that names its instants in order fails in order. */
  lemma {:induction false} OwnFailuresAscend(s: System, cfg: Deployment, actions: seq<Action>, n: nat, d: Text)
    requires n <= |actions| && OwnOrder(actions, d)
    ensures Counters.InOrder(FailureLog(s, cfg, actions, n), d)
    decreases n
  {
    hide ActAll, FailureEvents, FailsProof, Counters.CallsOf, Ascending, Added;
    if n == 0 {
      NoEvents(d);
      assert Ascending([]) by { NothingDescends(); }
    } else {
      OwnFailuresAscend(s, cfg, actions, n - 1, d);
      var before, a, log := ActAll(s, cfg, actions[..n - 1]), actions[n - 1], FailureLog(s, cfg, actions, n - 1);
      AtMostTwo(before, a);
      CallsOfTwo(log, FailureEvents(before, a), d);
      OwnEventCalls(before, a, d);
      var calls := Counters.CallsOf(log, d);
      assert calls + [] == calls && Added(calls) + [] == Added(calls);
      if a.Decided? && a.request.deviceId == d {
        OwnBefore(actions, n - 1, d);
        OwnCallsNoLater(s, cfg, actions, n - 1, d, Now(a.request));
        AddedNoLater(calls, Now(a.request));
        AddedByDecision(calls, FailsProof(before, a.request), Now(a.request));
        AppendInOrder(Added(calls), Now(a.request));
      }
    }
  }

  lemma NothingDescends()
    ensures Ascending([])
  {}

  lemma OwnBefore(actions: seq<Action>, n: nat, d: Text)
    requires n < |actions| && OwnOrder(actions, d) && actions[n].Decided? && actions[n].request.deviceId == d
    ensures OwnNotLater(actions[..n], d, Now(actions[n].request))
  {}

  /** What the counter reports for this request: the device's failed proofs in the window exactly when none older than
      the window is left behind a younger one, as long as the device has named no later instant; and always when it
      names its instants in order. */
  lemma ReportedFailures(s: System, cfg: Deployment, actions: seq<Action>, r: Request)
    requires s.failures == map[] && cfg.failureWindow >= 0 && OwnNotLater(actions, r.deviceId, Now(r))
    ensures var (after, _, inputs) := Gather(ActAll(s, cfg, actions), cfg, r);
      var left, from := Counters.Bucket(after.failures, r.deviceId), Now(r) - cfg.failureWindow;
      var exact := inputs.authnFailures == Count(FailedTimes(s, cfg, actions, r), from, Now(r));
      && (exact <==> forall i | 0 <= i < |left| :: left[i] >= from)
      && (Ascending(FailedTimes(s, cfg, actions, r)) ==> exact)
  {
    hide ActAll, Gather, ProofStep, Count, FailsProof, Counters.CallsOf, Added, Ascending, Counters.AddFailure,
         Counters.PruneFailures, Counters.DeviceHolds, Counters.Bucket;
    var now, d, w := ActAll(s, cfg, actions), r.deviceId, cfg.failureWindow;
    var log, asked := LogAt(s, cfg, actions, r), Counters.Asked(d, Now(r));
    var proved := ProofStep(now, cfg, r).0.failures;
    HoldsAt(s, cfg, actions, r);
    LogAtNoLater(s, cfg, actions, r);
    Counters.ReportIsWindow(proved, log, asked, w);
    GatherFailures(now, cfg, r);
    AskedAddsNothing(log, d, Now(r));
  }

  lemma AskedAddsNothing(log: seq<Counters.Event>, d: Text, at: Instant)
    ensures Counters.Failures(log + [Counters.Asked(d, at)], d) == Counters.Failures(log, d)
  {
    hide Counters.CallsOf, Added;
    Counters.CallsGrow(log, Counters.Asked(d, at), d);
    OneMoreCall(Counters.CallsOf(log, d), Trim(at), 0);
    assert Counters.Failures(log, d) + [] == Counters.Failures(log, d);
  }

  lemma HoldsAt(s: System, cfg: Deployment, actions: seq<Action>, r: Request)
    requires s.failures == map[] && cfg.failureWindow >= 0
    ensures Counters.DeviceHolds(ProofStep(ActAll(s, cfg, actions), cfg, r).0.failures, LogAt(s, cfg, actions, r),
                                 r.deviceId, cfg.failureWindow)
  {
    hide ActAll, ProofStep, FailsProof, Counters.DeviceHolds, Counters.AddFailure;
    var now, d := ActAll(s, cfg, actions), r.deviceId;
    var log := FailureLog(s, cfg, actions, |actions|);
    assert actions[..|actions|] == actions && log + [] == log;
    BucketsHold(s, cfg, actions, |actions|, d);
    ProofStepFailures(now, cfg, r);
    Counters.DeviceAfter(now.failures, log, Counters.Failed(d, Now(r)), d, cfg.failureWindow);
  }

  lemma LogAtNoLater(s: System, cfg: Deployment, actions: seq<Action>, r: Request)
    requires OwnNotLater(actions, r.deviceId, Now(r))
    ensures NoneLater(Counters.CallsOf(LogAt(s, cfg, actions, r), r.deviceId), Now(r))
  {
    hide ActAll, FailsProof, Counters.CallsOf, FailureLog;
    var log, d := FailureLog(s, cfg, actions, |actions|), r.deviceId;
    assert actions[..|actions|] == actions && log + [] == log;
    OwnCallsNoLater(s, cfg, actions, |actions|, d, Now(r));
    Counters.CallsGrow(log, Counters.Failed(d, Now(r)), d);
  }

  lemma FailedTimesAscend(s: System, cfg: Deployment, actions: seq<Action>, r: Request)
    requires OwnOrder(actions + [Decided(r)], r.deviceId)
    ensures Ascending(FailedTimes(s, cfg, actions, r)) && OwnNotLater(actions, r.deviceId, Now(r))
  {
    hide ActAll, FailsProof, Counters.CallsOf, FailureLog, Added, Ascending;
    var all, log, d := actions + [Decided(r)], FailureLog(s, cfg, actions, |actions|), r.deviceId;
    assert actions[..|actions|] == actions == all[..|actions|] && log + [] == log;
    OwnBefore(all, |actions|, d);
    assert OwnOrder(actions, d) by { assert forall i | 0 <= i < |actions| :: all[i] == actions[i]; }
    OwnFailuresAscend(s, cfg, actions, |actions|, d);
    OwnCallsNoLater(s, cfg, actions, |actions|, d, Now(r));
    var calls := Counters.CallsOf(log, d);
    AddedNoLater(calls, Now(r));
    Counters.CallsGrow(log, Counters.Failed(d, Now(r)), d);
    OneMoreCall(calls, Add(Now(r)), 0);
    AppendInOrder(Added(calls), Now(r));
  }

  /** Over any run, whatever instants other devices name: C9 fails exactly when the device's failed proofs in the window
      that ends with the request, this one's included, exceed the limit, as long as the device names its instants in
      order. */
  lemma FailuresOkIff(s: System, cfg: Deployment, actions: seq<Action>, r: Request)
    requires s.failures == map[] && cfg.failureWindow >= 0 && OwnOrder(actions + [Decided(r)], r.deviceId)
    ensures var inputs := Gather(ActAll(s, cfg, actions), cfg, r).2;
      Evaluate(Assemble(inputs, cfg.settings), cfg.settings).c9
      <==> Count(FailedTimes(s, cfg, actions, r), Now(r) - cfg.failureWindow, Now(r)) <= cfg.settings.maxAuthnFailures
  {
    hide ActAll, Gather, Count, FailedTimes, Ascending, EvaluatePosture, OwnOrder, OwnNotLater;
    FailedTimesAscend(s, cfg, actions, r);
    ReportedFailures(s, cfg, actions, r);
  }
}
