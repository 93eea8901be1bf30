/** Transitions, from the observations alone (collectors/transition.py): which of them are changes of position, what
    each event says, and which context follows, without the track. */
module Moves {
  import opened Base
  import opened Window
  import opened WindowRuns
  import opened Policy
  import opened Bindings
  import opened Transitions

  // -- where the device is -------------------------------------------------------------

  /** An offer that no earlier one outdates. */
  predicate Timely(inputs: seq<Input>, p: nat)
    requires p < |inputs|
  {
    inputs[p].Offer? && forall j | 0 <= j < p && inputs[j].Offer? :: inputs[j].o.at <= inputs[p].o.at
  }

  /** The last timely offer among the first n inputs: it says where the device is. */
  function LastTimely(inputs: seq<Input>, n: nat): (last: Option<nat>)
    requires n <= |inputs|
    ensures last.Some? ==> last.value < n && Timely(inputs, last.value)
    ensures last.Some? ==> forall j | last.value < j < n :: !Timely(inputs, j)
    ensures last.None? ==> forall j | 0 <= j < n :: !inputs[j].Offer?
  {
    if n == 0 then None
    else if Timely(inputs, n - 1) then Some(n - 1)
    else LastTimely(inputs, n - 1)
  }

  /** Another domain, or another address in the same one; a missing address is no other address. */
  predicate Elsewhere(before: Observation, after: Observation) {
    || before.domain != after.domain
    || (before.address.Some? && after.address.Some? && before.address.value != after.address.value)
  }

  /** The p-th input is a change of position: timely, and elsewhere than the timely offer before it. */
  predicate IsMove(inputs: seq<Input>, p: nat)
    requires p < |inputs|
  {
    && Timely(inputs, p)
    && var before := LastTimely(inputs, p);
       before.Some? && Elsewhere(inputs[before.value].o, inputs[p].o)
  }

  /** The places of the moves among the first n inputs. */
  function MovesOf(inputs: seq<Input>, n: nat): (places: seq<nat>)
    requires n <= |inputs|
    ensures forall k | 0 <= k < |places| :: places[k] < n && IsMove(inputs, places[k])
  {
    if n == 0 then [] else MovesOf(inputs, n - 1) + if IsMove(inputs, n - 1) then [n - 1] else []
  }

  /** They are all of them, in order. */
  lemma {:induction false} MovesAreAll(inputs: seq<Input>, n: nat)
    requires n <= |inputs|
    ensures forall p | 0 <= p < n && IsMove(inputs, p) :: p in MovesOf(inputs, n)
    ensures forall i, j | 0 <= i < j < |MovesOf(inputs, n)| :: MovesOf(inputs, n)[i] < MovesOf(inputs, n)[j]
  {
    hide IsMove;
    if n > 0 { MovesAreAll(inputs, n - 1); }
  }

  ghost predicate Stands(t: Track, inputs: seq<Input>, n: nat)
    requires n <= |inputs|
  {
    var last := LastTimely(inputs, n);
    if last.None? then t.currentDomain.None? && t.currentAddress.None? && t.lastObservedAt.None?
    else
      var o := inputs[last.value].o;
      && t.currentDomain == Some(o.domain) && t.currentAddress == o.address && t.lastObservedAt == Some(o.at)
      && forall j | 0 <= j < n && inputs[j].Offer? :: inputs[j].o.at <= o.at
  }

  lemma OfferStands(t: Track, inputs: seq<Input>, n: nat, cfg: Config, deviceId: Text)
    requires n < |inputs| && Stands(t, inputs, n) && inputs[n].Offer?
    ensures Stands(Observe(t, cfg, deviceId, inputs[n].o), inputs, n + 1)
    ensures VerdictOf(t, inputs[n].o) == ACCEPTED <==> IsMove(inputs, n)
    ensures VerdictOf(t, inputs[n].o) == STALE <==> !Timely(inputs, n)
  {
    hide NewEvent, Insert, Prune;
  }

  lemma QueryStands(t: Track, inputs: seq<Input>, n: nat, cfg: Config, deviceId: Text)
    requires n < |inputs| && Stands(t, inputs, n) && !inputs[n].Offer?
    ensures Stands(Next(t, cfg, deviceId, inputs[n]), inputs, n + 1)
  {
    hide Prune;
  }

  lemma RunOfPrefix(inputs: seq<Input>, n: nat, cfg: Config, deviceId: Text)
    requires 0 < n <= |inputs|
    ensures Run(inputs[..n], cfg, deviceId) == Next(Run(inputs[..n - 1], cfg, deviceId), cfg, deviceId, inputs[n - 1])
    ensures Accepted(inputs[..n], cfg, deviceId)
         == Accepted(inputs[..n - 1], cfg, deviceId) +
            if inputs[n - 1].Offer? && VerdictOf(Run(inputs[..n - 1], cfg, deviceId), inputs[n - 1].o) == ACCEPTED
            then [NewEvent(Run(inputs[..n - 1], cfg, deviceId), cfg, deviceId, inputs[n - 1].o)] else []
  {
    hide Next, NewEvent;
    assert inputs[..n][..n - 1] == inputs[..n - 1];
  }

  /** In every run the track's position and time are those of the last timely offer. */
  lemma {:induction false} RunStands(inputs: seq<Input>, n: nat, cfg: Config, deviceId: Text)
    requires n <= |inputs|
    ensures Stands(Run(inputs[..n], cfg, deviceId), inputs, n)
  {
    hide Next;
    if n == 0 {
      assert Run(inputs[..0], cfg, deviceId) == FreshTrack;
    } else {
      RunStands(inputs, n - 1, cfg, deviceId);
      RunOfPrefix(inputs, n, cfg, deviceId);
      StandsNext(Run(inputs[..n - 1], cfg, deviceId), inputs, n - 1, cfg, deviceId);
    }
  }

  lemma StandsNext(t: Track, inputs: seq<Input>, n: nat, cfg: Config, deviceId: Text)
    requires n < |inputs| && Stands(t, inputs, n)
    ensures Stands(Next(t, cfg, deviceId, inputs[n]), inputs, n + 1)
  {
    hide Stands, Observe;
    if inputs[n].Offer? {
      OfferStands(t, inputs, n, cfg, deviceId);
    } else {
      QueryStands(t, inputs, n, cfg, deviceId);
    }
  }

  /** The verdict on the next offer, after any run. */
  lemma VerdictMeans(inputs: seq<Input>, o: Observation, cfg: Config, deviceId: Text)
    ensures var last, v := LastTimely(inputs, |inputs|), VerdictOf(Run(inputs, cfg, deviceId), o);
      && (v == STALE <==> exists j | 0 <= j < |inputs| && inputs[j].Offer? :: o.at < inputs[j].o.at)
      && (v == DUPLICATE <==>
            last.Some? && var w := inputs[last.value].o; w.at == o.at && w.domain == o.domain && w.address == o.address)
      && (v == ACCEPTED <==> v != STALE && last.Some? && Elsewhere(inputs[last.value].o, o))
  {
    hide Run;
    assert inputs[..|inputs|] == inputs;
    RunStands(inputs, |inputs|, cfg, deviceId);
    assert LastTimely(inputs, |inputs|).Some? ==> inputs[LastTimely(inputs, |inputs|).value].Offer?;
  }

  // -- what the events say -----------------------------------------------------------------

  /** The event says where the device went at p and where it was before. */
  ghost predicate Describes(e: Transitions.Event, inputs: seq<Input>, p: nat, deviceId: Text)
    requires p < |inputs| && IsMove(inputs, p)
  {
    var before, after := inputs[LastTimely(inputs, p).value].o, inputs[p].o;
    && e.id == after.id && e.deviceId == deviceId
    && e.fromDomain == Some(before.domain) && e.toDomain == after.domain
    && e.fromAddress == before.address && e.toAddress == after.address
    && e.startedAt == before.at && e.detectedAt == after.at
    && (e.crossDomain <==> before.domain != after.domain)
    && (e.reason == DOMAIN_CHANGE <==> before.domain != after.domain)
    && (e.corroborated <==> after.evidence.Some?)
    && (if after.evidence.Some?
        then e.completedAt == Some(after.at) && e.sourceRefs == [after.evidence.value]
        else e.completedAt == None && e.sourceRefs == [])
  }

  ghost predicate AllDescribed(log: seq<Transitions.Event>, inputs: seq<Input>, n: nat, deviceId: Text)
    requires n <= |inputs|
  {
    var places := MovesOf(inputs, n);
    |log| == |places| && forall k | 0 <= k < |log| :: Describes(log[k], inputs, places[k], deviceId)
  }

  lemma MoveIsDescribed(t: Track, inputs: seq<Input>, n: nat, cfg: Config, deviceId: Text)
    requires n < |inputs| && Stands(t, inputs, n) && IsMove(inputs, n)
    ensures Describes(NewEvent(t, cfg, deviceId, inputs[n].o), inputs, n, deviceId)
  {
    hide Prune;
  }

  lemma MoreDescribed(log: seq<Transitions.Event>, inputs: seq<Input>, n: nat, e: Transitions.Event, deviceId: Text)
    requires n < |inputs| && AllDescribed(log, inputs, n, deviceId)
    ensures !IsMove(inputs, n) ==> AllDescribed(log, inputs, n + 1, deviceId)
    ensures IsMove(inputs, n) && Describes(e, inputs, n, deviceId) ==>
      AllDescribed(log + [e], inputs, n + 1, deviceId)
  {
    hide IsMove, Describes;
  }

  /** Over every run, in any order of times: the events accepted are the moves, one for each, in order, and each says
      exactly what its move was. */
  lemma {:induction false} EventsAreMoves(inputs: seq<Input>, n: nat, cfg: Config, deviceId: Text)
    requires n <= |inputs|
    ensures AllDescribed(Accepted(inputs[..n], cfg, deviceId), inputs, n, deviceId)
  {
    hide Run, Next, Accepted, NewEvent, AllDescribed, Describes, IsMove, VerdictOf;
    if n == 0 {
      NothingDescribed(inputs, cfg, deviceId);
    } else {
      var t, log := Run(inputs[..n - 1], cfg, deviceId), Accepted(inputs[..n - 1], cfg, deviceId);
      EventsAreMoves(inputs, n - 1, cfg, deviceId);
      RunStands(inputs, n - 1, cfg, deviceId);
      RunOfPrefix(inputs, n, cfg, deviceId);
      assert log + [] == log;
      if inputs[n - 1].Offer? {
        var e := NewEvent(t, cfg, deviceId, inputs[n - 1].o);
        OfferStands(t, inputs, n - 1, cfg, deviceId);
        if IsMove(inputs, n - 1) { MoveIsDescribed(t, inputs, n - 1, cfg, deviceId); }
        MoreDescribed(log, inputs, n - 1, e, deviceId);
      } else {
        QueryIsNoMove(inputs, n - 1);
        NoneMore(log, inputs, n - 1, deviceId);
      }
    }
  }

  lemma NothingDescribed(inputs: seq<Input>, cfg: Config, deviceId: Text)
    ensures AllDescribed(Accepted(inputs[..0], cfg, deviceId), inputs, 0, deviceId)
  {}

  lemma QueryIsNoMove(inputs: seq<Input>, p: nat)
    requires p < |inputs| && !inputs[p].Offer?
    ensures !IsMove(inputs, p)
  {}

  lemma NoneMore(log: seq<Transitions.Event>, inputs: seq<Input>, n: nat, deviceId: Text)
    requires n < |inputs| && AllDescribed(log, inputs, n, deviceId) && !IsMove(inputs, n)
    ensures AllDescribed(log, inputs, n + 1, deviceId)
  {
    hide IsMove, Describes;
  }

  // -- the counters of odd observations --------------------------------------------------

  /** A timely offer that repeats the one before it, instant and all. */
  predicate Repeats(inputs: seq<Input>, p: nat)
    requires p < |inputs|
  {
    && Timely(inputs, p)
    && var before := LastTimely(inputs, p);
       before.Some? && var w, o := inputs[before.value].o, inputs[p].o;
       w.domain == o.domain && w.address == o.address && w.at == o.at
  }

  function StaleOffers(inputs: seq<Input>, n: nat): nat
    requires n <= |inputs|
  {
    if n == 0 then 0
    else StaleOffers(inputs, n - 1) + if inputs[n - 1].Offer? && !Timely(inputs, n - 1) then 1 else 0
  }

  function RepeatedOffers(inputs: seq<Input>, n: nat): nat
    requires n <= |inputs|
  {
    if n == 0 then 0 else RepeatedOffers(inputs, n - 1) + if Repeats(inputs, n - 1) then 1 else 0
  }

  function UnsupportedMoves(inputs: seq<Input>, n: nat): nat
    requires n <= |inputs|
  {
    if n == 0 then 0
    else
      UnsupportedMoves(inputs, n - 1)
      + if IsMove(inputs, n - 1) && inputs[n - 1].o.evidence.None? then 1 else 0
  }

  ghost predicate Tallied(t: Track, inputs: seq<Input>, n: nat)
    requires n <= |inputs|
  {
    && t.rejectedStale == StaleOffers(inputs, n) && t.rejectedDuplicate == RepeatedOffers(inputs, n)
    && t.uncorroborated == UnsupportedMoves(inputs, n)
  }

  lemma OfferTallies(t: Track, inputs: seq<Input>, n: nat, cfg: Config, deviceId: Text)
    requires n < |inputs| && Stands(t, inputs, n) && Tallied(t, inputs, n) && inputs[n].Offer?
    ensures Tallied(Observe(t, cfg, deviceId, inputs[n].o), inputs, n + 1)
  {
    hide NewEvent, Insert, Prune;
  }

  lemma QueryTallies(t: Track, inputs: seq<Input>, n: nat, cfg: Config, deviceId: Text)
    requires n < |inputs| && Tallied(t, inputs, n) && !inputs[n].Offer?
    ensures Tallied(Next(t, cfg, deviceId, inputs[n]), inputs, n + 1)
  {
    hide Prune;
  }

  /** Over every run: the anomaly counters count the offers that came too late, those that repeated the one before, and
      the moves no binding supported. */
  lemma {:induction false} RunTallies(inputs: seq<Input>, n: nat, cfg: Config, deviceId: Text)
    requires n <= |inputs|
    ensures Tallied(Run(inputs[..n], cfg, deviceId), inputs, n)
  {
    hide Next, Observe, Stands, IsMove, Repeats, Timely;
    if n == 0 {
      assert Run(inputs[..0], cfg, deviceId) == FreshTrack;
    } else {
      RunTallies(inputs, n - 1, cfg, deviceId);
      RunStands(inputs, n - 1, cfg, deviceId);
      RunOfPrefix(inputs, n, cfg, deviceId);
      TalliesNext(Run(inputs[..n - 1], cfg, deviceId), inputs, n - 1, cfg, deviceId);
    }
  }

  lemma TalliesNext(t: Track, inputs: seq<Input>, n: nat, cfg: Config, deviceId: Text)
    requires n < |inputs| && Stands(t, inputs, n) && Tallied(t, inputs, n)
    ensures Tallied(Next(t, cfg, deviceId, inputs[n]), inputs, n + 1)
  {
    hide Stands, Tallied, Observe;
    if inputs[n].Offer? {
      OfferTallies(t, inputs, n, cfg, deviceId);
    } else {
      QueryTallies(t, inputs, n, cfg, deviceId);
    }
  }

  /** What `observe` returns, after any run: the event of a move, nothing for an offer that confirms the position, and
      for a rejected one the last event there was. */
  lemma ReportMeans(inputs: seq<Input>, o: Observation, cfg: Config, deviceId: Text)
    ensures var all, p, log := inputs + [Offer(o)], |inputs|, Accepted(inputs, cfg, deviceId);
      var reported := Reported(Run(inputs, cfg, deviceId), cfg, deviceId, o);
      && (IsMove(all, p) ==> reported.Some? && Accepted(all, cfg, deviceId) == log + [reported.value])
      && (!Timely(all, p) || Repeats(all, p) ==> reported == if log == [] then None else Some(log[|log| - 1]))
      && (Timely(all, p) && !Repeats(all, p) && !IsMove(all, p) ==> reported == None)
  {
    hide Run, Accepted, NewEvent, Timed, Located;
    var all, p := inputs + [Offer(o)], |inputs|;
    var t := Run(inputs, cfg, deviceId);
    assert all[..p] == inputs && all[..p + 1] == all;
    EveryRun(inputs, cfg, deviceId);
    RunStands(all, p, cfg, deviceId);
    OfferStands(t, all, p, cfg, deviceId);
    RepeatIsDuplicate(t, all, p);
    RunOfPrefix(all, p + 1, cfg, deviceId);
  }

  lemma RepeatIsDuplicate(t: Track, inputs: seq<Input>, p: nat)
    requires p < |inputs| && inputs[p].Offer? && Stands(t, inputs, p)
    ensures VerdictOf(t, inputs[p].o) == DUPLICATE <==> Repeats(inputs, p)
  {}

  // -- the context ------------------------------------------------------------------------

  /** The instants of the moves. */
  function MoveTimes(inputs: seq<Input>): (times: seq<Instant>)
    ensures |times| == |MovesOf(inputs, |inputs|)|
  {
    var places := MovesOf(inputs, |inputs|);
    seq(|places|, k requires 0 <= k < |places| => inputs[places[k]].o.at)
  }

  /** The context that follows from the moves: what the last of them was, as long as it is recent and there are few. */
  ghost predicate Fits(context: TransitionContext, inputs: seq<Input>, cfg: Config, q: Instant) {
    var places := MovesOf(inputs, |inputs|);
    var n := |places|;
    var recent := n > 0 && q - inputs[places[n - 1]].o.at <= cfg.transitionWindow;
    var many := Count(MoveTimes(inputs), q - cfg.rateWindow, q) >= cfg.repeatThreshold;
    && (context == NONE <==> !recent)
    && (context == REPEATED <==> recent && many)
    && (recent && !many ==>
          var from, to := inputs[LastTimely(inputs, places[n - 1]).value].o.domain, inputs[places[n - 1]].o.domain;
          && (context == INTRA <==> from == to)
          && (context == NR_TO_WLAN <==> from == NR && to == WLAN)
          && (context == WLAN_TO_NR <==> from == WLAN && to == NR))
  }

  /** The times of the accepted events are those of the moves. */
  lemma TimesAreMoves(inputs: seq<Input>, cfg: Config, deviceId: Text)
    ensures MoveTimes(inputs) == TimesOf(Accepted(inputs, cfg, deviceId))
  {
    hide Accepted, Describes, IsMove, MovesOf;
    var log, places := Accepted(inputs, cfg, deviceId), MovesOf(inputs, |inputs|);
    assert inputs[..|inputs|] == inputs;
    EventsAreMoves(inputs, |inputs|, cfg, deviceId);
    forall k | 0 <= k < |log| ensures MoveTimes(inputs)[k] == TimesOf(log)[k] {
      DescribedTime(log[k], inputs, places[k], deviceId);
    }
  }

  /** Over every run: asked about an instant no earlier than any call so far, the collector gives the one context that
      fits the moves. */
  lemma ContextFits(inputs: seq<Input>, cfg: Config, deviceId: Text, q: Instant)
    requires cfg.rateWindow >= 0 && forall i | 0 <= i < |inputs| :: At(inputs[i]) <= q
    ensures Fits(ContextFor(Run(inputs, cfg, deviceId), cfg, q), inputs, cfg, q)
  {
    hide Run, Accepted, Count, Counted, Describes, IsMove, MovesOf, MoveTimes, WindowExact, TimesOf, Timed, Located;
    var t, log, places := Run(inputs, cfg, deviceId), Accepted(inputs, cfg, deviceId), MovesOf(inputs, |inputs|);
    assert inputs[..|inputs|] == inputs;
    EventsAreMoves(inputs, |inputs|, cfg, deviceId);
    EveryRun(inputs, cfg, deviceId);
    WindowIsExact(inputs, cfg, deviceId, q);
    TimesAreMoves(inputs, cfg, deviceId);
    if log != [] {
      DescribedTime(log[|log| - 1], inputs, places[|log| - 1], deviceId);
      LastContext(t, log, cfg, deviceId, q);
    }
  }

  lemma DescribedTime(e: Transitions.Event, inputs: seq<Input>, p: nat, deviceId: Text)
    requires p < |inputs| && IsMove(inputs, p) && Describes(e, inputs, p, deviceId)
    ensures LastTimely(inputs, p).Some?
    ensures var before, after := inputs[LastTimely(inputs, p).value].o, inputs[p].o;
      e.detectedAt == after.at && e.fromDomain == Some(before.domain) && e.toDomain == after.domain
      && (e.crossDomain <==> before.domain != after.domain)
  {}

  lemma LastContext(t: Track, log: seq<Transitions.Event>, cfg: Config, deviceId: Text, q: Instant)
    requires log != [] && Remembers(t, log, cfg, deviceId)
    ensures t.lastTransition == Some(log[|log| - 1])
  {}
}
