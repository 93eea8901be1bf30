/** What the transition collector computes (collectors/transition.py), as functions on values, and what every run of
    them keeps. Module Collector updates the same state in place. */
module Transitions {
  import opened Base
  import opened Window
  import opened WindowRuns
  import opened Policy
  import opened Bindings

  datatype Reason = DOMAIN_CHANGE | ADDRESS_CHANGE

  datatype Verdict = ACCEPTED | NO_CHANGE | DUPLICATE | STALE

  datatype Config = Config(rateWindow: int, repeatThreshold: int, transitionWindow: int, historyLimit: nat)

  /** A detected change of position. Ids stand for the generated `trn-...` strings. */
  datatype Event = Event(
    id: nat, deviceId: Text, fromDomain: Option<AccessDomain>, toDomain: AccessDomain,
    startedAt: Instant, completedAt: Option<Instant>, detectedAt: Instant,
    reason: Reason, sequenceNumber: nat, transitionsInWindow: nat, repeated: bool, crossDomain: bool,
    corroborated: bool, sourceRefs: seq<nat>, fromAddress: Option<Text>, toAddress: Option<Text>)

  /** `_DeviceTrack`. `transitions` is the insertion-ordered dictionary, by its values. */
  datatype Track = Track(
    currentDomain: Option<AccessDomain>, currentAddress: Option<Text>, lastObservedAt: Option<Instant>,
    lastTransition: Option<Event>, history: seq<Instant>, sequence: nat,
    rejectedStale: nat, rejectedDuplicate: nat, uncorroborated: nat, transitions: seq<Event>)

  const FreshTrack := Track(None, None, None, None, [], 0, 0, 0, 0, [])

  /** One offered observation. `evidence` is the binding `_corroborate` found for it, `id` the identifier the event
      would get. */
  datatype Observation = Observation(domain: AccessDomain, address: Option<Text>, at: Instant, evidence: Option<nat>,
                                     id: nat)

  predicate DomainChanged(t: Track, o: Observation) {
    t.currentDomain.Some? && t.currentDomain != Some(o.domain)
  }

  predicate AddressChanged(t: Track, o: Observation) {
    t.currentDomain == Some(o.domain) && t.currentAddress.Some? && o.address.Some? && t.currentAddress != o.address
  }

  function VerdictOf(t: Track, o: Observation): Verdict {
    if t.lastObservedAt.Some? && o.at < t.lastObservedAt.value then STALE
    else if t.currentDomain == Some(o.domain) && t.currentAddress == o.address && t.lastObservedAt == Some(o.at)
    then DUPLICATE
    else if DomainChanged(t, o) || AddressChanged(t, o) then ACCEPTED
    else NO_CHANGE
  }

  /** The event an accepted observation creates. */
  function NewEvent(t: Track, cfg: Config, deviceId: Text, o: Observation): Event {
    var history := Prune(t.history, o.at - cfg.rateWindow) + [o.at];
    Event(o.id, deviceId, t.currentDomain, o.domain,
          if t.lastObservedAt.Some? then t.lastObservedAt.value else o.at,
          if o.evidence.Some? then Some(o.at) else None, o.at,
          if DomainChanged(t, o) then DOMAIN_CHANGE else ADDRESS_CHANGE,
          t.sequence + 1, |history|, |history| >= cfg.repeatThreshold, DomainChanged(t, o),
          o.evidence.Some?, if o.evidence.Some? then [o.evidence.value] else [], t.currentAddress, o.address)
  }

  /** The dictionary after inserting an event and evicting the oldest when over the limit. */
  function Insert(transitions: seq<Event>, e: Event, limit: nat): seq<Event> {
    if |transitions| + 1 > limit then (transitions + [e])[1..] else transitions + [e]
  }

  /** `observe_detailed` on the device's track. */
  function Observe(t: Track, cfg: Config, deviceId: Text, o: Observation): Track {
    match VerdictOf(t, o)
    case STALE => t.(rejectedStale := t.rejectedStale + 1)
    case DUPLICATE => t.(rejectedDuplicate := t.rejectedDuplicate + 1)
    case NO_CHANGE => t.(currentDomain := Some(o.domain), currentAddress := o.address, lastObservedAt := Some(o.at))
    case ACCEPTED =>
      var e := NewEvent(t, cfg, deviceId, o);
      t.(currentDomain := Some(o.domain), currentAddress := o.address, lastObservedAt := Some(o.at),
         history := Prune(t.history, o.at - cfg.rateWindow) + [o.at], sequence := t.sequence + 1,
         uncorroborated := t.uncorroborated + (if o.evidence.Some? then 0 else 1),
         lastTransition := Some(e), transitions := Insert(t.transitions, e, cfg.historyLimit))
  }

  /** `observe`'s event: the old one on a rejection. */
  function Reported(t: Track, cfg: Config, deviceId: Text, o: Observation): Option<Event> {
    match VerdictOf(t, o)
    case NO_CHANGE => None
    case ACCEPTED => Some(NewEvent(t, cfg, deviceId, o))
    case _ => t.lastTransition
  }

  /** `transitions_in_window` prunes the track it counts. */
  function Counted(t: Track, cfg: Config, at: Instant): Track {
    t.(history := Prune(t.history, at - cfg.rateWindow))
  }

  /** `is_transition_recent`. */
  predicate IsRecent(t: Track, cfg: Config, at: Instant) {
    t.lastTransition.Some? && at - t.lastTransition.value.detectedAt <= cfg.transitionWindow
  }

  /** `context_for`. */
  function ContextFor(t: Track, cfg: Config, at: Instant): TransitionContext {
    if !IsRecent(t, cfg, at) then NONE
    else if |Counted(t, cfg, at).history| >= cfg.repeatThreshold then REPEATED
    else
      var e := t.lastTransition.value;
      if !e.crossDomain then INTRA
      else if e.fromDomain == Some(NR) && e.toDomain == WLAN then NR_TO_WLAN
      else if e.fromDomain == Some(WLAN) && e.toDomain == NR then WLAN_TO_NR
      else INTRA
  }

  /** The track `context_for` leaves behind: it counts only when the last transition is recent. */
  function Contexted(t: Track, cfg: Config, at: Instant): Track {
    if IsRecent(t, cfg, at) then Counted(t, cfg, at) else t
  }

  // -- one device's runs ------------------------------------------------------------

  datatype Input = Offer(o: Observation) | CountAt(at: Instant) | ContextAt(at: Instant)

  function At(i: Input): Instant {
    match i case Offer(o) => o.at case CountAt(at) => at case ContextAt(at) => at
  }

  function Next(t: Track, cfg: Config, deviceId: Text, i: Input): Track {
    match i
    case Offer(o) => Observe(t, cfg, deviceId, o)
    case CountAt(at) => Counted(t, cfg, at)
    case ContextAt(at) => Contexted(t, cfg, at)
  }

  function Run(inputs: seq<Input>, cfg: Config, deviceId: Text): Track {
    if inputs == [] then FreshTrack
    else Next(Run(inputs[..|inputs| - 1], cfg, deviceId), cfg, deviceId, inputs[|inputs| - 1])
  }

  /** Every event a run accepts, in order: the unbounded history. */
  function Accepted(inputs: seq<Input>, cfg: Config, deviceId: Text): seq<Event> {
    if inputs == [] then []
    else
      var n := |inputs| - 1;
      var t := Run(inputs[..n], cfg, deviceId);
      Accepted(inputs[..n], cfg, deviceId) +
      if inputs[n].Offer? && VerdictOf(t, inputs[n].o) == ACCEPTED
      then [NewEvent(t, cfg, deviceId, inputs[n].o)] else []
  }

  /** The first domain the device was ever seen in. */
  function FirstDomain(inputs: seq<Input>): Option<AccessDomain> {
    if inputs == [] then None
    else
      var before := FirstDomain(inputs[..|inputs| - 1]);
      if before.Some? then before
      else if inputs[|inputs| - 1].Offer? then Some(inputs[|inputs| - 1].o.domain) else None
  }

  function TimesOf(log: seq<Event>): (r: seq<Instant>)
    ensures |r| == |log|
  {
    seq(|log|, i requires 0 <= i < |log| => log[i].detectedAt)
  }

  function CrossCount(log: seq<Event>): nat {
    if log == [] then 0
    else CrossCount(log[..|log| - 1]) + if log[|log| - 1].crossDomain then 1 else 0
  }

  function Last(log: seq<Event>, limit: nat): seq<Event> {
    if |log| <= limit then log else log[|log| - limit..]
  }

  /** Consecutive events chain, and each crosses domains exactly when it says so. */
  ghost predicate Chained(log: seq<Event>) {
    && (forall i | 0 <= i < |log| ::
        log[i].fromDomain.Some? && (log[i].crossDomain <==> log[i].fromDomain != Some(log[i].toDomain)))
    && (forall i | 0 < i < |log| :: log[i].fromDomain == Some(log[i - 1].toDomain))
  }

  ghost predicate Numbered(log: seq<Event>, deviceId: Text) {
    forall i | 0 <= i < |log| :: log[i].sequenceNumber == i + 1 && log[i].deviceId == deviceId
  }

  /** The bounded history is the end of the unbounded one. */
  ghost predicate Remembers(t: Track, log: seq<Event>, cfg: Config, deviceId: Text) {
    && t.sequence == |log| && Numbered(log, deviceId)
    && t.transitions == Last(log, cfg.historyLimit)
    && t.lastTransition == if log == [] then None else Some(log[|log| - 1])
  }

  /** Where the device is, in terms of its events. */
  ghost predicate Located(t: Track, log: seq<Event>, first: Option<AccessDomain>) {
    && Chained(log)
    && (t.currentDomain.None? <==> first.None?)
    && (t.currentDomain.Some? <==> t.lastObservedAt.Some?)
    && (log != [] ==> t.currentDomain == Some(log[|log| - 1].toDomain) && log[0].fromDomain == first)
    && (log == [] ==> t.currentDomain == first)
    && (t.currentDomain == first <==> CrossCount(log) % 2 == 0)
  }

  /** Times never run ahead of the last observation, and the deque is the end of the list of accepted times. */
  ghost predicate Timed(t: Track, log: seq<Event>) {
    && Ascending(TimesOf(log))
    && (forall i | 0 <= i < |log| :: t.lastObservedAt.Some? && log[i].detectedAt <= t.lastObservedAt.value)
    && IsSuffix(t.history, TimesOf(log))
  }

  lemma RemembersStep(t: Track, log: seq<Event>, cfg: Config, deviceId: Text, o: Observation)
    requires Remembers(t, log, cfg, deviceId) && VerdictOf(t, o) == ACCEPTED
    ensures Remembers(Observe(t, cfg, deviceId, o), log + [NewEvent(t, cfg, deviceId, o)], cfg, deviceId)
  {
    hide Prune;
    var e := NewEvent(t, cfg, deviceId, o);
    LastGrows(log, e, cfg.historyLimit);
  }

  lemma LastGrows(log: seq<Event>, e: Event, limit: nat)
    ensures Last(log + [e], limit) == Insert(Last(log, limit), e, limit)
  {}

  lemma TwoDomains(a: AccessDomain, b: AccessDomain, c: AccessDomain)
    ensures a != b && b != c ==> a == c
  {}

  lemma NoCrossings()
    ensures CrossCount([]) == 0
  {}

  lemma CrossCountGrows(log: seq<Event>, e: Event)
    ensures CrossCount(log + [e]) == CrossCount(log) + if e.crossDomain then 1 else 0
  {
    assert (log + [e])[..|log|] == log;
  }

  lemma LocatedStep(t: Track, log: seq<Event>, first: Option<AccessDomain>, cfg: Config, deviceId: Text, o: Observation)
    requires Located(t, log, first) && VerdictOf(t, o) == ACCEPTED
    ensures Located(Observe(t, cfg, deviceId, o), log + [NewEvent(t, cfg, deviceId, o)], first)
  {
    hide Prune, Insert, CrossCount;
    var e := NewEvent(t, cfg, deviceId, o);
    var grown := log + [e];
    CrossCountGrows(log, e);
    assert forall i | 0 <= i < |log| :: grown[i] == log[i];
    assert Chained(grown);
    assert first.Some?;
    NoCrossings();
    TwoDomains(first.value, t.currentDomain.value, o.domain);
    assert Some(o.domain) == first <==> CrossCount(grown) % 2 == 0;
  }

  lemma TimesGrow(log: seq<Event>, e: Event)
    ensures TimesOf(log + [e]) == TimesOf(log) + [e.detectedAt]
  {}

  lemma TimedStep(t: Track, log: seq<Event>, cfg: Config, deviceId: Text, o: Observation)
    requires Timed(t, log) && VerdictOf(t, o) == ACCEPTED
    ensures Timed(Observe(t, cfg, deviceId, o), log + [NewEvent(t, cfg, deviceId, o)])
  {
    hide Prune, Insert;
    TimesGrow(log, NewEvent(t, cfg, deviceId, o));
    PruneKeepsSuffix(t.history, TimesOf(log), o.at - cfg.rateWindow);
    AppendKeepsSuffix(Prune(t.history, o.at - cfg.rateWindow), TimesOf(log), o.at);
  }

  /** In every reachable track, whatever the order of the offers' times. */
  lemma {:induction false} EveryRun(inputs: seq<Input>, cfg: Config, deviceId: Text)
    ensures var t, log := Run(inputs, cfg, deviceId), Accepted(inputs, cfg, deviceId);
      Remembers(t, log, cfg, deviceId) && Located(t, log, FirstDomain(inputs)) && Timed(t, log)
  {
    hide Observe, NewEvent, Prune, Remembers, Located, Timed;
    if inputs == [] {
      FreshKeeps(cfg, deviceId);
    } else {
      var n := |inputs| - 1;
      EveryRun(inputs[..n], cfg, deviceId);
      InputKeeps(Run(inputs[..n], cfg, deviceId), Accepted(inputs[..n], cfg, deviceId), FirstDomain(inputs[..n]),
                 cfg, deviceId, inputs[n]);
    }
  }

  lemma FreshKeeps(cfg: Config, deviceId: Text)
    ensures Remembers(FreshTrack, [], cfg, deviceId) && Located(FreshTrack, [], None) && Timed(FreshTrack, [])
  {}

  lemma InputKeeps(t: Track, log: seq<Event>, first: Option<AccessDomain>, cfg: Config, deviceId: Text, i: Input)
    requires Remembers(t, log, cfg, deviceId) && Located(t, log, first) && Timed(t, log)
    ensures var u := Next(t, cfg, deviceId, i);
      var grown := log + if i.Offer? && VerdictOf(t, i.o) == ACCEPTED then [NewEvent(t, cfg, deviceId, i.o)] else [];
      var start := if first.Some? then first else if i.Offer? then Some(i.o.domain) else None;
      Remembers(u, grown, cfg, deviceId) && Located(u, grown, start) && Timed(u, grown)
  {
    if i.Offer? && VerdictOf(t, i.o) == ACCEPTED {
      assert first.Some?;
      RemembersStep(t, log, cfg, deviceId, i.o);
      LocatedStep(t, log, first, cfg, deviceId, i.o);
      TimedStep(t, log, cfg, deviceId, i.o);
    } else {
      assert log + [] == log;
      QuietKeeps(t, log, first, cfg, deviceId, i);
    }
  }

  lemma QuietKeeps(t: Track, log: seq<Event>, first: Option<AccessDomain>, cfg: Config, deviceId: Text, i: Input)
    requires Remembers(t, log, cfg, deviceId) && Located(t, log, first) && Timed(t, log)
    requires i.Offer? ==> VerdictOf(t, i.o) != ACCEPTED
    ensures var u := Next(t, cfg, deviceId, i);
      var start := if first.Some? then first else if i.Offer? then Some(i.o.domain) else None;
      Remembers(u, log, cfg, deviceId) && Located(u, log, start) && Timed(u, log)
  {
    hide Observe, Remembers, Located, Timed;
    match i
    case Offer(o) => QuietOffer(t, log, first, cfg, deviceId, o);
    case CountAt(at) => QueryKeeps(t, log, first, cfg, deviceId, at);
    case ContextAt(at) => QueryKeeps(t, log, first, cfg, deviceId, at);
  }

  lemma QuietOffer(t: Track, log: seq<Event>, first: Option<AccessDomain>, cfg: Config, deviceId: Text, o: Observation)
    requires Remembers(t, log, cfg, deviceId) && Located(t, log, first) && Timed(t, log)
    requires VerdictOf(t, o) != ACCEPTED
    ensures var u := Observe(t, cfg, deviceId, o);
      var start := if first.Some? then first else Some(o.domain);
      Remembers(u, log, cfg, deviceId) && Located(u, log, start) && Timed(u, log)
  {
    hide Chained, Numbered, Ascending, TimesOf, IsSuffix, Last, Insert, Prune;
  }

  lemma QueryKeeps(t: Track, log: seq<Event>, first: Option<AccessDomain>, cfg: Config, deviceId: Text, at: Instant)
    requires Remembers(t, log, cfg, deviceId) && Located(t, log, first) && Timed(t, log)
    ensures var u := Counted(t, cfg, at);
      Remembers(u, log, cfg, deviceId) && Located(u, log, first) && Timed(u, log)
  {
    hide Chained, Numbered, Ascending, TimesOf, Last, Prune, CrossCount;
    PruneKeepsSuffix(t.history, TimesOf(log), at - cfg.rateWindow);
  }

  // -- exact windows, in any order of times --------------------------------------------

  /** What a run has done to the deque: every accepted offer adds its time, every count and every context asked while
      the last transition was recent prunes; rejected offers and other queries never reach it. */
  function CallsOf(inputs: seq<Input>, cfg: Config, deviceId: Text): seq<Call> {
    if inputs == [] then []
    else
      var n := |inputs| - 1;
      CallsOf(inputs[..n], cfg, deviceId) + CallOf(Run(inputs[..n], cfg, deviceId), cfg, inputs[n])
  }

  function CallOf(t: Track, cfg: Config, i: Input): seq<Call> {
    match i
    case Offer(o) => if VerdictOf(t, o) == ACCEPTED then [Add(o.at)] else []
    case CountAt(at) => [Trim(at)]
    case ContextAt(at) => if IsRecent(t, cfg, at) then [Trim(at)] else []
  }

  /** The track's deque is what those calls leave, and the times they added are those of the accepted events. */
  lemma {:induction false} HistoryIsDeque(inputs: seq<Input>, cfg: Config, deviceId: Text)
    ensures Run(inputs, cfg, deviceId).history == Deque(CallsOf(inputs, cfg, deviceId), cfg.rateWindow)
    ensures TimesOf(Accepted(inputs, cfg, deviceId)) == Added(CallsOf(inputs, cfg, deviceId))
  {
    hide Next, TimesOf, Deque, Added;
    if inputs == [] {
      NoCalls(cfg);
    } else {
      var n := |inputs| - 1;
      var t, calls := Run(inputs[..n], cfg, deviceId), CallsOf(inputs[..n], cfg, deviceId);
      HistoryIsDeque(inputs[..n], cfg, deviceId);
      CallsStep(t, calls, cfg, deviceId, inputs[n]);
      var log := Accepted(inputs[..n], cfg, deviceId);
      if inputs[n].Offer? && VerdictOf(t, inputs[n].o) == ACCEPTED {
        TimesGrow(log, NewEvent(t, cfg, deviceId, inputs[n].o));
      } else {
        assert log + [] == log;
      }
    }
  }

  /** What one input does to the deque is what its calls do. */
  lemma CallsStep(t: Track, calls: seq<Call>, cfg: Config, deviceId: Text, i: Input)
    requires t.history == Deque(calls, cfg.rateWindow)
    ensures Next(t, cfg, deviceId, i).history == Deque(calls + CallOf(t, cfg, i), cfg.rateWindow)
    ensures Added(calls + CallOf(t, cfg, i))
         == Added(calls) + if i.Offer? && VerdictOf(t, i.o) == ACCEPTED then [i.o.at] else []
  {
    hide Prune, Insert, Deque, Added, VerdictOf, IsRecent;
    var made := CallOf(t, cfg, i);
    NothingAppended(Prune(t.history, At(i) - cfg.rateWindow), Added(calls));
    if made != [] {
      OneMoreCall(calls, made[0], cfg.rateWindow);
      assert calls + made == calls + [made[0]];
    } else {
      assert calls + made == calls;
    }
  }

  lemma NoCalls(cfg: Config)
    ensures Deque([], cfg.rateWindow) == [] && Added([]) == [] && TimesOf([]) == []
  {}

  lemma NothingAppended(a: seq<Instant>, b: seq<Instant>)
    ensures a + [] == a && b + [] == b
  {}

  /** For every run, in any order of times: an accepted time is still in the deque exactly when no later accepted offer,
      count or recent context query has a window that begins after it. */
  lemma RetainedIff(inputs: seq<Input>, cfg: Config, deviceId: Text, p: nat)
    requires p < |CallsOf(inputs, cfg, deviceId)| && CallsOf(inputs, cfg, deviceId)[p].Add?
    ensures var calls, k := CallsOf(inputs, cfg, deviceId), Rank(CallsOf(inputs, cfg, deviceId), p);
      && k < |Accepted(inputs, cfg, deviceId)|
      && Accepted(inputs, cfg, deviceId)[k].detectedAt == calls[p].at
      && (k + |Run(inputs, cfg, deviceId).history| >= |Accepted(inputs, cfg, deviceId)|
          <==> Standing(calls, cfg.rateWindow, p))
  {
    hide Run, Accepted, CallsOf, Deque, Added, Standing;
    var calls := CallsOf(inputs, cfg, deviceId);
    HistoryIsDeque(inputs, cfg, deviceId);
    EveryRun(inputs, cfg, deviceId);
    RankedAt(calls, p);
    KeptIffStanding(calls, cfg.rateWindow, p);
  }

  /** Whatever has been pruned is older than the window of any call that is not earlier than all calls so far. */
  lemma HistoryRetains(inputs: seq<Input>, cfg: Config, deviceId: Text, now: Instant)
    requires forall i | 0 <= i < |inputs| :: At(inputs[i]) <= now
    ensures var t, log := Run(inputs, cfg, deviceId), Accepted(inputs, cfg, deviceId);
      && Retains(t.history, TimesOf(log), now - cfg.rateWindow)
      && forall i | 0 <= i < |log| :: log[i].detectedAt <= now
  {
    hide Run, Accepted, CallsOf, Deque, Added, Retains;
    var calls, log := CallsOf(inputs, cfg, deviceId), Accepted(inputs, cfg, deviceId);
    HistoryIsDeque(inputs, cfg, deviceId);
    CallsNoLater(inputs, cfg, deviceId, now);
    CutIsOld(calls, cfg.rateWindow, now);
    AddedNoLater(calls, now);
    assert forall i | 0 <= i < |log| :: TimesOf(log)[i] == log[i].detectedAt;
  }

  /** What the query at q leaves is exactly the accepted times of [q - rate_window, q]. */
  ghost predicate WindowExact(inputs: seq<Input>, cfg: Config, deviceId: Text, q: Instant) {
    Exact(CallsOf(inputs, cfg, deviceId), cfg.rateWindow, q)
  }

  /** `transitions_in_window(at=q)`, for every run, in any order of times: it finds exactly its window exactly when no
      accepted time of the window was passed by a later pruning call and every accepted time after q was. And then the
      number it returns is the window's. */
  lemma WindowIsExactIff(inputs: seq<Input>, cfg: Config, deviceId: Text, q: Instant)
    requires cfg.rateWindow >= 0
    ensures var calls := CallsOf(inputs, cfg, deviceId);
      WindowExact(inputs, cfg, deviceId, q)
      <==> NoneLost(calls, cfg.rateWindow, q) && NoneAhead(calls, cfg.rateWindow, q)
    ensures WindowExact(inputs, cfg, deviceId, q) ==>
      |Counted(Run(inputs, cfg, deviceId), cfg, q).history|
        == Count(TimesOf(Accepted(inputs, cfg, deviceId)), q - cfg.rateWindow, q)
  {
    hide Prune, Count, Run, Accepted, CallsOf, Deque, Added, NoneLost, NoneAhead, Exact;
    var calls := CallsOf(inputs, cfg, deviceId);
    EveryRun(inputs, cfg, deviceId);
    HistoryIsDeque(inputs, cfg, deviceId);
    ExactIff(calls, cfg.rateWindow, q);
    OneMoreCall(calls, Trim(q), cfg.rateWindow);
    if Exact(calls, cfg.rateWindow, q) {
      ExactCounts(calls, cfg.rateWindow, q);
    }
  }

  /** In particular whenever q is not earlier than any call so far, in whatever order those came. */
  lemma WindowIsExact(inputs: seq<Input>, cfg: Config, deviceId: Text, q: Instant)
    requires cfg.rateWindow >= 0 && forall i | 0 <= i < |inputs| :: At(inputs[i]) <= q
    ensures WindowExact(inputs, cfg, deviceId, q)
    ensures |Counted(Run(inputs, cfg, deviceId), cfg, q).history|
         == Count(TimesOf(Accepted(inputs, cfg, deviceId)), q - cfg.rateWindow, q)
  {
    hide Prune, Count, Run, Accepted, CallsOf, Deque, Added, Exact;
    var calls := CallsOf(inputs, cfg, deviceId);
    EveryRun(inputs, cfg, deviceId);
    HistoryIsDeque(inputs, cfg, deviceId);
    CallsNoLater(inputs, cfg, deviceId, q);
    LateIsExact(calls, cfg.rateWindow, q);
    WindowIsExactIff(inputs, cfg, deviceId, q);
  }

  lemma {:induction false} CallsNoLater(inputs: seq<Input>, cfg: Config, deviceId: Text, q: Instant)
    requires forall i | 0 <= i < |inputs| :: At(inputs[i]) <= q
    ensures NoneLater(CallsOf(inputs, cfg, deviceId), q)
  {
    hide Run;
    if inputs != [] { CallsNoLater(inputs[..|inputs| - 1], cfg, deviceId, q); }
  }

  /** Each event carries the exact count of its own instant, itself included, exactly when no earlier call, a query
      about a later instant, has cut a time of its window; offers among themselves never do. */
  lemma EventCountIsExactIff(inputs: seq<Input>, cfg: Config, deviceId: Text, o: Observation)
    requires VerdictOf(Run(inputs, cfg, deviceId), o) == ACCEPTED && cfg.rateWindow >= 0
    ensures var e := NewEvent(Run(inputs, cfg, deviceId), cfg, deviceId, o);
      && (e.transitionsInWindow == Count(TimesOf(Accepted(inputs, cfg, deviceId) + [e]), o.at - cfg.rateWindow, o.at)
          <==> NoneLost(CallsOf(inputs, cfg, deviceId), cfg.rateWindow, o.at))
      && (e.repeated <==> e.transitionsInWindow >= cfg.repeatThreshold)
  {
    hide Prune, Run, Accepted, CallsOf, NoneLost, Deque, Added, Located, Remembers;
    var t, log, calls := Run(inputs, cfg, deviceId), Accepted(inputs, cfg, deviceId), CallsOf(inputs, cfg, deviceId);
    EveryRun(inputs, cfg, deviceId);
    HistoryIsDeque(inputs, cfg, deviceId);
    assert Timed(t, log);
    assert forall i | 0 <= i < |log| :: TimesOf(log)[i] <= o.at;
    CountIffNoneLost(calls, cfg.rateWindow, o.at);
    OneMoreCall(calls, Trim(o.at), cfg.rateWindow);
    var e := NewEvent(t, cfg, deviceId, o);
    TimesGrow(log, e);
    assert (TimesOf(log) + [o.at])[..|TimesOf(log)|] == TimesOf(log);
  }

  /** So it does when no query so far was about a later instant. */
  lemma EventCountIsExact(inputs: seq<Input>, cfg: Config, deviceId: Text, o: Observation)
    requires VerdictOf(Run(inputs, cfg, deviceId), o) == ACCEPTED && cfg.rateWindow >= 0
    requires forall i | 0 <= i < |inputs| && !inputs[i].Offer? :: At(inputs[i]) <= o.at
    ensures var e := NewEvent(Run(inputs, cfg, deviceId), cfg, deviceId, o);
      e.transitionsInWindow == Count(TimesOf(Accepted(inputs, cfg, deviceId) + [e]), o.at - cfg.rateWindow, o.at)
  {
    hide Run, Accepted, CallsOf, NoneLost, Deque, Added, Located, Remembers, Count, NewEvent;
    EventCountIsExactIff(inputs, cfg, deviceId, o);
    var t, log, calls := Run(inputs, cfg, deviceId), Accepted(inputs, cfg, deviceId), CallsOf(inputs, cfg, deviceId);
    EveryRun(inputs, cfg, deviceId);
    HistoryIsDeque(inputs, cfg, deviceId);
    assert forall i | 0 <= i < |log| :: TimesOf(log)[i] <= o.at by { assert Timed(t, log); }
    TrimsNoLater(inputs, cfg, deviceId, o.at);
    AddsAndTrims(calls, o.at);
    LateIsExact(calls, cfg.rateWindow, o.at);
  }

  lemma {:induction false} TrimsNoLater(inputs: seq<Input>, cfg: Config, deviceId: Text, q: Instant)
    requires forall i | 0 <= i < |inputs| && !inputs[i].Offer? :: At(inputs[i]) <= q
    ensures forall m | 0 <= m < |CallsOf(inputs, cfg, deviceId)| && CallsOf(inputs, cfg, deviceId)[m].Trim? ::
      CallsOf(inputs, cfg, deviceId)[m].at <= q
  {
    hide Run;
    if inputs != [] { TrimsNoLater(inputs[..|inputs| - 1], cfg, deviceId, q); }
  }

  // -- runs in which the window is not exact ---------------------------------------------

  const MINUTE: Config := Config(60, 2, 30, 64)

  function Sighting(domain: AccessDomain, at: Instant): Input {
    Offer(Observation(domain, None, at, None, 0))
  }

  /** A query about instant 1000 prunes for good: asked about instant 20 afterwards, the collector counts 0 transitions
      in [-40, 20] although it accepted one at instant 10. */
  lemma FutureQueryLoses()
    ensures var inputs := [Sighting(NR, 0), Sighting(WLAN, 10), CountAt(1000)];
      && |Counted(Run(inputs, MINUTE, []), MINUTE, 20).history| == 0
      && Count(TimesOf(Accepted(inputs, MINUTE, [])), -40, 20) == 1
      && !WindowExact(inputs, MINUTE, [], 20)
  {
    hide Run, Accepted, WindowExact, Count;
    var two := [Sighting(NR, 0), Sighting(WLAN, 10)];
    var inputs := [Sighting(NR, 0), Sighting(WLAN, 10), CountAt(1000)];
    assert inputs == two + [CountAt(1000)];
    TwoSightings(10);
    AfterQuery(two, MINUTE, [], 1000);
    assert Prune([10], 940) == [] && Prune([], -40) == [];
    OneTime(10, -40, 20);
    Miscounted(inputs, MINUTE, [], 20);
  }

  lemma AfterQuery(inputs: seq<Input>, cfg: Config, deviceId: Text, at: Instant)
    ensures var asked := inputs + [CountAt(at)];
      && Run(asked, cfg, deviceId) == Counted(Run(inputs, cfg, deviceId), cfg, at)
      && Accepted(asked, cfg, deviceId) == Accepted(inputs, cfg, deviceId)
  {
    hide Prune;
    assert (inputs + [CountAt(at)])[..|inputs|] == inputs;
  }

  lemma Miscounted(inputs: seq<Input>, cfg: Config, deviceId: Text, q: Instant)
    requires cfg.rateWindow >= 0
    requires |Counted(Run(inputs, cfg, deviceId), cfg, q).history|
          != Count(TimesOf(Accepted(inputs, cfg, deviceId)), q - cfg.rateWindow, q)
    ensures !WindowExact(inputs, cfg, deviceId, q)
  {
    hide Run, Accepted, WindowExact, Count, Counted;
    WindowIsExactIff(inputs, cfg, deviceId, q);
  }

  /** And a query about an instant before the last transition counts what lies ahead of it. */
  lemma PastQueryCountsAhead()
    ensures var inputs := [Sighting(NR, 0), Sighting(WLAN, 100)];
      && |Counted(Run(inputs, MINUTE, []), MINUTE, 50).history| == 1
      && Count(TimesOf(Accepted(inputs, MINUTE, [])), -10, 50) == 0
      && !WindowExact(inputs, MINUTE, [], 50)
  {
    hide Run, Accepted, WindowExact, Count;
    TwoSightings(100);
    assert Prune([100], -10) == [100];
    OneTime(100, -10, 50);
    Miscounted([Sighting(NR, 0), Sighting(WLAN, 100)], MINUTE, [], 50);
  }

  lemma TwoSightings(at: Instant)
    requires at >= 0
    ensures var inputs := [Sighting(NR, 0), Sighting(WLAN, at)];
      && Run(inputs, MINUTE, []).history == [at] && TimesOf(Accepted(inputs, MINUTE, [])) == [at]
  {
    var one, inputs := [Sighting(NR, 0)], [Sighting(NR, 0), Sighting(WLAN, at)];
    assert one[..0] == [] && inputs[..1] == one;
    assert Run([], MINUTE, []) == FreshTrack && Accepted([], MINUTE, []) == [];
    assert Run(one, MINUTE, []) == FreshTrack.(currentDomain := Some(NR), lastObservedAt := Some(0));
    assert Accepted(one, MINUTE, []) == [];
    assert VerdictOf(Run(one, MINUTE, []), inputs[1].o) == ACCEPTED;
  }

  lemma OneTime(at: Instant, from: Instant, to: Instant)
    ensures Count([at], from, to) == if from <= at <= to then 1 else 0
  {
    assert [at][..0] == [];
  }
}
