/** The transition collector over all devices (collectors/transition.py): a track per device, updated in place, and a
    global index of the remembered events. */
module Collector {
  import opened Base
  import opened Window
  import opened Policy
  import opened Bindings
  import opened Transitions

  /** The collector's state as a value. */
  datatype State = State(tracks: map<Text, Track>, byId: map<nat, Transitions.Event>)

  function TrackOf(s: State, deviceId: Text): Track {
    if deviceId in s.tracks then s.tracks[deviceId] else FreshTrack
  }

  /** `_corroborate`: the live binding of the address in the claimed domain. */
  function EvidenceFor(store: Option<Store>, domain: AccessDomain, address: Option<Text>, now: Instant): Option<nat> {
    if store.None? || address.None? then None
    else
      match Live(store.value, address.value, now)
      case None => None
      case Some(binding) => if binding.domain == domain then Some(binding.id) else None
  }

  /** The index after the track accepted an event: the new one added, the evicted one removed. */
  function Reindex(byId: map<nat, Transitions.Event>, transitions: seq<Transitions.Event>, e: Transitions.Event,
                   limit: nat)
    : map<nat, Transitions.Event>
  {
    if |transitions| + 1 > limit then byId[e.id := e] - {(transitions + [e])[0].id} else byId[e.id := e]
  }

  /** `observe_detailed`. */
  function ObserveIn(s: State, cfg: Config, deviceId: Text, o: Observation): State {
    var t := TrackOf(s, deviceId);
    State(s.tracks[deviceId := Observe(t, cfg, deviceId, o)],
          if VerdictOf(t, o) == ACCEPTED
          then Reindex(s.byId, t.transitions, NewEvent(t, cfg, deviceId, o), cfg.historyLimit) else s.byId)
  }

  function CountIn(s: State, cfg: Config, deviceId: Text, at: Instant): State {
    if deviceId in s.tracks then s.(tracks := s.tracks[deviceId := Counted(s.tracks[deviceId], cfg, at)]) else s
  }

  function ContextIn(s: State, cfg: Config, deviceId: Text, at: Instant): State {
    if deviceId in s.tracks then s.(tracks := s.tracks[deviceId := Contexted(s.tracks[deviceId], cfg, at)]) else s
  }

  function Ids(transitions: seq<Transitions.Event>): set<nat> {
    set i | 0 <= i < |transitions| :: transitions[i].id
  }

  /** `reset(device_id)`. */
  function ResetIn(s: State, deviceId: Text): State {
    if deviceId in s.tracks then State(s.tracks - {deviceId}, s.byId - Ids(s.tracks[deviceId].transitions)) else s
  }

  datatype Operation =
    | Observed(deviceId: Text, o: Observation) | CountedAt(deviceId: Text, at: Instant)
    | ContextAsked(deviceId: Text, at: Instant)
    | ResetDevice(deviceId: Text) | ResetAll

  function Operate(s: State, cfg: Config, op: Operation): State {
    match op
    case Observed(d, o) => ObserveIn(s, cfg, d, o)
    case CountedAt(d, at) => CountIn(s, cfg, d, at)
    case ContextAsked(d, at) => ContextIn(s, cfg, d, at)
    case ResetDevice(d) => ResetIn(s, d)
    case ResetAll => State(map[], map[])
  }

  function OperateAll(ops: seq<Operation>, cfg: Config): State {
    if ops == [] then State(map[], map[]) else Operate(OperateAll(ops[..|ops| - 1], cfg), cfg, ops[|ops| - 1])
  }

  // -- the index is the disjoint union of the tracks' dictionaries -----------------------------

  ghost predicate TrackIndexed(transitions: seq<Transitions.Event>, deviceId: Text, byId: map<nat, Transitions.Event>) {
    && (forall i | 0 <= i < |transitions| ::
          && transitions[i].deviceId == deviceId
          && transitions[i].id in byId && byId[transitions[i].id] == transitions[i])
    && (forall i, j | 0 <= i < j < |transitions| :: transitions[i].id != transitions[j].id)
  }

  /** Every remembered event of every device is found by its identifier, and nothing else is. As events carry their
      device, no identifier is shared between devices. */
  ghost predicate Indexed(s: State) {
    && (forall d | d in s.tracks :: TrackIndexed(s.tracks[d].transitions, d, s.byId))
    && (forall id | id in s.byId ::
          var e := s.byId[id];
          e.id == id && e.deviceId in s.tracks && e in s.tracks[e.deviceId].transitions)
  }

  /** What one accepted event does to its own track's part of the index. */
  lemma InsertIndexed(transitions: seq<Transitions.Event>, d: Text, byId: map<nat, Transitions.Event>,
                      e: Transitions.Event, limit: nat)
    requires TrackIndexed(transitions, d, byId) && e.deviceId == d && e.id !in byId
    ensures TrackIndexed(Insert(transitions, e, limit), d, Reindex(byId, transitions, e, limit))
  {
    var all := transitions + [e];
    assert TrackIndexed(all, d, byId[e.id := e]);
    if |transitions| + 1 > limit {
      assert forall i | 0 <= i < |all[1..]| :: all[1..][i] == all[i + 1];
    }
  }

  /** Other tracks keep their part: the new identifier is fresh and the evicted one belonged to this track. */
  lemma OthersIndexed(others: seq<Transitions.Event>, other: Text, transitions: seq<Transitions.Event>, d: Text,
                      byId: map<nat, Transitions.Event>, e: Transitions.Event, limit: nat)
    requires TrackIndexed(others, other, byId) && TrackIndexed(transitions, d, byId)
    requires other != d && e.deviceId == d && e.id !in byId
    ensures TrackIndexed(others, other, Reindex(byId, transitions, e, limit))
  {
    var evicted := (transitions + [e])[0];
    assert forall i | 0 <= i < |others| :: others[i].id != e.id && others[i].id != evicted.id;
  }

  lemma IndexedBack(transitions: seq<Transitions.Event>, d: Text, byId: map<nat, Transitions.Event>,
                    e: Transitions.Event, limit: nat, id: nat)
    requires TrackIndexed(transitions, d, byId) && e.deviceId == d && e.id !in byId
    requires id in Reindex(byId, transitions, e, limit)
    requires id in byId ==> byId[id].id == id && (byId[id].deviceId == d ==> byId[id] in transitions)
    ensures var f := Reindex(byId, transitions, e, limit)[id];
      && f.id == id && (f.deviceId == d ==> f in Insert(transitions, e, limit))
      && (id != e.id ==> id in byId && f == byId[id])
  {
    var all := transitions + [e];
    var f := Reindex(byId, transitions, e, limit)[id];
    if f.deviceId == d {
      var i := |transitions|;
      if id != e.id {
        i :| 0 <= i < |transitions| && transitions[i] == f;
      }
      assert all[i] == f;
      if |transitions| + 1 > limit {
        assert i != 0;
        assert all[1..][i - 1] == f;
      }
    }
  }

  lemma ObserveKeepsIndex(s: State, cfg: Config, deviceId: Text, o: Observation)
    requires Indexed(s) && o.id !in s.byId
    ensures Indexed(ObserveIn(s, cfg, deviceId, o))
  {
    var t := TrackOf(s, deviceId);
    var after := ObserveIn(s, cfg, deviceId, o);
    assert TrackIndexed(t.transitions, deviceId, s.byId);
    if VerdictOf(t, o) == ACCEPTED {
      AcceptKeepsIndex(s, cfg, deviceId, NewEvent(t, cfg, deviceId, o), after);
    } else {
      assert after.tracks[deviceId].transitions == t.transitions;
      SameTransitions(s, after);
    }
  }

  lemma SameTransitions(s: State, after: State)
    requires Indexed(s) && after.byId == s.byId
    requires s.tracks.Keys <= after.tracks.Keys
    requires forall d | d in after.tracks :: after.tracks[d].transitions == TrackOf(s, d).transitions
    ensures Indexed(after)
  {}

  lemma AcceptKeepsIndex(s: State, cfg: Config, deviceId: Text, e: Transitions.Event, after: State)
    requires Indexed(s) && e.id !in s.byId && e.deviceId == deviceId
    requires after.byId == Reindex(s.byId, TrackOf(s, deviceId).transitions, e, cfg.historyLimit)
    requires after.tracks.Keys == s.tracks.Keys + {deviceId}
    requires after.tracks[deviceId].transitions == Insert(TrackOf(s, deviceId).transitions, e, cfg.historyLimit)
    requires forall d | d in s.tracks && d != deviceId :: after.tracks[d] == s.tracks[d]
    ensures Indexed(after)
  {
    hide Reindex, Insert, TrackIndexed;
    var transitions := TrackOf(s, deviceId).transitions;
    assert TrackIndexed(transitions, deviceId, s.byId) by { NothingIndexed(deviceId, s.byId); }
    InsertIndexed(transitions, deviceId, s.byId, e, cfg.historyLimit);
    forall d | d in after.tracks
      ensures TrackIndexed(after.tracks[d].transitions, d, after.byId)
    {
      if d != deviceId {
        OthersIndexed(s.tracks[d].transitions, d, transitions, deviceId, s.byId, e, cfg.historyLimit);
      }
    }
    forall id | id in after.byId
      ensures var f := after.byId[id];
        f.id == id && f.deviceId in after.tracks && f in after.tracks[f.deviceId].transitions
    {
      IndexedBack(transitions, deviceId, s.byId, e, cfg.historyLimit, id);
      if id == e.id { NewIsIndexed(s.byId, transitions, e, cfg.historyLimit); }
    }
  }

  lemma NothingIndexed(deviceId: Text, byId: map<nat, Transitions.Event>)
    ensures TrackIndexed([], deviceId, byId)
  {}

  lemma NewIsIndexed(byId: map<nat, Transitions.Event>, transitions: seq<Transitions.Event>, e: Transitions.Event,
                     limit: nat)
    requires e.id in Reindex(byId, transitions, e, limit)
    ensures Reindex(byId, transitions, e, limit)[e.id] == e
  {}

  lemma ResetKeepsIndex(s: State, deviceId: Text)
    requires Indexed(s)
    ensures Indexed(ResetIn(s, deviceId))
  {
    if deviceId in s.tracks {
      var gone := s.tracks[deviceId].transitions;
      var after := ResetIn(s, deviceId);
      assert TrackIndexed(gone, deviceId, s.byId);
      forall d | d in after.tracks
        ensures TrackIndexed(after.tracks[d].transitions, d, after.byId)
      {
        RemovedOthersIndexed(s.tracks[d].transitions, d, gone, deviceId, s.byId);
      }
      forall id | id in after.byId
        ensures var e := after.byId[id];
          e.id == id && e.deviceId in after.tracks && e in after.tracks[e.deviceId].transitions
      {
        assert s.byId[id].deviceId != deviceId;
      }
    }
  }

  lemma RemovedOthersIndexed(others: seq<Transitions.Event>, other: Text, gone: seq<Transitions.Event>, d: Text,
                             byId: map<nat, Transitions.Event>)
    requires TrackIndexed(others, other, byId) && TrackIndexed(gone, d, byId) && other != d
    ensures TrackIndexed(others, other, byId - Ids(gone))
  {
    assert forall i | 0 <= i < |others| :: others[i].id !in Ids(gone);
  }

  lemma OperationKeepsIndex(s: State, cfg: Config, op: Operation)
    requires Indexed(s) && (op.Observed? ==> op.o.id !in s.byId)
    ensures Indexed(Operate(s, cfg, op))
  {
    match op
    case Observed(d, o) => ObserveKeepsIndex(s, cfg, d, o);
    case CountedAt(d, at) => if d in s.tracks { SameTransitions(s, CountIn(s, cfg, d, at)); }
    case ContextAsked(d, at) => if d in s.tracks { SameTransitions(s, ContextIn(s, cfg, d, at)); }
    case ResetDevice(d) => ResetKeepsIndex(s, d);
    case ResetAll =>
  }

  /** Every identifier is one the index does not hold when it is drawn. */
  ghost predicate FreshIds(ops: seq<Operation>, cfg: Config) {
    forall n | 0 <= n < |ops| && ops[n].Observed? :: ops[n].o.id !in OperateAll(ops[..n], cfg).byId
  }

  // -- each device on its own -----------------------------------------------------------

  /** What the operations mean for one device since it was last reset. */
  function InputsOf(ops: seq<Operation>, deviceId: Text): seq<Input> {
    if ops == [] then []
    else
      var before := InputsOf(ops[..|ops| - 1], deviceId);
      match ops[|ops| - 1]
      case Observed(d, o) => if d == deviceId then before + [Offer(o)] else before
      case CountedAt(d, at) => if d == deviceId then before + [CountAt(at)] else before
      case ContextAsked(d, at) => if d == deviceId then before + [ContextAt(at)] else before
      case ResetDevice(d) => if d == deviceId then [] else before
      case ResetAll => []
  }

  lemma RunGrows(inputs: seq<Input>, i: Input, cfg: Config, deviceId: Text)
    ensures Run(inputs + [i], cfg, deviceId) == Transitions.Next(Run(inputs, cfg, deviceId), cfg, deviceId, i)
  {
    assert (inputs + [i])[..|inputs|] == inputs;
  }

  /** A device's track depends on nothing but the operations on that device since its last reset. */
  lemma {:induction false} DevicesAreIndependent(ops: seq<Operation>, cfg: Config, deviceId: Text)
    ensures TrackOf(OperateAll(ops, cfg), deviceId) == Run(InputsOf(ops, deviceId), cfg, deviceId)
  {
    hide Observe, Run;
    if ops == [] {
      NoInputs(cfg, deviceId);
    } else {
      var n := |ops| - 1;
      DevicesAreIndependent(ops[..n], cfg, deviceId);
      NoInputs(cfg, deviceId);
      var inputs := InputsOf(ops[..n], deviceId);
      match ops[n]
      case Observed(d, o) => RunGrows(inputs, Offer(o), cfg, deviceId);
      case CountedAt(d, at) => RunGrows(inputs, CountAt(at), cfg, deviceId);
      case ContextAsked(d, at) => RunGrows(inputs, ContextAt(at), cfg, deviceId);
      case ResetDevice(_) =>
      case ResetAll =>
    }
  }

  lemma NoInputs(cfg: Config, deviceId: Text)
    ensures Run([], cfg, deviceId) == FreshTrack
  {}

  /** In every reachable state: the index is exactly the tracks' dictionaries, and each track remembers the end of its
      own unbounded history, is where its events put it, and has a sorted deque of their times. */
  lemma {:induction false} EveryReachableState(ops: seq<Operation>, cfg: Config, deviceId: Text)
    requires FreshIds(ops, cfg)
    ensures Indexed(OperateAll(ops, cfg))
    ensures var t, inputs := TrackOf(OperateAll(ops, cfg), deviceId), InputsOf(ops, deviceId);
      var log := Accepted(inputs, cfg, deviceId);
      Remembers(t, log, cfg, deviceId) && Located(t, log, FirstDomain(inputs)) && Timed(t, log)
  {
    hide Operate, Remembers, Located, Timed, Indexed;
    DevicesAreIndependent(ops, cfg, deviceId);
    EveryRun(InputsOf(ops, deviceId), cfg, deviceId);
    IndexReachable(ops, cfg);
  }

  lemma {:induction false} IndexReachable(ops: seq<Operation>, cfg: Config)
    requires FreshIds(ops, cfg)
    ensures Indexed(OperateAll(ops, cfg))
  {
    hide Operate;
    if ops != [] {
      var n := |ops| - 1;
      assert forall m | 0 <= m < n :: ops[..n][..m] == ops[..m];
      IndexReachable(ops[..n], cfg);
      OperationKeepsIndex(OperateAll(ops[..n], cfg), cfg, ops[n]);
    }
  }

  // -- in place -------------------------------------------------------------

  /** `_DeviceTrack`. */
  class DeviceTrack {
    var currentDomain: Option<AccessDomain>
    var currentAddress: Option<Text>
    var lastObservedAt: Option<Instant>
    var lastTransition: Option<Transitions.Event>
    var history: seq<Instant>
    var sequence: nat
    var rejectedStale: nat
    var rejectedDuplicate: nat
    var uncorroborated: nat
    var transitions: seq<Transitions.Event>

    ghost function View(): Track
      reads this
    {
      Track(currentDomain, currentAddress, lastObservedAt, lastTransition, history, sequence,
            rejectedStale, rejectedDuplicate, uncorroborated, transitions)
    }

    constructor ()
      ensures View() == FreshTrack
    {
      currentDomain, currentAddress, lastObservedAt, lastTransition := None, None, None, None;
      history, sequence, rejectedStale, rejectedDuplicate, uncorroborated, transitions := [], 0, 0, 0, 0, [];
    }

    /** `_prune_history`. */
    method PruneHistory(now: Instant, window: int)
      modifies this`history
      ensures history == Prune(old(history), now - window)
    {
      var cutoff := now - window;
      while |history| > 0 && history[0] < cutoff
        invariant Prune(history, cutoff) == Prune(old(history), cutoff)
        decreases |history|
      {
        history := history[1..];
      }
    }
  }

  class TransitionCollector {
    const cfg: Config
    const bindings: BindingStore?
    var tracks: map<Text, DeviceTrack>
    var byId: map<nat, Transitions.Event>

    /** No two devices share a track. */
    ghost predicate Valid()
      reads this
    {
      forall d, e | d in tracks && e in tracks && d != e :: tracks[d] != tracks[e]
    }

    ghost function View(): State
      reads this, tracks.Values
    {
      State(map d | d in tracks :: tracks[d].View(), byId)
    }

    constructor (cfg: Config, bindings: BindingStore?)
      ensures Valid() && View() == State(map[], map[])
      ensures this.cfg == cfg && this.bindings == bindings && tracks == map[]
    {
      this.cfg, this.bindings := cfg, bindings;
      tracks, byId := map[], map[];
    }

    ghost function Evidence(domain: AccessDomain, address: Option<Text>, clockNow: Instant): Option<nat>
      reads bindings
    {
      EvidenceFor(if bindings == null then None else Some(bindings.byAddress), domain, address, clockNow)
    }

    /** `_corroborate`. */
    method Corroborate(domain: AccessDomain, address: Option<Text>, clockNow: Instant) returns (evidence: Option<nat>)
      ensures evidence == Evidence(domain, address, clockNow)
    {
      if bindings == null || address.None? {
        return None;
      }
      var binding := bindings.Get(address.value, clockNow);
      if binding.None? || binding.value.domain != domain {
        return None;
      }
      evidence := Some(binding.value.id);
    }

    /** `self._tracks.setdefault(device_id, _DeviceTrack())`. */
    method TrackFor(deviceId: Text) returns (track: DeviceTrack)
      requires Valid()
      modifies this`tracks
      ensures Valid() && deviceId in tracks && tracks[deviceId] == track
      ensures fresh(track) || track in old(tracks.Values)
      ensures forall d | d in old(tracks) :: d in tracks && tracks[d] == old(tracks)[d]
      ensures tracks.Keys == old(tracks.Keys) + {deviceId}
      ensures track.View() == TrackOf(old(View()), deviceId)
      ensures fresh(tracks.Values - old(tracks.Values))
    {
      if deviceId !in tracks {
        var created := new DeviceTrack();
        tracks := tracks[deviceId := created];
      }
      track := tracks[deviceId];
    }

    /** `observe_detailed`. `now` is the observation's instant, `clockNow` the clock the binding store reads, `freshId`
        the identifier a new event gets. */
    method ObserveDetailed(deviceId: Text, domain: AccessDomain, address: Option<Text>, now: Instant,
                           clockNow: Instant, freshId: nat)
      returns (verdict: Verdict, event: Option<Transitions.Event>)
      requires Valid()
      modifies this, tracks.Values
      ensures Valid() && fresh(tracks.Values - old(tracks.Values))
      ensures var o := Observation(domain, address, now, old(Evidence(domain, address, clockNow)), freshId);
        && View() == ObserveIn(old(View()), cfg, deviceId, o)
        && verdict == VerdictOf(TrackOf(old(View()), deviceId), o)
        && event == Reported(TrackOf(old(View()), deviceId), cfg, deviceId, o)
    {
      hide Observe, VerdictOf, Reported, Reindex, NewEvent, EvidenceFor;
      ghost var o := Observation(domain, address, now, Evidence(domain, address, clockNow), freshId);
      ghost var before := View();
      var track := TrackFor(deviceId);
      verdict, event := OfferTo(track, deviceId, domain, address, now, clockNow, freshId, o);
      OnlyTrackChanged(before, deviceId, track);
    }

    /** When every other track is as it was, the view differs at one device only. */
    lemma OnlyTrackChanged(before: State, deviceId: Text, track: DeviceTrack)
      requires deviceId in tracks && tracks[deviceId] == track && tracks.Keys == before.tracks.Keys + {deviceId}
      requires forall d | d in tracks && d != deviceId :: tracks[d].View() == before.tracks[d]
      ensures View().tracks == before.tracks[deviceId := track.View()]
    {}

    /** The body of `observe_detailed`, once the track is at hand. */
    method OfferTo(track: DeviceTrack, deviceId: Text, domain: AccessDomain, address: Option<Text>, now: Instant,
                   clockNow: Instant, freshId: nat,
                   ghost o: Observation)
      returns (verdict: Verdict, event: Option<Transitions.Event>)
      requires o == Observation(domain, address, now, Evidence(domain, address, clockNow), freshId)
      modifies this`byId, track
      ensures var t := old(track.View());
        && track.View() == Observe(t, cfg, deviceId, o)
        && verdict == VerdictOf(t, o) && event == Reported(t, cfg, deviceId, o)
        && byId == if verdict == ACCEPTED
                   then Reindex(old(byId), t.transitions, NewEvent(t, cfg, deviceId, o), cfg.historyLimit)
                   else old(byId)
    {
      hide Prune, Live, Insert, Reindex, EvidenceFor;
      ghost var before := track.View();
      if track.lastObservedAt.Some? && now < track.lastObservedAt.value {
        track.rejectedStale := track.rejectedStale + 1;
        return STALE, track.lastTransition;
      }
      var samePosition := track.currentDomain == Some(domain) && track.currentAddress == address;
      if samePosition && track.lastObservedAt == Some(now) {
        track.rejectedDuplicate := track.rejectedDuplicate + 1;
        return DUPLICATE, track.lastTransition;
      }
      var previousDomain, previousAddress := track.currentDomain, track.currentAddress;
      var previousAt := track.lastObservedAt;
      var domainChanged := previousDomain.Some? && previousDomain != Some(domain);
      var addressChanged :=
          previousDomain == Some(domain) && previousAddress.Some? && address.Some? && previousAddress != address;
      track.currentDomain := Some(domain);
      track.currentAddress := address;
      track.lastObservedAt := Some(now);
      if !(domainChanged || addressChanged) {
        return NO_CHANGE, None;
      }
      var e := Accept(track, deviceId, domain, address, now, clockNow, freshId, o,
                      previousDomain, previousAddress, previousAt, domainChanged, before);
      return ACCEPTED, Some(e);
    }

    /** The rest of `observe_detailed` for an accepted observation, whose position has already been stored. */
    method Accept(track: DeviceTrack, deviceId: Text, domain: AccessDomain, address: Option<Text>, now: Instant,
                  clockNow: Instant, freshId: nat,
                  ghost o: Observation, previousDomain: Option<AccessDomain>, previousAddress: Option<Text>,
                  previousAt: Option<Instant>, domainChanged: bool, ghost t: Track)
      returns (e: Transitions.Event)
      requires o == Observation(domain, address, now, Evidence(domain, address, clockNow), freshId)
      requires previousDomain == t.currentDomain && previousAddress == t.currentAddress
      requires previousAt == t.lastObservedAt
      requires domainChanged == DomainChanged(t, o) && VerdictOf(t, o) == ACCEPTED
      requires track.View() == t.(currentDomain := Some(domain), currentAddress := address, lastObservedAt := Some(now))
      modifies this`byId, track
      ensures track.View() == Observe(t, cfg, deviceId, o) && e == NewEvent(t, cfg, deviceId, o)
      ensures byId == Reindex(old(byId), t.transitions, e, cfg.historyLimit)
    {
      hide Prune, Live, Insert, Reindex, EvidenceFor;
      track.PruneHistory(now, cfg.rateWindow);
      track.history := track.history + [now];
      track.sequence := track.sequence + 1;
      var evidence := Corroborate(domain, address, clockNow);
      if evidence.None? {
        track.uncorroborated := track.uncorroborated + 1;
      }
      e := Transitions.Event.Event(
        freshId, deviceId, previousDomain, domain, if previousAt.Some? then previousAt.value else now,
        if evidence.Some? then Some(now) else None, now, if domainChanged then DOMAIN_CHANGE else ADDRESS_CHANGE,
        track.sequence, |track.history|, |track.history| >= cfg.repeatThreshold, domainChanged,
        evidence.Some?, if evidence.Some? then [evidence.value] else [], previousAddress, address);
      track.lastTransition := Some(e);
      Remember(track, e);
    }

    /** Insert the event in both dictionaries, evicting the oldest when the track is over its limit. */
    method Remember(track: DeviceTrack, e: Transitions.Event)
      modifies this`byId, track`transitions
      ensures track.transitions == Insert(old(track.transitions), e, cfg.historyLimit)
      ensures byId == Reindex(old(byId), old(track.transitions), e, cfg.historyLimit)
    {
      track.transitions := track.transitions + [e];
      byId := byId[e.id := e];
      if |track.transitions| > cfg.historyLimit {
        var oldest := track.transitions[0];
        track.transitions := track.transitions[1..];
        byId := byId - {oldest.id};
      }
    }

    /** `transitions_in_window`. */
    method TransitionsInWindow(deviceId: Text, now: Instant) returns (count: nat)
      requires Valid()
      modifies tracks.Values
      ensures Valid() && tracks == old(tracks) && View() == CountIn(old(View()), cfg, deviceId, now)
      ensures count == |TrackOf(View(), deviceId).history|
    {
      if deviceId !in tracks {
        return 0;
      }
      ghost var before := View();
      tracks[deviceId].PruneHistory(now, cfg.rateWindow);
      assert View().tracks == CountIn(before, cfg, deviceId, now).tracks;
      count := |tracks[deviceId].history|;
    }

    /** `last_transition`. */
    method LastTransition(deviceId: Text) returns (e: Option<Transitions.Event>)
      ensures e == TrackOf(View(), deviceId).lastTransition
    {
      e := if deviceId in tracks then tracks[deviceId].lastTransition else None;
    }

    /** `is_transition_recent`. */
    method IsTransitionRecent(deviceId: Text, now: Instant) returns (recent: bool)
      ensures recent == IsRecent(TrackOf(View(), deviceId), cfg, now)
    {
      var e := LastTransition(deviceId);
      recent := e.Some? && now - e.value.detectedAt <= cfg.transitionWindow;
    }

    /** `context_for`. */
    method ContextOf(deviceId: Text, now: Instant) returns (context: TransitionContext)
      requires Valid()
      modifies tracks.Values
      ensures Valid() && tracks == old(tracks) && View() == ContextIn(old(View()), cfg, deviceId, now)
      ensures context == ContextFor(TrackOf(old(View()), deviceId), cfg, now)
    {
      var last := LastTransition(deviceId);
      if last.None? || now - last.value.detectedAt > cfg.transitionWindow {
        assert deviceId in tracks ==> View().tracks == View().tracks[deviceId := TrackOf(View(), deviceId)];
        return NONE;
      }
      var e := last.value;
      var count := TransitionsInWindow(deviceId, now);
      if count >= cfg.repeatThreshold {
        return REPEATED;
      }
      if !e.crossDomain {
        return INTRA;
      }
      if e.fromDomain == Some(NR) && e.toDomain == WLAN {
        return NR_TO_WLAN;
      }
      if e.fromDomain == Some(WLAN) && e.toDomain == NR {
        return WLAN_TO_NR;
      }
      return INTRA;
    }

    /** `reset(device_id)`. */
    method ResetOne(deviceId: Text)
      requires Valid()
      modifies this
      ensures Valid() && View() == ResetIn(old(View()), deviceId)
    {
      if deviceId in tracks {
        ghost var before := View();
        var transitions := tracks[deviceId].transitions;
        tracks := tracks - {deviceId};
        ghost var ids := byId;
        var n := 0;
        while n < |transitions|
          invariant 0 <= n <= |transitions| && byId == ids - Ids(transitions[..n])
          invariant tracks == old(tracks) - {deviceId}
        {
          assert Ids(transitions[..n + 1]) == Ids(transitions[..n]) + {transitions[n].id};
          byId := byId - {transitions[n].id};
          n := n + 1;
        }
        assert transitions[..n] == transitions;
        assert View().tracks == ResetIn(before, deviceId).tracks;
      }
    }

    /** `reset()`. */
    method ResetEverything()
      modifies this
      ensures Valid() && View() == State(map[], map[])
    {
      tracks, byId := map[], map[];
    }
  }
}
