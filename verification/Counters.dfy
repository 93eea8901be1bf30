/** Security counters over a sliding window (evidence/counters.py). */
module Counters {
  import opened Base
  import opened Window
  import opened WindowRuns

  type Buckets = map<Text, seq<Instant>>

  function Bucket(buckets: Buckets, deviceId: Text): seq<Instant> {
    if deviceId in buckets then buckets[deviceId] else []
  }

  /** `record_authn_failure`: append, then prune. */
  function AddFailure(buckets: Buckets, deviceId: Text, at: Instant, window: int): Buckets {
    buckets[deviceId := Prune(Bucket(buckets, deviceId) + [at], at - window)]
  }

  /** `authn_failures` prunes what it counts. */
  function PruneFailures(buckets: Buckets, deviceId: Text, at: Instant, window: int): Buckets {
    if deviceId in buckets then buckets[deviceId := Prune(buckets[deviceId], at - window)] else buckets
  }

  datatype Event = Failed(deviceId: Text, at: Instant) | Asked(deviceId: Text, at: Instant)

  /** What the log means for one device's deque. No other device's events bear on it. */
  function CallsOf(log: seq<Event>, deviceId: Text): seq<Call> {
    if log == [] then []
    else
      var n := |log| - 1;
      CallsOf(log[..n], deviceId) +
      if log[n].deviceId != deviceId then [] else if log[n].Failed? then [Add(log[n].at)] else [Trim(log[n].at)]
  }

  /** The instants of the device's failures. */
  function Failures(log: seq<Event>, deviceId: Text): seq<Instant> {
    Added(CallsOf(log, deviceId))
  }

  /** The device's failures were recorded in the order of their instants. */
  ghost predicate InOrder(log: seq<Event>, deviceId: Text) {
    Ascending(Failures(log, deviceId))
  }

  ghost predicate DeviceHolds(buckets: Buckets, log: seq<Event>, deviceId: Text, window: int) {
    Bucket(buckets, deviceId) == Deque(CallsOf(log, deviceId), window)
  }

  /** Every device's bucket is what its own events leave, whatever the order of their instants. */
  ghost predicate AllHold(buckets: Buckets, log: seq<Event>, window: int) {
    forall d :: DeviceHolds(buckets, log, d, window)
  }

  lemma CallsGrow(log: seq<Event>, e: Event, deviceId: Text)
    ensures CallsOf(log + [e], deviceId) == CallsOf(log, deviceId) +
      if e.deviceId != deviceId then [] else [CallOf(e)]
  {
    assert (log + [e])[..|log|] == log;
  }

  function CallOf(e: Event): Call {
    if e.Failed? then Add(e.at) else Trim(e.at)
  }

  /** What the operation does to the buckets. */
  function Operate(buckets: Buckets, e: Event, window: int): Buckets {
    if e.Failed? then AddFailure(buckets, e.deviceId, e.at, window)
    else PruneFailures(buckets, e.deviceId, e.at, window)
  }

  lemma DeviceAfter(buckets: Buckets, log: seq<Event>, e: Event, deviceId: Text, window: int)
    requires DeviceHolds(buckets, log, deviceId, window) && window >= 0
    ensures DeviceHolds(Operate(buckets, e, window), log + [e], deviceId, window)
  {
    hide Prune, Deque, CallsOf, Operate, Bucket;
    CallsGrow(log, e, deviceId);
    var calls := CallsOf(log, deviceId);
    assert calls + [] == calls;
    OperateBucket(buckets, e, deviceId, window);
    if deviceId == e.deviceId {
      OneMoreCall(calls, CallOf(e), window);
    }
  }

  /** An operation touches its own device's bucket only: it prunes it, and a failure is added. */
  lemma OperateBucket(buckets: Buckets, e: Event, deviceId: Text, window: int)
    requires window >= 0
    ensures var before := Bucket(buckets, deviceId);
      Bucket(Operate(buckets, e, window), deviceId)
        == if deviceId == e.deviceId then Prune(before, e.at - window) + (if e.Failed? then [e.at] else []) else before
  {
    hide Prune;
    if deviceId == e.deviceId {
      var kept := Prune(Bucket(buckets, deviceId), e.at - window);
      AppendThenPrune(Bucket(buckets, deviceId), e.at, window);
      NothingToPrune(e.at - window);
      assert kept + [] == kept;
    }
  }

  lemma NothingToPrune(cutoff: Instant)
    ensures Prune([], cutoff) == []
  {}

  /** Every operation, at whatever instant, keeps every device's bucket what its own events leave. */
  lemma OperationHolds(buckets: Buckets, log: seq<Event>, e: Event, window: int)
    requires AllHold(buckets, log, window) && window >= 0
    ensures AllHold(Operate(buckets, e, window), log + [e], window)
  {
    hide DeviceHolds, Operate;
    var after, grown := Operate(buckets, e, window), log + [e];
    forall d ensures DeviceHolds(after, grown, d, window) {
      DeviceAfter(buckets, log, e, d, window);
    }
  }

  /** The number an operation reports is the number of the device's failures in its window, provided only that the
      device itself has named no later instant before: exactly when no failure older than the window is left behind a
      younger one, so always when the device's failures were recorded in order. */
  lemma ReportIsWindow(buckets: Buckets, log: seq<Event>, e: Event, window: int)
    requires DeviceHolds(buckets, log, e.deviceId, window) && window >= 0
    requires NoneLater(CallsOf(log, e.deviceId), e.at)
    ensures var d, from, grown := e.deviceId, e.at - window, log + [e];
      var left := Bucket(Operate(buckets, e, window), d);
      && (|left| == Count(Failures(grown, d), from, e.at) <==> forall i | 0 <= i < |left| :: left[i] >= from)
      && (InOrder(grown, d) ==> |left| == Count(Failures(grown, d), from, e.at))
  {
    hide Deque, Added, Count, CallsOf, Operate, Ascending;
    var calls, c := CallsOf(log, e.deviceId), CallOf(e);
    CallsGrow(log, e, e.deviceId);
    DeviceAfter(buckets, log, e, e.deviceId, window);
    LateCountIff(calls, c, window);
    if Ascending(Added(calls + [c])) {
      LateCount(calls, c, window);
    }
  }

  class SecurityCounters {
    const window: int
    var failures: Buckets
    var conflicts: map<Text, nat>
    ghost var log: seq<Event>

    /** Every bucket is what its own device's events leave. The settings ask for a window of at least a second. */
    ghost predicate Valid()
      reads this
    {
      window >= 0 ==> AllHold(failures, log, window)
    }

    constructor (window: int)
      ensures Valid() && failures == map[] && conflicts == map[] && log == [] && this.window == window
    {
      this.window := window;
      failures, conflicts, log := map[], map[], [];
    }

    /** What the returned number means: the device's failures in the window that ends now. */
    ghost predicate Reports(before: seq<Event>, e: Event, count: nat)
      reads this
    {
      window >= 0 && NoneLater(CallsOf(before, e.deviceId), e.at) ==>
        var d, from, bucket := e.deviceId, e.at - window, Bucket(failures, e.deviceId);
        var exact := count == Count(Failures(before + [e], d), from, e.at);
        (exact <==> forall i | 0 <= i < |bucket| :: bucket[i] >= from) && (InOrder(before + [e], d) ==> exact)
    }

    /** `record_authn_failure`. */
    method RecordAuthnFailure(deviceId: Text, at: Instant) returns (count: nat)
      requires Valid()
      modifies this
      ensures Valid() && log == old(log) + [Failed(deviceId, at)]
      ensures failures == AddFailure(old(failures), deviceId, at, window) && conflicts == old(conflicts)
      ensures count == |Bucket(failures, deviceId)| && Reports(old(log), Failed(deviceId, at), count)
    {
      hide AllHold, Count, Prune, InOrder, NoneLater;
      ghost var e := Failed(deviceId, at);
      Account(e);
      var pruned := PopExpired(Bucket(failures, deviceId) + [at], at - window);
      failures := failures[deviceId := pruned];
      log := log + [e];
      count := |pruned|;
    }

    /** `authn_failures`. */
    method AuthnFailures(deviceId: Text, at: Instant) returns (count: nat)
      requires Valid()
      modifies this
      ensures Valid() && log == old(log) + [Asked(deviceId, at)]
      ensures failures == PruneFailures(old(failures), deviceId, at, window) && conflicts == old(conflicts)
      ensures count == |Bucket(failures, deviceId)| && Reports(old(log), Asked(deviceId, at), count)
    {
      hide AllHold, Count, Prune, InOrder, NoneLater;
      ghost var e := Asked(deviceId, at);
      Account(e);
      log := log + [e];
      if deviceId !in failures {
        return 0;
      }
      var pruned := PopExpired(failures[deviceId], at - window);
      failures := failures[deviceId := pruned];
      count := |pruned|;
    }

    /** What the operation will leave and report. */
    lemma Account(e: Event)
      requires Valid()
      ensures window >= 0 ==> AllHold(Operate(failures, e, window), log + [e], window)
      ensures window >= 0 && NoneLater(CallsOf(log, e.deviceId), e.at) ==>
        var d, from, left := e.deviceId, e.at - window, Bucket(Operate(failures, e, window), e.deviceId);
        var exact := |left| == Count(Failures(log + [e], d), from, e.at);
        (exact <==> forall i | 0 <= i < |left| :: left[i] >= from) && (InOrder(log + [e], d) ==> exact)
    {
      hide DeviceHolds, Operate, InOrder, Count, NoneLater;
      if window >= 0 {
        OperationHolds(failures, log, e, window);
        assert DeviceHolds(failures, log, e.deviceId, window);
        if NoneLater(CallsOf(log, e.deviceId), e.at) {
          ReportIsWindow(failures, log, e, window);
        }
      }
    }

    /** `record_identity_conflict`. */
    method RecordIdentityConflict(deviceId: Text) returns (total: nat)
      requires Valid()
      modifies this`conflicts
      ensures Valid()
      ensures total == (if deviceId in old(conflicts) then old(conflicts)[deviceId] else 0) + 1
      ensures conflicts == old(conflicts)[deviceId := total]
    {
      total := (if deviceId in conflicts then conflicts[deviceId] else 0) + 1;
      conflicts := conflicts[deviceId := total];
    }
  }
}
