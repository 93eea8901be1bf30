/** The in-memory enforcement point (enforcement/memory_pep.py). */
module MemoryPep {
  import opened Base
  import opened Topics
  import opened Policy

  datatype Operation = CONNECT | PUBLISH | SUBSCRIBE

  datatype Request = Request(deviceId: Text, operation: Operation, resource: Text)

  datatype Reason =
    | NoActiveDecision | ActionTerminating(action: PolicyAction) | DecisionExpired
    | PlainAllowed | ConnectUnder(action: PolicyAction) | ByScope(verdict: ScopeVerdict)

  datatype Outcome = Outcome(permitted: bool, reason: Reason, decision: Option<Decision>)

  // -- the log and what it means --------------------------------------------------

  /** Everything that can happen to the enforcement point; a `check` looks, and so does `active_decision`. */
  datatype Event = Applied(decision: Decision) | Revoked(deviceId: Text) | Cleared | Looked(deviceId: Text, at: Instant)

  /** The last grant to the device that was neither terminated nor revoked since. */
  function Granted(log: seq<Event>, deviceId: Text): Option<Decision> {
    if log == [] then None
    else
      match log[|log| - 1]
      case Applied(d) =>
        if d.deviceId != deviceId then Granted(log[..|log| - 1], deviceId)
        else if Terminating(d.action) then None else Some(d)
      case Revoked(id) => if id == deviceId then None else Granted(log[..|log| - 1], deviceId)
      case Cleared => None
      case Looked(_, _) => Granted(log[..|log| - 1], deviceId)
  }

  /** The last decision applied for the device, whatever its action. */
  function LastApplied(log: seq<Event>, deviceId: Text): Option<Decision> {
    if log == [] then None
    else
      match log[|log| - 1]
      case Applied(d) => if d.deviceId == deviceId then Some(d) else LastApplied(log[..|log| - 1], deviceId)
      case Cleared => None
      case _ => LastApplied(log[..|log| - 1], deviceId)
  }

  /** The decision in force at `now`: a grant whose lifetime has not elapsed. */
  function ActiveAt(log: seq<Event>, deviceId: Text, now: Instant): Option<Decision> {
    var granted := Granted(log, deviceId);
    if granted.Some? && !Expired(granted.value, now) then granted else None
  }

  function Judge(active: Option<Decision>, last: Option<Decision>, request: Request): Outcome {
    match active
    case None =>
      var reason :=
        if last.None? then NoActiveDecision
        else if Terminating(last.value.action) then ActionTerminating(last.value.action)
        else DecisionExpired;
      Outcome(false, reason, last)
    case Some(d) =>
      if request.operation == CONNECT then
        Outcome(true, if d.action == ALLOW then PlainAllowed else ConnectUnder(d.action), active)
      else
        var verdict := ScopeVerdictOf(d.scope, request.resource);
        Outcome(verdict.Allowed?, ByScope(verdict), active)
  }

  /** What a check at `now` answers, as a function of the log alone. */
  function CheckOf(log: seq<Event>, request: Request, now: Instant): Outcome {
    Judge(ActiveAt(log, request.deviceId, now), LastApplied(log, request.deviceId), request)
  }

  /** No look for the device is later than `now`. */
  ghost predicate NotAfter(log: seq<Event>, deviceId: Text, now: Instant) {
    forall i | 0 <= i < |log| && log[i].Looked? && log[i].deviceId == deviceId :: log[i].at <= now
  }

  // -- the store ----------------------------------------------------------

  class Pep {
    var decisions: map<Text, Decision>
    var last: map<Text, Decision>
    ghost var log: seq<Event>

    /** What the store still holds is the log's grant; a missing grant had expired at some look. */
    ghost predicate Valid()
      reads this
    {
      && (forall id | id in decisions :: Granted(log, id) == Some(decisions[id]))
      && (forall id | id !in decisions :: LostToExpiry(log, id))
      && (forall id :: LastApplied(log, id) == if id in last then Some(last[id]) else None)
    }

    constructor ()
      ensures Valid() && log == []
    {
      decisions, last, log := map[], map[], [];
    }

    /** `apply`. */
    method Apply(decision: Decision)
      requires Valid()
      modifies this
      ensures Valid() && log == old(log) + [Applied(decision)]
    {
      LogGrows(log, Applied(decision));
      log := log + [Applied(decision)];
      if Terminating(decision.action) {
        decisions := decisions - {decision.deviceId};
        last := last[decision.deviceId := decision];
        return;
      }
      decisions := decisions[decision.deviceId := decision];
      last := last[decision.deviceId := decision];
    }

    /** `revoke`. */
    method Revoke(deviceId: Text)
      requires Valid()
      modifies this
      ensures Valid() && log == old(log) + [Revoked(deviceId)]
    {
      LogGrows(log, Revoked(deviceId));
      log := log + [Revoked(deviceId)];
      decisions := decisions - {deviceId};
    }

    /** `reset`. */
    method Reset()
      requires Valid()
      modifies this
      ensures Valid() && log == old(log) + [Cleared]
    {
      LogGrows(log, Cleared);
      log := log + [Cleared];
      decisions, last := map[], map[];
    }

    /** `active_decision`, which deletes a decision it finds expired. */
    method ActiveDecision(deviceId: Text, now: Instant) returns (active: Option<Decision>)
      requires Valid()
      modifies this
      ensures Valid() && log == old(log) + [Looked(deviceId, now)] && last == old(last)
      ensures NotAfter(old(log), deviceId, now) ==> active == ActiveAt(old(log), deviceId, now)
    {
      ghost var before := log;
      if NotAfter(before, deviceId, now) && deviceId !in decisions {
        StillExpired(before, deviceId, now);
      }
      LogGrows(log, Looked(deviceId, now));
      log := log + [Looked(deviceId, now)];
      if deviceId !in decisions {
        return None;
      }
      var decision := decisions[deviceId];
      if Expired(decision, now) {
        decisions := decisions - {deviceId};
        assert log[|log| - 1] == Looked(deviceId, now);
        assert LostToExpiry(log, deviceId);
        return None;
      }
      active := Some(decision);
    }

    /** `check`. As long as time does not go backwards for the device, the answer is the log's. */
    method Check(request: Request, now: Instant) returns (outcome: Outcome)
      requires Valid()
      modifies this
      ensures Valid() && log == old(log) + [Looked(request.deviceId, now)]
      ensures NotAfter(old(log), request.deviceId, now) ==> outcome == CheckOf(old(log), request, now)
    {
      var active := ActiveDecision(request.deviceId, now);
      if active.None? {
        if request.deviceId !in last {
          return Outcome(false, NoActiveDecision, None);
        }
        var previous := last[request.deviceId];
        if Terminating(previous.action) {
          return Outcome(false, ActionTerminating(previous.action), Some(previous));
        }
        return Outcome(false, DecisionExpired, Some(previous));
      }
      var decision := active.value;
      if decision.action == ALLOW && request.operation == CONNECT {
        return Outcome(true, PlainAllowed, active);
      }
      if request.operation == CONNECT {
        return Outcome(true, ConnectUnder(decision.action), active);
      }
      var verdict := EvaluateScope(decision.scope, request.resource);
      outcome := Outcome(verdict.Allowed?, ByScope(verdict), active);
    }
  }

  /** The device has no grant, or a look for it found the grant expired. */
  ghost predicate LostToExpiry(log: seq<Event>, deviceId: Text) {
    var granted := Granted(log, deviceId);
    granted.Some? ==> exists i ::
      0 <= i < |log| && log[i].Looked? && log[i].deviceId == deviceId && Expired(granted.value, log[i].at)
  }

  lemma StillExpired(log: seq<Event>, deviceId: Text, now: Instant)
    requires NotAfter(log, deviceId, now) && LostToExpiry(log, deviceId)
    ensures ActiveAt(log, deviceId, now) == None
  {}

  /** What one more event does to the log's answers for every device. */
  lemma LogGrows(log: seq<Event>, e: Event)
    ensures forall id :: Granted(log + [e], id) == GrantedAfter(e, Granted(log, id), id)
    ensures forall id :: LastApplied(log + [e], id) == LastAfter(e, LastApplied(log, id), id)
    ensures forall id | LostToExpiry(log, id) && Granted(log + [e], id) == Granted(log, id) ::
      LostToExpiry(log + [e], id)
  {
    var grown := log + [e];
    assert grown[..|grown| - 1] == log;
    forall id | LostToExpiry(log, id) && Granted(grown, id) == Granted(log, id)
      ensures LostToExpiry(grown, id)
    {
      var granted := Granted(log, id);
      if granted.Some? {
        var i :| 0 <= i < |log| && log[i].Looked? && log[i].deviceId == id && Expired(granted.value, log[i].at);
        assert grown[i] == log[i];
      }
    }
  }

  function GrantedAfter(e: Event, before: Option<Decision>, deviceId: Text): Option<Decision> {
    match e
    case Applied(d) => if d.deviceId != deviceId then before else if Terminating(d.action) then None else Some(d)
    case Revoked(id) => if id == deviceId then None else before
    case Cleared => None
    case Looked(_, _) => before
  }

  function LastAfter(e: Event, before: Option<Decision>, deviceId: Text): Option<Decision> {
    match e
    case Applied(d) => if d.deviceId == deviceId then Some(d) else before
    case Cleared => None
    case _ => before
  }

  // -- consequences ---------------------------------------------------------

  /** Nothing in the events grants the device access. */
  ghost predicate NoGrant(events: seq<Event>, deviceId: Text) {
    forall i | 0 <= i < |events| && events[i].Applied? && events[i].decision.deviceId == deviceId ::
      Terminating(events[i].decision.action)
  }

  /** A terminating decision refuses every request of its device, at any time, until a later grant. */
  lemma {:induction false} TerminationBlocks(log: seq<Event>, d: Decision, later: seq<Event>, request: Request,
                                             now: Instant)
    requires Terminating(d.action) && d.deviceId == request.deviceId
    requires NoGrant(later, d.deviceId)
    ensures !CheckOf(log + [Applied(d)] + later, request, now).permitted
    ensures Granted(log + [Applied(d)] + later, d.deviceId) == None
    decreases |later|
  {
    var full := log + [Applied(d)] + later;
    if later == [] {
      assert full[|full| - 1] == Applied(d);
    } else {
      var n := |later| - 1;
      assert full[..|full| - 1] == log + [Applied(d)] + later[..n];
      TerminationBlocks(log, d, later[..n], request, now);
      assert full[|full| - 1] == later[n];
    }
  }

  // -- answers, from the events alone ----------------------------------------------------

  /** The event leaves no earlier decision for the device standing. */
  predicate Overrides(e: Event, deviceId: Text) {
    match e
    case Applied(d) => d.deviceId == deviceId
    case Revoked(id) => id == deviceId
    case Cleared => true
    case Looked(_, _) => false
  }

  /** Event i grants the device access by d, and nothing since has terminated, replaced, revoked or cleared it. */
  ghost predicate Grants(log: seq<Event>, i: int, deviceId: Text, d: Decision) {
    && 0 <= i < |log| && log[i] == Applied(d) && d.deviceId == deviceId
    && d.action != REAUTHENTICATE && d.action != DENY
    && forall j | i < j < |log| :: !Overrides(log[j], deviceId)
  }

  lemma GrantStands(log: seq<Event>, i: int, deviceId: Text, d: Decision)
    requires log != []
    ensures var n := |log| - 1;
      Grants(log, i, deviceId, d) <==>
        if i == n then
          log[n] == Applied(d) && d.deviceId == deviceId && d.action != REAUTHENTICATE && d.action != DENY
        else !Overrides(log[n], deviceId) && Grants(log[..n], i, deviceId, d)
  {
    var n := |log| - 1;
    assert forall j | 0 <= j < n :: log[..n][j] == log[j];
  }

  lemma {:induction false} GrantedIff(log: seq<Event>, deviceId: Text, d: Decision)
    ensures Granted(log, deviceId) == Some(d) <==> exists i :: Grants(log, i, deviceId, d)
  {
    if log != [] {
      var n := |log| - 1;
      GrantedIff(log[..n], deviceId, d);
      forall i ensures Grants(log, i, deviceId, d) <==>
        if i == n then
          log[n] == Applied(d) && d.deviceId == deviceId && d.action != REAUTHENTICATE && d.action != DENY
        else !Overrides(log[n], deviceId) && Grants(log[..n], i, deviceId, d)
      {
        GrantStands(log, i, deviceId, d);
      }
      hide Grants;
      assert Granted(log, deviceId) == Some(d) && Overrides(log[n], deviceId) ==> Grants(log, n, deviceId, d);
    }
  }

  /** A request is permitted exactly when some grant to its device still stands, was made no longer ago than its
      positive lifetime, and the operation is a CONNECT or the grant's scope permits its resource. */
  lemma PermittedIff(log: seq<Event>, request: Request, now: Instant)
    ensures CheckOf(log, request, now).permitted <==> exists i, d: Decision ::
      && Grants(log, i, request.deviceId, d)
      && 0 < d.ttlMs && now - d.createdAt <= 1_000 * d.ttlMs
      && (request.operation == CONNECT || ScopePermits(d.scope, request.resource))
    ensures forall i, d: Decision
      | Grants(log, i, request.deviceId, d) && 0 < d.ttlMs && now - d.createdAt <= 1_000 * d.ttlMs ::
        var outcome := CheckOf(log, request, now);
        && outcome.decision == Some(d)
        && outcome.reason == if request.operation != CONNECT then ByScope(ScopeVerdictOf(d.scope, request.resource))
                             else if d.action == ALLOW then PlainAllowed else ConnectUnder(d.action)
  {
    hide Granted, Grants, ScopePermits, Expired;
    var granted := Granted(log, request.deviceId);
    forall i, d: Decision | Grants(log, i, request.deviceId, d) ensures granted == Some(d) {
      GrantedIff(log, request.deviceId, d);
    }
    if granted.Some? {
      GrantedIff(log, request.deviceId, granted.value);
      ExpiredIff(granted.value, now);
    }
  }

  /** Event i is the last decision applied for the device since everything was last cleared. */
  ghost predicate IsLast(log: seq<Event>, i: int, deviceId: Text, d: Decision) {
    && 0 <= i < |log| && log[i] == Applied(d) && d.deviceId == deviceId
    && forall j | i < j < |log| :: !log[j].Cleared? && !(log[j].Applied? && log[j].decision.deviceId == deviceId)
  }

  lemma LastStands(log: seq<Event>, i: int, deviceId: Text, d: Decision)
    requires log != []
    ensures var n := |log| - 1;
      IsLast(log, i, deviceId, d) <==>
        if i == n then log[n] == Applied(d) && d.deviceId == deviceId
        else
          && !log[n].Cleared? && !(log[n].Applied? && log[n].decision.deviceId == deviceId)
          && IsLast(log[..n], i, deviceId, d)
  {
    var n := |log| - 1;
    assert forall j | 0 <= j < n :: log[..n][j] == log[j];
  }

  lemma {:induction false} LastAppliedIff(log: seq<Event>, deviceId: Text, d: Decision)
    ensures LastApplied(log, deviceId) == Some(d) <==> exists i :: IsLast(log, i, deviceId, d)
  {
    if log != [] {
      var n := |log| - 1;
      LastAppliedIff(log[..n], deviceId, d);
      forall i ensures IsLast(log, i, deviceId, d) <==>
        if i == n then log[n] == Applied(d) && d.deviceId == deviceId
        else
          && !log[n].Cleared? && !(log[n].Applied? && log[n].decision.deviceId == deviceId)
          && IsLast(log[..n], i, deviceId, d)
      {
        LastStands(log, i, deviceId, d);
      }
      hide IsLast;
      assert log[n] == Applied(d) && d.deviceId == deviceId ==> IsLast(log, n, deviceId, d);
    }
  }

  /** Why a request is refused for want of a decision in force: none was applied since the last reset, or the last one
      terminates access, or it is out of time, which is also what a revoked one is called. */
  lemma RefusalMeans(log: seq<Event>, request: Request, now: Instant)
    ensures var outcome := CheckOf(log, request, now);
      !outcome.permitted && !outcome.reason.ByScope? ==>
        && (outcome.reason == NoActiveDecision <==> forall i, d: Decision :: !IsLast(log, i, request.deviceId, d))
        && forall i, d: Decision | IsLast(log, i, request.deviceId, d) ::
             && outcome.decision == Some(d)
             && outcome.reason == if d.action == REAUTHENTICATE || d.action == DENY then ActionTerminating(d.action)
                                  else DecisionExpired
  {
    hide LastApplied, IsLast, ActiveAt;
    var last := LastApplied(log, request.deviceId);
    forall i, d: Decision | IsLast(log, i, request.deviceId, d) ensures last == Some(d) {
      LastAppliedIff(log, request.deviceId, d);
    }
    if last.Some? { LastAppliedIff(log, request.deviceId, last.value); }
  }

  /** Under a live decision, publishing and subscribing are judged exactly as the gateway judges them. */
  lemma AgreesWithGateway(log: seq<Event>, request: Request, now: Instant)
    requires ActiveAt(log, request.deviceId, now).Some? && request.operation != CONNECT
    ensures CheckOf(log, request, now).permitted
       <==> ScopePermits(ActiveAt(log, request.deviceId, now).value.scope, request.resource)
  {}
}
