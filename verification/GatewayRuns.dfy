/** What every run of the client loop keeps (enforcement/mqtt_gateway.py): what reaches the broker and under which
    decision, how the counters add up, and where a refusal leaves the session. */
module GatewayRuns {
  import opened Base
  import opened Codec
  import opened Stream
  import opened Topics
  import opened Policy
  import opened Gateway

  // -- what lets a packet through -------------------------------------------------

  /** The decision is the one current for the packet the session `b` is about to handle: the one in force, shown
      unexpired by the next reading of the clock, or the service's next answer, the one in force having expired. */
  ghost predicate Current(b: Session, decision: Decision, basis: Basis, env: Env) {
    && b.ended.None? && !Terminating(decision.action)
    && match basis
       case CheckedAt(reading) =>
         decision == b.decision && reading == b.readings && !Expired(decision, env.clock(reading))
       case ObtainedForPacket =>
         Expired(b.decision, env.clock(b.readings)) && env.decide(b.asked) == Some(decision)
  }

  /** What the client's packet may become on the broker's side: a PUBLISH off the step-up topic that the scope permits
      goes out byte for byte, a SUBSCRIBE with exactly its permitted filters, in order, under its own identifier. */
  ghost predicate LetThrough(packet: Packet, sent: Packet, scope: AccessScope, env: Env) {
    if packet.packetType == PUBLISH then
      var publish := DecodePublish(packet);
      && sent == packet && publish.Ok?
      && publish.value.topic != ResponseTopic(env.deviceId) && ScopePermits(scope, publish.value.topic)
    else
      var request := SubscribeOf(packet.payload);
      && packet.packetType == SUBSCRIBE && sent.packetType == SUBSCRIBE && request.Ok?
      && SubscribeOf(sent.payload)
         == Ok(SubscribePacket(request.value.packetId, Granted(request.value.subscriptions, scope)))
  }

  ghost predicate Justified(b: Session, packet: Packet, sent: Packet, relay: Relay, env: Env) {
    Current(b, relay.decision, relay.basis, env) && LetThrough(packet, sent, relay.decision.scope, env)
  }

  /** The granted filters are the requested ones that the scope permits, each as often as it was requested. */
  lemma {:induction false} GrantedExactly(entries: seq<(Text, nat)>, scope: AccessScope, e: (Text, nat))
    ensures e in Granted(entries, scope) <==> e in entries && ScopePermits(scope, e.0)
    ensures multiset(Granted(entries, scope))[e] == if ScopePermits(scope, e.0) then multiset(entries)[e] else 0
  {
    hide ScopePermits;
    if entries != [] {
      var n := |entries| - 1;
      assert entries == entries[..n] + [entries[n]];
      GrantedExactly(entries[..n], scope, e);
    }
  }

  // -- one pass ---------------------------------------------------------------------

  /** The packets the loop judges before they may reach the broker. */
  predicate IsGuarded(p: Packet) {
    p.packetType == PUBLISH || p.packetType == SUBSCRIBE
  }

  /** 1 for a PUBLISH the loop has to judge: one not on the step-up response topic. */
  function Weighs(packet: Packet, env: Env): nat {
    if packet.packetType == PUBLISH && DecodePublish(packet).Ok?
       && DecodePublish(packet).value.topic != ResponseTopic(env.deviceId) then 1 else 0
  }

  function FiltersOf(packet: Packet): nat {
    if packet.packetType == SUBSCRIBE && SubscribeOf(packet.payload).Ok?
    then |SubscribeOf(packet.payload).value.subscriptions| else 0
  }

  /** The decision in force changes only by an answer of the service, the next one; the clock is only read forwards. */
  ghost predicate Moves(s: Session, t: Session, env: Env) {
    && s.readings <= t.readings
    && ((t.asked == s.asked && t.decision == s.decision)
        || (t.asked == s.asked + 1 && env.decide(s.asked) == Some(t.decision)))
  }

  /** A pass that lets nothing through; what it writes to the broker needs no permission. */
  ghost predicate NoRelay(s: Session, t: Session, packet: Packet) {
    && t.relayed == s.relayed
    && (t.toBroker == s.toBroker || (t.toBroker == s.toBroker + [packet] && !IsGuarded(packet)))
    && t.publishesAllowed == s.publishesAllowed && t.subscriptionsAllowed == s.subscriptionsAllowed
  }

  /** A pass that lets its packet through. */
  ghost predicate Relays(s: Session, t: Session, packet: Packet, sent: Packet, relay: Relay, index: nat, env: Env) {
    && t.ended.None? && IsGuarded(sent) && sent.packetType == packet.packetType
    && t.toBroker == s.toBroker + [sent] && t.relayed == s.relayed + [relay]
    && relay.index == index && Justified(s, packet, sent, relay, env)
    && (relay.basis.CheckedAt? ==> t.readings == s.readings + 1)
    && t.publishesAllowed == s.publishesAllowed + (if sent.packetType == PUBLISH then 1 else 0)
    && t.subscriptionsAllowed == s.subscriptionsAllowed + FiltersOf(sent)
  }

  /** What a pass does to the counters: it counts what it judged, or ends the session counting nothing. */
  ghost predicate Tallies(s: Session, t: Session, packet: Packet, env: Env) {
    if t.ended.None? then
      && t.publishesAllowed + t.publishesDenied == s.publishesAllowed + s.publishesDenied + Weighs(packet, env)
      && t.subscriptionsAllowed + t.subscriptionsDenied
         == s.subscriptionsAllowed + s.subscriptionsDenied + FiltersOf(packet)
    else
      && t.publishesAllowed == s.publishesAllowed && t.publishesDenied == s.publishesDenied
      && t.subscriptionsAllowed == s.subscriptionsAllowed && t.subscriptionsDenied == s.subscriptionsDenied
  }

  /** A refusing decision ends the session before anything is written under it. */
  ghost predicate Refuses(s: Session, t: Session) {
    Terminating(t.decision.action) ==> t.ended.Some? && t.toBroker == s.toBroker
  }

  ghost predicate StepEffect(s: Session, t: Session, packet: Packet, index: nat, env: Env) {
    && Moves(s, t, env) && Tallies(s, t, packet, env) && Refuses(s, t)
    && (NoRelay(s, t, packet) || exists sent, relay :: Relays(s, t, packet, sent, relay, index, env))
  }

  ghost predicate Alive(s: Session) {
    s.ended.None? && !Terminating(s.decision.action)
  }

  lemma OnResponseEffect(s: Session, packet: Packet, publish: PublishPacket, env: Env)
    requires Alive(s)
    ensures var t := OnResponse(s, publish, env);
      && Moves(s, t, env) && Refuses(s, t) && NoRelay(s, t, packet) && t.toBroker == s.toBroker
      && t.publishesDenied == s.publishesDenied && t.subscriptionsDenied == s.subscriptionsDenied
  {}

  /** What `_refresh_if_needed` may change, and what makes its result current. */
  lemma RefreshEffect(s: Session, env: Env)
    requires Alive(s)
    ensures var (t, basis) := Refresh(s, env);
      && t == s.(decision := t.decision, asked := t.asked, readings := t.readings, ended := t.ended)
      && Moves(s, t, env)
      && (t.ended.Some? ==> t.decision == s.decision)
      && (Alive(t) ==> Current(s, t.decision, basis, env))
      && (basis.CheckedAt? ==> t.readings == s.readings + 1)
  {}

  /** A PUBLISH that has to be judged, under the decision current for it. */
  lemma JudgedPublishEffect(s: Session, packet: Packet, index: nat, env: Env)
    requires Alive(s) && packet.packetType == PUBLISH && Weighs(packet, env) == 1
    ensures StepEffect(s, OnPublish(s, packet, index, env), packet, index, env)
  {
    hide Refresh, ScopePermits, Current, DecodePublish;
    var t := OnPublish(s, packet, index, env);
    var topic := DecodePublish(packet).value.topic;
    var (current, basis) := Refresh(s, env);
    RefreshEffect(s, env);
    if Alive(current) && ScopePermits(current.decision.scope, topic) {
      assert Relays(s, t, packet, packet, Relay(index, current.decision, basis), index, env);
    } else {
      assert NoRelay(s, t, packet);
    }
  }

  lemma OnPublishEffect(s: Session, packet: Packet, index: nat, env: Env)
    requires Alive(s) && packet.packetType == PUBLISH
    ensures StepEffect(s, OnPublish(s, packet, index, env), packet, index, env)
  {
    hide OnResponse, DecodePublish;
    if Weighs(packet, env) == 1 {
      JudgedPublishEffect(s, packet, index, env);
    } else {
      if DecodePublish(packet).Ok? {
        OnResponseEffect(s, packet, DecodePublish(packet).value, env);
      }
      assert NoRelay(s, OnPublish(s, packet, index, env), packet);
    }
  }

  /** The subscription is judged under the session's own decision. */
  lemma SubscribeEffect(s: Session, packet: Packet, index: nat, basis: Basis)
    requires |packet.payload| <= MAX_REMAINING_LENGTH && SubscribeOf(packet.payload).Ok? && s.ended.None?
    ensures var request := SubscribeOf(packet.payload).value;
      && ValidEntries(request.subscriptions)
      && var granted, t := Granted(request.subscriptions, s.decision.scope), Subscribe(s, request, index, basis);
      && |granted| <= |request.subscriptions|
      && t == s.(toBroker := t.toBroker, toClient := t.toClient, relayed := t.relayed,
                 subscriptionsAllowed := s.subscriptionsAllowed + |granted|,
                 subscriptionsDenied := s.subscriptionsDenied + (|request.subscriptions| - |granted|))
      && (granted == [] ==> t.toBroker == s.toBroker && t.relayed == s.relayed)
      && (granted != [] ==>
            && |t.toBroker| == |s.toBroker| + 1
            && var sent := t.toBroker[|s.toBroker|];
            && t.toBroker == s.toBroker + [sent] && sent.packetType == SUBSCRIBE
            && SubscribeOf(sent.payload) == Ok(SubscribePacket(request.packetId, granted))
            && t.relayed == s.relayed + [Relay(index, s.decision, basis)])
  {
    hide ScopePermits, SubscribeOf, SubscribeBody, Codes, Granted, BuildSuback, BuildPacket;
    SubscribeOutcome(s, packet, index, basis);
    GrantedAreValid(SubscribeOf(packet.payload).value.subscriptions, s.decision.scope);
  }

  lemma OnSubscribeEffect(s: Session, packet: Packet, index: nat, env: Env)
    requires Alive(s) && packet.packetType == SUBSCRIBE && |packet.payload| <= MAX_REMAINING_LENGTH
    ensures StepEffect(s, OnSubscribe(s, packet, index, env), packet, index, env)
  {
    hide Refresh, Subscribe, Current, SubscribeOf, Granted;
    var t := OnSubscribe(s, packet, index, env);
    var request := SubscribeOf(packet.payload);
    RefreshEffect(s, env);
    var (current, basis) := Refresh(s, env);
    if request.Ok? && Alive(current) {
      RequestIsValid(packet.payload);
      SubscribeEffect(current, packet, index, basis);
      if Granted(request.value.subscriptions, current.decision.scope) != [] {
        var sent := t.toBroker[|s.toBroker|];
        assert Relays(s, t, packet, sent, Relay(index, current.decision, basis), index, env);
      } else {
        assert NoRelay(s, t, packet);
      }
    } else {
      assert NoRelay(s, t, packet);
    }
  }

  lemma StepHasEffect(s: Session, packet: Packet, index: nat, env: Env)
    requires Alive(s) && |packet.payload| <= MAX_REMAINING_LENGTH
    ensures StepEffect(s, Step(s, packet, index, env), packet, index, env)
  {
    hide OnPublish, OnSubscribe, DecodePublish, SubscribeOf, Relays;
    if packet.packetType == PUBLISH {
      OnPublishEffect(s, packet, index, env);
    } else if packet.packetType == SUBSCRIBE {
      OnSubscribeEffect(s, packet, index, env);
    } else {
      assert NoRelay(s, Step(s, packet, index, env), packet);
    }
  }

  // -- whole runs --------------------------------------------------------------------

  function Guarded(packets: seq<Packet>): seq<Packet> {
    if packets == [] then []
    else
      var n := |packets| - 1;
      Guarded(packets[..n]) + if IsGuarded(packets[n]) then [packets[n]] else []
  }

  function Publishes(packets: seq<Packet>): nat {
    if packets == [] then 0
    else
      var n := |packets| - 1;
      Publishes(packets[..n]) + if packets[n].packetType == PUBLISH then 1 else 0
  }

  /** How many PUBLISHes there are to judge. */
  function Judged(packets: seq<Packet>, env: Env): nat {
    if packets == [] then 0 else Judged(packets[..|packets| - 1], env) + Weighs(packets[|packets| - 1], env)
  }

  /** How many filters the SUBSCRIBEs carry. */
  function Filters(packets: seq<Packet>): nat {
    if packets == [] then 0 else Filters(packets[..|packets| - 1]) + FiltersOf(packets[|packets| - 1])
  }

  lemma WrittenSnoc(packets: seq<Packet>, p: Packet)
    ensures Guarded(packets + [p]) == Guarded(packets) + if IsGuarded(p) then [p] else []
    ensures Publishes(packets + [p]) == Publishes(packets) + if p.packetType == PUBLISH then 1 else 0
    ensures Filters(packets + [p]) == Filters(packets) + FiltersOf(p)
  {
    assert (packets + [p])[..|packets|] == packets;
  }

  /** Every guarded packet the broker got is one packet of the client, taken in order, and was justified in the very
      state the run was in when it reached that packet. */
  ghost predicate RelaysInOrder(start: Session, s: Session, packets: seq<Packet>, n: nat, env: Env) {
    && n <= |packets| && |Guarded(s.toBroker)| == |s.relayed|
    && (forall i | 0 <= i < |s.relayed| ::
          && s.relayed[i].index < n
          && Justified(Run(start, packets, s.relayed[i].index, env), packets[s.relayed[i].index],
                       Guarded(s.toBroker)[i], s.relayed[i], env))
    && (forall i, j | 0 <= i < j < |s.relayed| :: s.relayed[i].index < s.relayed[j].index)
  }

  /** No reading of the clock vouches for two packets. */
  ghost predicate ReadingsInOrder(s: Session) {
    && (forall i | 0 <= i < |s.relayed| && s.relayed[i].basis.CheckedAt? :: s.relayed[i].basis.reading < s.readings)
    && (forall i, j | 0 <= i < j < |s.relayed| && s.relayed[i].basis.CheckedAt? && s.relayed[j].basis.CheckedAt? ::
          s.relayed[i].basis.reading < s.relayed[j].basis.reading)
  }

  /** The decision in force is the service's last answer, or the one the session started with. */
  ghost predicate InForce(start: Session, s: Session, env: Env) {
    && s.asked >= start.asked
    && if s.asked == start.asked then s.decision == start.decision else env.decide(s.asked - 1) == Some(s.decision)
  }

  /** How many of the first n packets were handled to the end: all of them, or those before the pass that ended the
      session. */
  function Handled(start: Session, packets: seq<Packet>, n: nat, env: Env): nat
    requires n <= |packets|
  {
    if n == 0 then 0
    else if Run(start, packets, n, env).ended.None? then n else Handled(start, packets, n - 1, env)
  }

  /** The counters are those of the packets handled; what was allowed is what the broker got. */
  ghost predicate Counted(s: Session, packets: seq<Packet>, h: nat, env: Env) {
    && h <= |packets|
    && s.publishesAllowed == Publishes(s.toBroker) && s.subscriptionsAllowed == Filters(s.toBroker)
    && s.publishesAllowed + s.publishesDenied == Judged(packets[..h], env)
    && s.subscriptionsAllowed + s.subscriptionsDenied == Filters(packets[..h])
  }

  ghost predicate Fresh(s: Session) {
    && s.toBroker == [] && s.relayed == [] && Alive(s)
    && s.publishesAllowed == 0 && s.publishesDenied == 0 && s.subscriptionsAllowed == 0 && s.subscriptionsDenied == 0
  }

  /** Packets as the reader delivers them: no payload is longer than a remaining length can say. */
  ghost predicate Sized(packets: seq<Packet>) {
    forall i | 0 <= i < |packets| :: |packets[i].payload| <= MAX_REMAINING_LENGTH
  }

  lemma RelaysStep(start: Session, s: Session, t: Session, packets: seq<Packet>, n: nat, env: Env)
    requires n < |packets| && s == Run(start, packets, n, env)
    requires RelaysInOrder(start, s, packets, n, env) && ReadingsInOrder(s)
    requires StepEffect(s, t, packets[n], n, env)
    ensures RelaysInOrder(start, t, packets, n + 1, env) && ReadingsInOrder(t)
  {
    hide Run, Justified, FiltersOf, Tallies, Refuses;
    if NoRelay(s, t, packets[n]) {
      WrittenSnoc(s.toBroker, packets[n]);
    } else {
      var sent, relay :| Relays(s, t, packets[n], sent, relay, n, env);
      WrittenSnoc(s.toBroker, sent);
      assert relay.basis.CheckedAt? ==> relay.basis.reading == s.readings by {
        assert Justified(s, packets[n], sent, relay, env);
        CurrentReading(s, packets[n], sent, relay, env);
      }
    }
  }

  lemma CurrentReading(b: Session, packet: Packet, sent: Packet, relay: Relay, env: Env)
    requires Justified(b, packet, sent, relay, env)
    ensures relay.basis.CheckedAt? ==> relay.basis.reading == b.readings
  {}

  lemma CountersStep(s: Session, t: Session, packets: seq<Packet>, n: nat, env: Env)
    requires n < |packets| && Counted(s, packets, n, env) && StepEffect(s, t, packets[n], n, env)
    ensures Counted(t, packets, if t.ended.None? then n + 1 else n, env)
  {
    hide Moves, Refuses, Justified, Weighs, FiltersOf, Guarded, Publishes, Filters, Judged;
    OneMoreHandled(packets, n, env);
    if NoRelay(s, t, packets[n]) {
      WrittenSnoc(s.toBroker, packets[n]);
      UnguardedHasNoFilters(packets[n]);
    } else {
      var sent, relay :| Relays(s, t, packets[n], sent, relay, n, env);
      WrittenSnoc(s.toBroker, sent);
    }
  }

  lemma OneMoreHandled(packets: seq<Packet>, n: nat, env: Env)
    requires n < |packets|
    ensures Judged(packets[..n + 1], env) == Judged(packets[..n], env) + Weighs(packets[n], env)
    ensures Filters(packets[..n + 1]) == Filters(packets[..n]) + FiltersOf(packets[n])
  {
    assert packets[..n + 1][..n] == packets[..n];
  }

  lemma UnguardedHasNoFilters(p: Packet)
    ensures !IsGuarded(p) ==> FiltersOf(p) == 0
  {}

  ghost predicate RunInvariant(start: Session, s: Session, packets: seq<Packet>, n: nat, h: nat, env: Env) {
    && RelaysInOrder(start, s, packets, n, env) && ReadingsInOrder(s)
    && InForce(start, s, env) && Counted(s, packets, h, env)
    && (s.ended.None? ==> h == n && !Terminating(s.decision.action))
  }

  lemma StepKeeps(start: Session, s: Session, packets: seq<Packet>, n: nat, env: Env)
    requires n < |packets| && s == Run(start, packets, n, env) && s.ended.None?
    requires |packets[n].payload| <= MAX_REMAINING_LENGTH
    requires RunInvariant(start, s, packets, n, n, env)
    ensures var t := Step(s, packets[n], n, env);
      RunInvariant(start, t, packets, n + 1, if t.ended.None? then n + 1 else n, env)
  {
    hide Run, Step, RelaysInOrder, ReadingsInOrder, Counted, NoRelay, Relays, Tallies;
    var t := Step(s, packets[n], n, env);
    StepHasEffect(s, packets[n], n, env);
    RelaysStep(start, s, t, packets, n, env);
    CountersStep(s, t, packets, n, env);
  }

  lemma FreshInvariant(start: Session, packets: seq<Packet>, env: Env)
    requires Fresh(start)
    ensures RunInvariant(start, start, packets, 0, 0, env)
  {}

  lemma EndedKeeps(start: Session, s: Session, packets: seq<Packet>, n: nat, h: nat, env: Env)
    requires n < |packets| && s.ended.Some? && RunInvariant(start, s, packets, n, h, env)
    ensures RunInvariant(start, s, packets, n + 1, h, env)
  {
    hide Run, Justified, Counted;
  }

  /** For every client packet sequence and every decision service, after any number of passes, ended or not: what the
      loop let through to the broker is the client's own, in order, each under the decision then in force; that decision
      came from the service; the counters are those of the packets handled. */
  lemma {:induction false} RunKeeps(start: Session, packets: seq<Packet>, n: nat, env: Env)
    requires Fresh(start) && Sized(packets) && n <= |packets|
    ensures RunInvariant(start, Run(start, packets, n, env), packets, n, Handled(start, packets, n, env), env)
  {
    hide Step, RunInvariant;
    if n == 0 {
      FreshInvariant(start, packets, env);
    } else {
      RunKeeps(start, packets, n - 1, env);
      var s := Run(start, packets, n - 1, env);
      HandledAlive(start, packets, n - 1, env);
      if s.ended.None? {
        StepKeeps(start, s, packets, n - 1, env);
      } else {
        EndedKeeps(start, s, packets, n - 1, Handled(start, packets, n - 1, env), env);
      }
    }
  }

  /** The session is alive after the packets handled, and the next one, if there is any, ended it for good. */
  lemma {:induction false} HandledAlive(start: Session, packets: seq<Packet>, n: nat, env: Env)
    requires n <= |packets| && start.ended.None?
    ensures var h := Handled(start, packets, n, env);
      && h <= n && Run(start, packets, h, env).ended.None?
      && (Run(start, packets, n, env).ended.None? ==> h == n)
      && (h < n ==> Run(start, packets, h + 1, env).ended.Some?
                    && Run(start, packets, n, env) == Run(start, packets, h + 1, env))
  {
    hide Step;
    if n > 0 && Run(start, packets, n, env).ended.Some? {
      HandledAlive(start, packets, n - 1, env);
    }
  }

  // -- nothing is held back ----------------------------------------------------------

  /** What a pass that leaves the session alive owes the broker under the decision current for its packet. */
  predicate Owes(scope: AccessScope, packet: Packet, env: Env) {
    match packet.packetType
    case PUBLISH => Weighs(packet, env) == 1 && ScopePermits(scope, DecodePublish(packet).value.topic)
    case SUBSCRIBE =>
      SubscribeOf(packet.payload).Ok? && Granted(SubscribeOf(packet.payload).value.subscriptions, scope) != []
    case PINGREQ => true
    case PUBACK => true
    case UNSUBSCRIBE => true
    case PUBREC => true
    case PUBREL => true
    case PUBCOMP => true
    case _ => false
  }

  /** Guarded packets go out as permitted, all others unchanged. */
  ghost predicate Rendered(packet: Packet, sent: Packet, scope: AccessScope, env: Env) {
    if IsGuarded(packet) then LetThrough(packet, sent, scope, env) else sent == packet
  }

  /** 1 for a PUBLISH to judge that the scope does not permit. */
  function Unpermitted(scope: AccessScope, packet: Packet, env: Env): nat {
    if Weighs(packet, env) == 1 && !Owes(scope, packet, env) then 1 else 0
  }

  /** How many of the packet's filters the scope does not permit. */
  function Ungranted(scope: AccessScope, packet: Packet): int {
    if packet.packetType == SUBSCRIBE && SubscribeOf(packet.payload).Ok? then
      var entries := SubscribeOf(packet.payload).value.subscriptions;
      |entries| - |Granted(entries, scope)|
    else 0
  }

  /** The packet needs a decision, and t's decision is the one current for it. */
  ghost predicate Judges(s: Session, t: Session, packet: Packet, env: Env) {
    Weighs(packet, env) + FiltersOf(packet) > 0 ==>
      || Current(s, t.decision, CheckedAt(s.readings), env)
      || Current(s, t.decision, ObtainedForPacket, env)
  }

  ghost predicate Delivers(s: Session, t: Session, packet: Packet, env: Env) {
    var scope := t.decision.scope;
    && Judges(s, t, packet, env)
    && (if Owes(scope, packet, env)
        then exists sent :: t.toBroker == s.toBroker + [sent] && Rendered(packet, sent, scope, env)
        else t.toBroker == s.toBroker)
    && t.publishesDenied == s.publishesDenied + Unpermitted(scope, packet, env)
    && t.subscriptionsDenied == s.subscriptionsDenied + Ungranted(scope, packet)
  }

  lemma RefreshIsCurrent(s: Session, env: Env)
    requires Alive(s) && Alive(Refresh(s, env).0)
    ensures var t := Refresh(s, env).0;
      || Current(s, t.decision, CheckedAt(s.readings), env)
      || Current(s, t.decision, ObtainedForPacket, env)
  {}

  lemma PublishDelivers(s: Session, packet: Packet, index: nat, env: Env)
    requires Alive(s) && packet.packetType == PUBLISH && OnPublish(s, packet, index, env).ended.None?
    ensures Delivers(s, OnPublish(s, packet, index, env), packet, env)
  {
    hide Refresh, ScopePermits, Current, DecodePublish, OnResponse;
    var t := OnPublish(s, packet, index, env);
    if Weighs(packet, env) == 1 {
      RefreshEffect(s, env);
      RefreshIsCurrent(s, env);
      assert Owes(t.decision.scope, packet, env) ==> Rendered(packet, packet, t.decision.scope, env);
    } else {
      OnResponseEffect(s, packet, DecodePublish(packet).value, env);
    }
  }

  lemma SubscribeDelivers(s: Session, packet: Packet, index: nat, env: Env)
    requires Alive(s) && packet.packetType == SUBSCRIBE && |packet.payload| <= MAX_REMAINING_LENGTH
    requires OnSubscribe(s, packet, index, env).ended.None?
    ensures Delivers(s, OnSubscribe(s, packet, index, env), packet, env)
  {
    hide Refresh, Subscribe, Current, SubscribeOf, Granted;
    var t := OnSubscribe(s, packet, index, env);
    RefreshEffect(s, env);
    var (current, basis) := Refresh(s, env);
    RequestIsValid(packet.payload);
    RefreshIsCurrent(s, env);
    SubscribeEffect(current, packet, index, basis);
    var entries := SubscribeOf(packet.payload).value.subscriptions;
    if Granted(entries, t.decision.scope) != [] {
      assert Rendered(packet, t.toBroker[|s.toBroker|], t.decision.scope, env);
    }
  }

  lemma StepDelivers(s: Session, packet: Packet, index: nat, env: Env)
    requires Alive(s) && |packet.payload| <= MAX_REMAINING_LENGTH && Step(s, packet, index, env).ended.None?
    ensures Delivers(s, Step(s, packet, index, env), packet, env)
  {
    hide OnPublish, OnSubscribe, DecodePublish, SubscribeOf, LetThrough, Current;
    if packet.packetType == PUBLISH {
      PublishDelivers(s, packet, index, env);
    } else if packet.packetType == SUBSCRIBE {
      SubscribeDelivers(s, packet, index, env);
    } else {
      var t := Step(s, packet, index, env);
      assert t.toBroker == s.toBroker + [packet] && Rendered(packet, packet, t.decision.scope, env);
    }
  }

  /** The decision in force after the i-th pass, the one its packet was judged under if it needed judging. */
  function ScopeAt(start: Session, packets: seq<Packet>, i: nat, env: Env): AccessScope
    requires i < |packets|
  {
    Run(start, packets, i + 1, env).decision.scope
  }

  /** The places of the packets owed to the broker among the first n. */
  function Owed(start: Session, packets: seq<Packet>, n: nat, env: Env): (places: seq<nat>)
    requires n <= |packets|
    ensures forall j | 0 <= j < |places| :: places[j] < n
    ensures forall i, j | 0 <= i < j < |places| :: places[i] < places[j]
  {
    if n == 0 then []
    else
      Owed(start, packets, n - 1, env)
      + if Owes(ScopeAt(start, packets, n - 1, env), packets[n - 1], env) then [n - 1] else []
  }

  function DeniedPublishes(start: Session, packets: seq<Packet>, n: nat, env: Env): nat
    requires n <= |packets|
  {
    if n == 0 then 0
    else
      DeniedPublishes(start, packets, n - 1, env)
      + Unpermitted(ScopeAt(start, packets, n - 1, env), packets[n - 1], env)
  }

  function DeniedFilters(start: Session, packets: seq<Packet>, n: nat, env: Env): int
    requires n <= |packets|
  {
    if n == 0 then 0
    else
      DeniedFilters(start, packets, n - 1, env)
      + Ungranted(ScopeAt(start, packets, n - 1, env), packets[n - 1])
  }

  /** The broker has got exactly what it is owed of the first n packets, in order, and the denied counters are exactly
      the PUBLISHes and filters not permitted. */
  ghost predicate Delivered(start: Session, s: Session, packets: seq<Packet>, n: nat, env: Env) {
    && n <= |packets|
    && var places := Owed(start, packets, n, env);
    && |s.toBroker| == |places|
    && (forall j | 0 <= j < |places| ::
          Rendered(packets[places[j]], s.toBroker[j], ScopeAt(start, packets, places[j], env), env))
    && s.publishesDenied == DeniedPublishes(start, packets, n, env)
    && s.subscriptionsDenied == DeniedFilters(start, packets, n, env)
  }

  /** Each of the first n packets that needed judging was judged under the decision current for it. */
  ghost predicate AllJudged(start: Session, packets: seq<Packet>, n: nat, env: Env) {
    && n <= |packets|
    && forall i | 0 <= i < n ::
         Judges(Run(start, packets, i, env), Run(start, packets, i + 1, env), packets[i], env)
  }

  lemma DeliveredStep(start: Session, s: Session, t: Session, packets: seq<Packet>, n: nat, env: Env)
    requires n < |packets| && Delivered(start, s, packets, n, env) && Delivers(s, t, packets[n], env)
    requires ScopeAt(start, packets, n, env) == t.decision.scope
    ensures Delivered(start, t, packets, n + 1, env)
  {
    hide Judges, Rendered, Owes, Unpermitted, Ungranted, ScopeAt;
  }

  lemma JudgedStep(start: Session, packets: seq<Packet>, n: nat, env: Env)
    requires n < |packets| && AllJudged(start, packets, n, env)
    requires Judges(Run(start, packets, n, env), Run(start, packets, n + 1, env), packets[n], env)
    ensures AllJudged(start, packets, n + 1, env)
  {
    hide Run, Judges;
  }

  lemma NothingOwed(start: Session, packets: seq<Packet>, env: Env)
    requires Fresh(start)
    ensures Delivered(start, start, packets, 0, env) && AllJudged(start, packets, 0, env)
  {}

  lemma DeliversJudges(s: Session, t: Session, packet: Packet, env: Env)
    requires Delivers(s, t, packet, env)
    ensures Judges(s, t, packet, env)
  {}

  /** Over every run, as long as the session is alive: nothing the broker is owed is held back. */
  lemma {:induction false} AliveDelivers(start: Session, packets: seq<Packet>, n: nat, env: Env)
    requires Fresh(start) && Sized(packets) && n <= |packets| && Run(start, packets, n, env).ended.None?
    ensures Alive(Run(start, packets, n, env)) && Delivered(start, Run(start, packets, n, env), packets, n, env)
    ensures AllJudged(start, packets, n, env)
  {
    hide Step, Judges, Delivers, Delivered, AllJudged;
    if n == 0 {
      NothingOwed(start, packets, env);
    } else {
      var s, t := Run(start, packets, n - 1, env), Run(start, packets, n, env);
      AliveDelivers(start, packets, n - 1, env);
      StepDelivers(s, packets[n - 1], n - 1, env);
      StepStaysAlive(s, packets[n - 1], n - 1, env);
      DeliveredStep(start, s, t, packets, n - 1, env);
      DeliversJudges(s, t, packets[n - 1], env);
      JudgedStep(start, packets, n - 1, env);
    }
  }

  lemma StepStaysAlive(s: Session, packet: Packet, index: nat, env: Env)
    requires Alive(s) && |packet.payload| <= MAX_REMAINING_LENGTH && Step(s, packet, index, env).ended.None?
    ensures Alive(Step(s, packet, index, env))
  {
    hide Step, Moves, Tallies, NoRelay, Relays;
    StepHasEffect(s, packet, index, env);
  }

  /** And over every run, ended or not: the broker has got exactly what it is owed of the packets handled, and of the
      pass that ended the session nothing but the DISCONNECT, if that is what ended it. */
  lemma RunDelivers(start: Session, packets: seq<Packet>, n: nat, env: Env)
    requires Fresh(start) && Sized(packets) && n <= |packets|
    ensures var h, s := Handled(start, packets, n, env), Run(start, packets, n, env);
      && h <= n && Delivered(start, Run(start, packets, h, env), packets, h, env)
      && AllJudged(start, packets, h, env)
      && s.publishesDenied == DeniedPublishes(start, packets, h, env)
      && s.subscriptionsDenied == DeniedFilters(start, packets, h, env)
      && s.toBroker == Run(start, packets, h, env).toBroker +
           if h < n && packets[h].packetType == DISCONNECT then [packets[h]] else []
  {
    hide Run, Handled, Step, AllJudged, Delivered, DeniedPublishes, DeniedFilters, Sized;
    var h := Handled(start, packets, n, env);
    HandledAlive(start, packets, n, env);
    AliveDelivers(start, packets, h, env);
    var s := Run(start, packets, h, env);
    DeniedOf(start, s, packets, h, env);
    assert s.toBroker + [] == s.toBroker;
    if h < n {
      OnePass(start, packets, h, env);
      SizedAt(packets, h);
      LastPass(s, packets[h], h, env);
    }
  }

  lemma SizedAt(packets: seq<Packet>, h: nat)
    requires h < |packets| && Sized(packets)
    ensures |packets[h].payload| <= MAX_REMAINING_LENGTH
  {}

  lemma OnePass(start: Session, packets: seq<Packet>, h: nat, env: Env)
    requires h < |packets| && Run(start, packets, h, env).ended.None?
    ensures Run(start, packets, h + 1, env) == Step(Run(start, packets, h, env), packets[h], h, env)
  {}

  lemma DeniedOf(start: Session, s: Session, packets: seq<Packet>, n: nat, env: Env)
    requires Delivered(start, s, packets, n, env)
    ensures s.publishesDenied == DeniedPublishes(start, packets, n, env)
    ensures s.subscriptionsDenied == DeniedFilters(start, packets, n, env)
  {}

  lemma LastPass(s: Session, packet: Packet, index: nat, env: Env)
    requires Alive(s) && |packet.payload| <= MAX_REMAINING_LENGTH && Step(s, packet, index, env).ended.Some?
    ensures var t := Step(s, packet, index, env);
      && t.toBroker == s.toBroker + (if packet.packetType == DISCONNECT then [packet] else [])
      && t.publishesDenied == s.publishesDenied && t.subscriptionsDenied == s.subscriptionsDenied
  {
    hide OnPublish, OnSubscribe, Moves, Relays;
    StepHasEffect(s, packet, index, env);
    assert s.toBroker + [] == s.toBroker;
    RelayIsAlive(s, Step(s, packet, index, env), packet, index, env);
  }

  lemma RelayIsAlive(s: Session, t: Session, packet: Packet, index: nat, env: Env)
    ensures forall sent, relay | Relays(s, t, packet, sent, relay, index, env) :: t.ended.None?
  {}

  // -- refusal ------------------------------------------------------------------

  /** Over whole runs: once the decision in force is a refusing one the session is over, nothing the client sends
      changes it any more, and the broker has got nothing since the last pass that ended under another decision. */
  lemma RefusalIsFinal(start: Session, packets: seq<Packet>, n: nat, m: nat, env: Env) returns (h: nat)
    requires Fresh(start) && Sized(packets) && n <= m <= |packets|
    requires Terminating(Run(start, packets, n, env).decision.action)
    ensures h < n && Alive(Run(start, packets, h, env)) && Terminating(Run(start, packets, h + 1, env).decision.action)
    ensures Run(start, packets, m, env) == Run(start, packets, h + 1, env)
    ensures Run(start, packets, m, env).ended.Some?
    ensures Run(start, packets, m, env).toBroker == Run(start, packets, h, env).toBroker
  {
    hide Step, RelaysInOrder, ReadingsInOrder, InForce, Counted, Moves, Tallies, NoRelay, Relays;
    h := Handled(start, packets, n, env);
    HandledAlive(start, packets, n, env);
    RunKeeps(start, packets, n, env);
    RunKeeps(start, packets, h, env);
    HandledAlive(start, packets, h, env);
    StepHasEffect(Run(start, packets, h, env), packets[h], h, env);
    RunStopped(start, packets, h + 1, m, env);
  }

  /** Once the loop has ended, the remaining packets change nothing. */
  lemma {:induction false} RunStopped(start: Session, packets: seq<Packet>, n: nat, m: nat, env: Env)
    requires n <= m <= |packets| && Run(start, packets, n, env).ended.Some?
    ensures Run(start, packets, m, env) == Run(start, packets, n, env)
    decreases m
  {
    hide Step;
    if n < m { RunStopped(start, packets, n, m - 1, env); }
  }

  // -- the broker's stream -----------------------------------------------------------

  /** The broker, framing the bytes it receives, sees exactly the packets that were written. */
  lemma {:induction false} BrokerSees(written: seq<Packet>)
    requires forall i | 0 <= i < |written| :: SelfFraming(written[i])
    ensures Packets(RawBytes(written)) == written && Ending(RawBytes(written)) == EndOfStream
  {
    if written != [] {
      var p, rest := written[0], RawBytes(written[1..]);
      FrameIgnoresRest(p, rest);
      assert (p.raw + rest)[|p.raw|..] == rest;
      BrokerSees(written[1..]);
      assert written == [p] + written[1..];
    }
  }

  ghost predicate AllFrame(packets: seq<Packet>) {
    forall i | 0 <= i < |packets| :: SelfFraming(packets[i])
  }

  lemma NarrowedFrames(packetId: U16, granted: seq<(Text, nat)>)
    requires ValidEntries(granted) && Narrowed(packetId, granted).Ok?
    ensures SelfFraming(Narrowed(packetId, granted).value)
  {
    var p := Narrowed(packetId, granted).value;
    BuiltPacketFrames(SUBSCRIBE, 2, p.payload, []);
    assert p.raw + [] == p.raw;
  }

  lemma RefreshWrites(s: Session, env: Env)
    ensures Refresh(s, env).0.toBroker == s.toBroker
  {}

  lemma PublishWritesFrames(s: Session, packet: Packet, index: nat, env: Env)
    requires AllFrame(s.toBroker) && SelfFraming(packet)
    ensures AllFrame(OnPublish(s, packet, index, env).toBroker)
  {
    hide SelfFraming, ScopePermits, Expired, DecodePublish, BuildPublish, Puback;
    if DecodePublish(packet).Ok? {
      RefreshWrites(s, env);
    }
  }

  lemma StepWritesFrames(s: Session, packet: Packet, index: nat, env: Env)
    requires AllFrame(s.toBroker) && SelfFraming(packet)
    ensures AllFrame(Step(s, packet, index, env).toBroker)
  {
    hide OnPublish, OnSubscribe, SelfFraming;
    if packet.packetType == PUBLISH {
      PublishWritesFrames(s, packet, index, env);
    } else if packet.packetType == SUBSCRIBE {
      SubscriptionWritesFrames(s, packet, index, env);
    }
  }

  lemma SubscriptionWritesFrames(s: Session, packet: Packet, index: nat, env: Env)
    requires AllFrame(s.toBroker)
    ensures AllFrame(OnSubscribe(s, packet, index, env).toBroker)
  {
    hide SelfFraming, Subscribe, DecodeEntries;
    if SubscribeOf(packet.payload).Ok? {
      RequestIsValid(packet.payload);
      RefreshWrites(s, env);
      var (current, basis) := Refresh(s, env);
      SubscribeWritesFrames(current, SubscribeOf(packet.payload).value, index, basis);
    }
  }

  lemma SubscribeWritesFrames(s: Session, request: SubscribePacket, index: nat, basis: Basis)
    requires ValidEntries(request.subscriptions) && AllFrame(s.toBroker)
    ensures AllFrame(Subscribe(s, request, index, basis).toBroker)
  {
    hide SelfFraming, Granted, ScopePermits, SubscribeBody, BuildPacket, BuildSuback, Codes;
    GrantedAreValid(request.subscriptions, s.decision.scope);
    var granted := Granted(request.subscriptions, s.decision.scope);
    if Narrowed(request.packetId, granted).Ok? { NarrowedFrames(request.packetId, granted); }
  }

  lemma {:induction false} RunWritesFrames(start: Session, packets: seq<Packet>, n: nat, env: Env)
    requires Fresh(start) && n <= |packets| && AllFrame(packets)
    ensures AllFrame(Run(start, packets, n, env).toBroker)
  {
    hide Step, SelfFraming;
    if n > 0 {
      RunWritesFrames(start, packets, n - 1, env);
      assert SelfFraming(packets[n - 1]);
      StepWritesFrames(Run(start, packets, n - 1, env), packets[n - 1], n - 1, env);
    }
  }

  /** End to end, from the client's bytes to the broker's: the PUBLISHes and SUBSCRIBEs the broker frames out of what it
      receives are, in order, packets the client sent, each let through under the decision then in force; nothing it is
      owed is held back; the counters are those of the packets handled. */
  lemma BrokerReceivesOnlyJustified(start: Session, input: seq<byte>, env: Env)
    requires Fresh(start)
    ensures var packets := Packets(input);
      var n := |packets|;
      var s := Run(start, packets, n, env);
      var h := Handled(start, packets, n, env);
      && Packets(RawBytes(s.toBroker)) == s.toBroker
      && RunInvariant(start, s, packets, n, h, env)
      && h <= n && Delivered(start, Run(start, packets, h, env), packets, h, env) && AllJudged(start, packets, h, env)
      && s.toBroker == Run(start, packets, h, env).toBroker +
           if h < n && packets[h].packetType == DISCONNECT then [packets[h]] else []
  {
    hide RunInvariant, Run, Delivered, AllJudged, Handled;
    var packets := Packets(input);
    RawIsThePrefix(input);
    assert AllFrame(packets) && Sized(packets) by {
      assert forall i | 0 <= i < |packets| :: packets[i] in packets;
    }
    RunKeeps(start, packets, |packets|, env);
    RunDelivers(start, packets, |packets|, env);
    RunWritesFrames(start, packets, |packets|, env);
    BrokerSees(Run(start, packets, |packets|, env).toBroker);
  }
}
