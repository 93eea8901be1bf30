/** The client's side of the client loop (enforcement/mqtt_gateway.py): when the decision service is asked, when and why
    a session ends, and what the client reads back, over every run. */
module Replies {
  import opened Base
  import opened Codec
  import Wire
  import opened Stream
  import opened Topics
  import opened Policy
  import opened Gateway
  import opened GatewayRuns

  // -- what a pass does ------------------------------------------------------------------

  /** What the loop makes of a packet, before it looks at any decision. */
  datatype Kind =
    | Undecodable(error: ProtocolError)
    | StepUp(body: StepUpBody, publish: PublishPacket)
    | Publish(publish: PublishPacket)
    | Subscription(request: SubscribePacket)
    | Leave | Through | Unsupported

  ghost function KindOf(packet: Packet, env: Env): Kind {
    match packet.packetType
    case PUBLISH =>
      (match DecodePublish(packet)
       case Err(e) => Undecodable(e)
       case Ok(p) =>
         if p.topic == ResponseTopic(env.deviceId) then StepUp(env.parse(p.payload), p) else Publish(p))
    case SUBSCRIBE =>
      (match SubscribeOf(packet.payload) case Err(e) => Undecodable(e) case Ok(q) => Subscription(q))
    case DISCONNECT => Leave
    case PINGREQ => Through
    case PUBACK => Through
    case UNSUBSCRIBE => Through
    case PUBREC => Through
    case PUBREL => Through
    case PUBCOMP => Through
    case _ => Unsupported
  }

  /** The decision service is asked once, and its answer is in force; or it fails, and that ends the session. */
  ghost predicate Asks(s: Session, t: Session, env: Env) {
    match env.decide(s.asked)
    case Some(d) => t.asked == s.asked + 1 && t.decision == d
    case None => t.asked == s.asked && t.decision == s.decision && t.ended == Some(EnforcementFailure)
  }

  ghost predicate KeepsDecision(s: Session, t: Session) {
    t.asked == s.asked && t.decision == s.decision
  }

  /** A decision that refuses the device: REAUTHENTICATE or DENY. */
  predicate Refusing(d: Decision) {
    d.action == REAUTHENTICATE || d.action == DENY
  }

  /** The session ends exactly when the decision now in force refuses the device. */
  ghost predicate EndsIfRefused(t: Session) {
    t.ended == if Refusing(t.decision) then Some(SessionTerminated(t.decision.action)) else None
  }

  /** The announcement fits a packet. */
  predicate Announceable(d: Decision, env: Env) {
    var topic := DecisionTopic(env.deviceId);
    |topic| <= MAX_FIELD && 2 + |topic| + |env.announcement(d)| <= MAX_REMAINING_LENGTH
  }

  /** What is wrong with one that does not: the topic is too long for a field, or else the whole for a packet. */
  function TooLong(env: Env): ProtocolError {
    if |DecisionTopic(env.deviceId)| > MAX_FIELD then StringTooLong else LengthOutOfRange
  }

  /** When a pass asks the service, and how it ends the session. A packet that needs judging asks exactly when the
      decision in force is out of time at the next reading of the clock. */
  ghost predicate Governs(s: Session, t: Session, packet: Packet, env: Env) {
    match KindOf(packet, env)
    case Undecodable(e) => KeepsDecision(s, t) && t.ended == Some(ProtocolFailure(e))
    case StepUp(NotAnObject, _) => KeepsDecision(s, t) && t.ended == Some(UncaughtError)
    case StepUp(Unreadable, _) => KeepsDecision(s, t) && t.ended == None
    case StepUp(Answer, _) =>
      && Asks(s, t, env)
      && (env.decide(s.asked).Some? ==>
            if Announceable(t.decision, env) then EndsIfRefused(t) else t.ended == Some(ProtocolFailure(TooLong(env))))
    case Publish(_) => JudgedInTime(s, t, env)
    case Subscription(_) => JudgedInTime(s, t, env)
    case Leave => KeepsDecision(s, t) && t.ended == Some(ClientDisconnect)
    case Through => KeepsDecision(s, t) && t.ended == None
    case Unsupported => KeepsDecision(s, t) && t.ended == Some(UnsupportedPacket(packet.packetType))
  }

  ghost predicate JudgedInTime(s: Session, t: Session, env: Env) {
    var current := InTime(s.decision, env.clock(s.readings));
    && (current ==> KeepsDecision(s, t))
    && (!current ==> Asks(s, t, env))
    && (current || env.decide(s.asked).Some? ==> EndsIfRefused(t))
    && t.readings == s.readings + (if s.decision.ttlMs > 0 then 1 else 0)
  }

  lemma RefreshInTime(s: Session, env: Env)
    requires Alive(s)
    ensures var t := Refresh(s, env).0;
      var current := InTime(s.decision, env.clock(s.readings));
      && (current ==> KeepsDecision(s, t) && t.ended == None)
      && (!current ==> Asks(s, t, env) && (env.decide(s.asked).Some? ==> t.ended == None))
      && t.readings == s.readings + (if s.decision.ttlMs > 0 then 1 else 0)
      && t == s.(decision := t.decision, asked := t.asked, readings := t.readings, ended := t.ended)
  {
    hide Expired;
    ExpiredIff(s.decision, env.clock(s.readings));
    NoLifetime(s.decision, env.clock(s.readings));
  }

  lemma NoLifetime(d: Decision, now: Instant)
    ensures d.ttlMs <= 0 ==> !InTime(d, now)
  {}

  lemma PublishGoverns(s: Session, packet: Packet, index: nat, env: Env)
    requires Alive(s) && packet.packetType == PUBLISH
    ensures Governs(s, OnPublish(s, packet, index, env), packet, env)
  {
    hide Refresh, DecodePublish, ScopePermits, InTime, AnswerStepUp, Puback;
    if DecodePublish(packet).Ok? {
      RefreshInTime(s, env);
      StepUpGoverns(s, DecodePublish(packet).value, env);
    }
  }

  lemma StepUpGoverns(s: Session, publish: PublishPacket, env: Env)
    requires Alive(s)
    ensures var t := AnswerStepUp(s, publish, env);
      match env.parse(publish.payload)
      case NotAnObject => KeepsDecision(s, t) && t.ended == Some(UncaughtError)
      case Unreadable => KeepsDecision(s, t) && t.ended == None
      case Answer =>
        && Asks(s, t, env)
        && (env.decide(s.asked).Some? ==>
              if Announceable(t.decision, env) then t.ended == None
              else t.ended == Some(ProtocolFailure(TooLong(env))))
  {
    hide VarInt, Terminating;
  }

  lemma SubscribeGoverns(s: Session, packet: Packet, index: nat, env: Env)
    requires Alive(s) && packet.packetType == SUBSCRIBE && |packet.payload| <= MAX_REMAINING_LENGTH
    ensures Governs(s, OnSubscribe(s, packet, index, env), packet, env)
  {
    hide Refresh, SubscribeOf, ScopePermits, InTime, Subscribe, Granted;
    if SubscribeOf(packet.payload).Ok? {
      RefreshInTime(s, env);
      RequestIsValid(packet.payload);
      var (current, basis) := Refresh(s, env);
      if Alive(current) {
        SubscribeEffect(current, packet, index, basis);
      }
    }
  }

  /** Every pass of the loop. */
  lemma StepGoverns(s: Session, packet: Packet, index: nat, env: Env)
    requires Alive(s) && |packet.payload| <= MAX_REMAINING_LENGTH
    ensures Governs(s, Step(s, packet, index, env), packet, env)
  {
    hide OnPublish, OnSubscribe, DecodePublish, SubscribeOf, JudgedInTime, EndsIfRefused, Asks;
    if packet.packetType == PUBLISH {
      PublishGoverns(s, packet, index, env);
    } else if packet.packetType == SUBSCRIBE {
      SubscribeGoverns(s, packet, index, env);
    }
  }

  /** Over every run: each pass asks the service when, and ends the session when and why, the packet and the decision in
      force call for it; and every packet that a reading of the clock let through was judged in time by it. */
  lemma RunGoverns(start: Session, packets: seq<Packet>, n: nat, env: Env)
    requires Fresh(start) && Sized(packets) && n <= |packets|
    ensures forall i | 0 <= i < n && Run(start, packets, i, env).ended.None? ::
      Governs(Run(start, packets, i, env), Run(start, packets, i + 1, env), packets[i], env)
    ensures var relayed := Run(start, packets, n, env).relayed;
      forall i | 0 <= i < |relayed| && relayed[i].basis.CheckedAt? ::
        0 < relayed[i].decision.ttlMs
        && env.clock(relayed[i].basis.reading) - relayed[i].decision.createdAt <= 1_000 * relayed[i].decision.ttlMs
  {
    hide Run, Step, Governs, Justified, Expired, Counted;
    forall i | 0 <= i < n && Run(start, packets, i, env).ended.None?
      ensures Governs(Run(start, packets, i, env), Run(start, packets, i + 1, env), packets[i], env)
    {
      RunKeeps(start, packets, i, env);
      HandledAlive(start, packets, i, env);
      OnePass(start, packets, i, env);
      SizedAt(packets, i);
      StepGoverns(Run(start, packets, i, env), packets[i], i, env);
    }
    RunKeeps(start, packets, n, env);
    var s := Run(start, packets, n, env);
    forall i | 0 <= i < |s.relayed| && s.relayed[i].basis.CheckedAt?
      ensures InTime(s.relayed[i].decision, env.clock(s.relayed[i].basis.reading))
    {
      var p := s.relayed[i].index;
      RelayInTime(Run(start, packets, p, env), packets[p], Guarded(s.toBroker)[i], s.relayed[i], env);
    }
  }

  lemma RelayInTime(b: Session, packet: Packet, sent: Packet, relay: Relay, env: Env)
    requires Justified(b, packet, sent, relay, env) && relay.basis.CheckedAt?
    ensures InTime(relay.decision, env.clock(relay.basis.reading))
  {
    ExpiredIff(relay.decision, env.clock(relay.basis.reading));
  }

  // -- what the client reads back ----------------------------------------------------------

  /** A packet of the loop's own to the client. */
  datatype Message =
    | Acknowledged(packetId: U16)
    | Subscribed(request: SubscribePacket, scope: AccessScope)
    | Announced(decision: Decision)

  ghost predicate StartsWith(payload: seq<byte>, packetId: U16) {
    |payload| >= 2 && 256 * payload[0] as int + payload[1] as int == packetId
  }

  /** The bytes are one packet that says this: a PUBACK with the identifier; a SUBACK with the request's identifier and
      for each filter, in order, the quality of service asked for, or 0x80 where the scope refuses it; or a PUBLISH, of
      QoS 0 and not retained, of the decision on the device's own control topic. */
  ghost predicate Conveys(bytes: seq<byte>, m: Message, env: Env) {
    var f := FrameOf(bytes);
    && f.Framed? && f.length == |bytes|
    && var p := f.packet;
    && p.raw == bytes && p.flags == 0
    && match m
       case Acknowledged(id) => p.packetType == PUBACK && |p.payload| == 2 && StartsWith(p.payload, id)
       case Subscribed(request, scope) =>
         var filters := request.subscriptions;
         && p.packetType == SUBACK && |p.payload| == 2 + |filters| && StartsWith(p.payload, request.packetId)
         && forall i | 0 <= i < |filters| ::
              p.payload[2 + i] as int == if ScopePermits(scope, filters[i].0) then filters[i].1 else 0x80
       case Announced(d) =>
         && p.packetType == PUBLISH
         && DecodePublish(p)
            == Ok(PublishPacket(DecisionTopic(env.deviceId), None, env.announcement(d), 0, false, false))
  }

  ghost predicate AllConvey(written: seq<seq<byte>>, messages: seq<Message>, env: Env) {
    |written| == |messages| && forall i | 0 <= i < |written| :: Conveys(written[i], messages[i], env)
  }

  ghost predicate SomeRefused(request: SubscribePacket, scope: AccessScope) {
    exists i | 0 <= i < |request.subscriptions| :: !ScopePermits(scope, request.subscriptions[i].0)
  }

  /** The identifier of a QoS 1 PUBLISH is acknowledged. */
  function Ack(publish: PublishPacket): seq<Message> {
    if publish.qos == 1 && publish.packetId.Some? then [Acknowledged(publish.packetId.value)] else []
  }

  /** What the pass from s to t owes the client: a PUBACK for a dropped PUBLISH and for a step-up response that did not
      break the session, the announcement of what that response led to, and a SUBACK when some filter is refused. */
  ghost function Due(s: Session, t: Session, packet: Packet, env: Env): seq<Message> {
    match KindOf(packet, env)
    case StepUp(body, publish) =>
      if t.ended.Some? && !t.ended.value.SessionTerminated? then []
      else News(body, t.decision) + Ack(publish)
    case Publish(publish) => if t.ended.Some? || ScopePermits(t.decision.scope, publish.topic) then [] else Ack(publish)
    case Subscription(request) =>
      if t.ended.Some? || !SomeRefused(request, t.decision.scope) then []
      else [Subscribed(request, t.decision.scope)]
    case _ => []
  }

  /** The pass writes exactly what it owes. */
  ghost predicate Answers(s: Session, t: Session, packet: Packet, env: Env) {
    && |s.toClient| <= |t.toClient| && t.toClient[..|s.toClient|] == s.toClient
    && AllConvey(t.toClient[|s.toClient|..], Due(s, t, packet, env), env)
  }

  lemma PubackConveys(id: U16, env: Env)
    ensures Conveys(Puback(id), Acknowledged(id), env)
  {
    hide FrameOf, VarInt;
    BuiltPacketFrames(PUBACK, 0, U16Bytes(id), []);
    assert Puback(id) + [] == Puback(id);
  }

  lemma SubackConveys(request: SubscribePacket, scope: AccessScope, env: Env)
    requires ValidEntries(request.subscriptions) && 2 + |request.subscriptions| <= MAX_REMAINING_LENGTH
    ensures var bytes := BuildSuback(request.packetId, Codes(request.subscriptions, scope));
      bytes.Ok? && Conveys(bytes.value, Subscribed(request, scope), env)
  {
    hide FrameOf, VarInt, ScopePermits;
    var codes := Codes(request.subscriptions, scope);
    var payload := U16Bytes(request.packetId) + AsBytes(codes);
    var bytes := BuildSuback(request.packetId, codes).value;
    BuiltPacketFrames(SUBACK, 0, payload, []);
    assert bytes + [] == bytes;
    forall i | 0 <= i < |request.subscriptions|
      ensures payload[2 + i] as int
           == if ScopePermits(scope, request.subscriptions[i].0) then request.subscriptions[i].1 else 0x80
    {
      assert ValidEntry(request.subscriptions[i]);
      assert payload[2 + i] == AsBytes(codes)[i];
    }
  }

  lemma TopicIsUtf8(id: Text)
    requires ValidUtf8(id)
    ensures ValidUtf8(DecisionTopic(id))
  {
    AsciiIsUtf8(CTL);
    AsciiIsUtf8(DECISION);
    Wire.Utf8Append(CTL, id, Between);
    Wire.Utf8Append(CTL + id, DECISION, Between);
  }

  lemma AnnouncementConveys(s: Session, env: Env)
    requires ValidUtf8(env.deviceId) && s.ended.None?
    ensures var t := Announce(s, env);
      if Announceable(s.decision, env) then
        t.ended.None? && |t.toClient| == |s.toClient| + 1 && t.toClient[..|s.toClient|] == s.toClient
        && Conveys(t.toClient[|s.toClient|], Announced(s.decision), env)
      else t.toClient == s.toClient && t.ended.Some? && t.ended.value.ProtocolFailure?
  {
    hide FrameOf, VarInt, ValidUtf8, DecisionTopic, DecodePublish;
    var topic, text := DecisionTopic(env.deviceId), env.announcement(s.decision);
    if Announceable(s.decision, env) {
      TopicIsUtf8(env.deviceId);
      var body := PublishBody(topic, text, 0, None).value;
      var raw := BuildPublish(topic, text, 0, None, false).value;
      PublishRoundTrip(topic, text, 0, None, false, raw);
      BuiltPacketFrames(PUBLISH, 0, body, []);
      assert raw + [] == raw;
    }
  }

  lemma MoreMessages(a: seq<seq<byte>>, b: seq<seq<byte>>, m: seq<Message>, n: seq<Message>, env: Env)
    requires AllConvey(a, m, env) && AllConvey(b, n, env)
    ensures AllConvey(a + b, m + n, env)
  {
    hide Conveys;
  }

  lemma AckConveys(s: Session, publish: PublishPacket, env: Env) returns (sent: seq<seq<byte>>)
    ensures Acknowledge(s, publish) == s.(toClient := s.toClient + sent) && AllConvey(sent, Ack(publish), env)
  {
    hide Conveys, Puback;
    if publish.qos == 1 && publish.packetId.Some? {
      sent := [Puback(publish.packetId.value)];
      PubackConveys(publish.packetId.value, env);
    } else {
      sent := [];
      assert s.toClient + [] == s.toClient;
    }
  }

  /** Told of the decision, if a decision was asked for. */
  function News(body: StepUpBody, d: Decision): seq<Message> {
    if body == Answer then [Announced(d)] else []
  }

  lemma AnnounceWrites(s: Session, env: Env) returns (told: seq<seq<byte>>)
    requires ValidUtf8(env.deviceId) && s.ended.None?
    ensures var t := Announce(s, env);
      && t.toClient == s.toClient + told && t.decision == s.decision
      && if t.ended.None? then AllConvey(told, [Announced(s.decision)], env)
         else told == [] && t.ended.value.ProtocolFailure?
  {
    hide Conveys, ValidUtf8, BuildPublish, Announceable;
    AnnouncementConveys(s, env);
    told := Announce(s, env).toClient[|s.toClient|..];
  }

  lemma AnswerWrites(s: Session, publish: PublishPacket, env: Env) returns (told: seq<seq<byte>>)
    requires Alive(s) && ValidUtf8(env.deviceId)
    ensures var t := AnswerStepUp(s, publish, env);
      && t.toClient == s.toClient + told
      && if t.ended.None? then AllConvey(told, News(env.parse(publish.payload), t.decision), env)
         else told == [] && !t.ended.value.SessionTerminated?
  {
    hide Conveys, Announce, ValidUtf8;
    told := [];
    assert s.toClient + [] == s.toClient;
    if env.parse(publish.payload) == Answer && env.decide(s.asked).Some? {
      var asked := Gateway.Decide(s, env);
      if asked.decision.action == STEP_UP_AUTHENTICATION || Terminating(asked.decision.action) {
        told := AnnounceWrites(asked.(stepUpFailures := s.stepUpFailures + 1), env);
      } else {
        told := AnnounceWrites(asked.(stepUpSuccesses := s.stepUpSuccesses + 1), env);
      }
    }
  }

  lemma StepUpAnswers(s: Session, packet: Packet, publish: PublishPacket, env: Env)
    requires Alive(s) && KindOf(packet, env) == StepUp(env.parse(publish.payload), publish) && ValidUtf8(env.deviceId)
    ensures Answers(s, OnResponse(s, publish, env), packet, env)
  {
    hide KindOf, AllConvey, AnswerStepUp, Acknowledge, ValidUtf8;
    var answered, t := AnswerStepUp(s, publish, env), OnResponse(s, publish, env);
    var told := AnswerWrites(s, publish, env);
    var sent := AckConveys(answered, publish, env);
    if answered.ended.None? {
      assert t.toClient[|s.toClient|..] == told + sent;
      MoreMessages(told, sent, News(env.parse(publish.payload), t.decision), Ack(publish), env);
    } else {
      assert t.toClient[|s.toClient|..] == [];
      NoMessages(env);
    }
  }

  lemma NoMessages(env: Env)
    ensures AllConvey([], [], env)
  {}

  lemma Silent(s: Session, t: Session, packet: Packet, env: Env)
    requires t.toClient == s.toClient && Due(s, t, packet, env) == []
    ensures Answers(s, t, packet, env)
  {
    assert t.toClient[|s.toClient|..] == [];
  }

  lemma PublishAnswers(s: Session, packet: Packet, index: nat, env: Env)
    requires Alive(s) && packet.packetType == PUBLISH && ValidUtf8(env.deviceId)
    ensures Answers(s, OnPublish(s, packet, index, env), packet, env)
  {
    hide Refresh, DecodePublish, ScopePermits, OnResponse, Answers, Acknowledge, ValidUtf8;
    var t := OnPublish(s, packet, index, env);
    if DecodePublish(packet).Err? {
      Silent(s, t, packet, env);
    } else {
      var publish := DecodePublish(packet).value;
      if publish.topic == ResponseTopic(env.deviceId) {
        StepUpAnswers(s, packet, publish, env);
      } else {
        RefreshInTime(s, env);
        var (current, _) := Refresh(s, env);
        if !Alive(current) || ScopePermits(current.decision.scope, publish.topic) {
          Silent(s, t, packet, env);
        } else {
          var _ := AckConveys(current.(publishesDenied := current.publishesDenied + 1), publish, env);
          DropAnswers(s, current.(publishesDenied := current.publishesDenied + 1), t, packet, publish, env);
        }
      }
    }
  }

  lemma DropAnswers(s: Session, dropped: Session, t: Session, packet: Packet, publish: PublishPacket, env: Env)
    requires t == Acknowledge(dropped, publish) && dropped.toClient == s.toClient
    requires Due(s, t, packet, env) == Ack(publish)
    ensures Answers(s, t, packet, env)
  {
    hide Acknowledge, AllConvey, Due;
    var sent := AckConveys(dropped, publish, env);
    assert t.toClient[|s.toClient|..] == sent;
  }

  lemma {:induction false} AllGranted(entries: seq<(Text, nat)>, scope: AccessScope)
    ensures |Granted(entries, scope)| <= |entries|
    ensures |Granted(entries, scope)| == |entries|
       <==> forall i | 0 <= i < |entries| :: ScopePermits(scope, entries[i].0)
  {
    hide ScopePermits;
    if entries != [] {
      var n := |entries| - 1;
      AllGranted(entries[..n], scope);
      assert forall i | 0 <= i < n :: entries[..n][i] == entries[i];
    }
  }

  lemma SubscribeAnswers(s: Session, packet: Packet, index: nat, env: Env)
    requires Alive(s) && packet.packetType == SUBSCRIBE && |packet.payload| <= MAX_REMAINING_LENGTH
    ensures Answers(s, OnSubscribe(s, packet, index, env), packet, env)
  {
    hide Refresh, SubscribeOf, Subscribe, Granted, Codes, BuildSuback, Conveys, ScopePermits;
    var t := OnSubscribe(s, packet, index, env);
    if SubscribeOf(packet.payload).Ok? {
      RefreshInTime(s, env);
      RequestIsValid(packet.payload);
      var (current, basis) := Refresh(s, env);
      var request := SubscribeOf(packet.payload).value;
      if Alive(current) {
        SubscribeOutcome(current, packet, index, basis);
        SubscribeEffect(current, packet, index, basis);
        AllGranted(request.subscriptions, current.decision.scope);
        RoomForCodes(packet.payload);
        SubackConveys(request, current.decision.scope, env);
      }
    }
    assert t.toClient[|s.toClient|..] == if t.toClient == s.toClient then [] else t.toClient[|s.toClient|..];
  }

  lemma RoomForCodes(payload: seq<byte>)
    requires SubscribeOf(payload).Ok?
    ensures 2 + |SubscribeOf(payload).value.subscriptions| <= |payload|
  {
    DecodedEntries(payload, 2);
    EntriesTakeRoom(SubscribeOf(payload).value.subscriptions);
  }

  lemma StepAnswers(s: Session, packet: Packet, index: nat, env: Env)
    requires Alive(s) && |packet.payload| <= MAX_REMAINING_LENGTH && ValidUtf8(env.deviceId)
    ensures Answers(s, Step(s, packet, index, env), packet, env)
  {
    hide OnPublish, OnSubscribe, DecodePublish, SubscribeOf, ValidUtf8;
    if packet.packetType == PUBLISH {
      PublishAnswers(s, packet, index, env);
    } else if packet.packetType == SUBSCRIBE {
      SubscribeAnswers(s, packet, index, env);
    } else {
      Silent(s, Step(s, packet, index, env), packet, env);
    }
  }

  /** What the loop owes the client for the first n packets, as far as the session got. */
  ghost function AllDue(start: Session, packets: seq<Packet>, n: nat, env: Env): seq<Message>
    requires n <= |packets|
  {
    if n == 0 then []
    else
      AllDue(start, packets, n - 1, env) +
      if Run(start, packets, n - 1, env).ended.Some? then []
      else Due(Run(start, packets, n - 1, env), Run(start, packets, n, env), packets[n - 1], env)
  }

  /** Over every run, ended or not: the client has been sent exactly what it is owed, in order, byte for byte. */
  lemma {:induction false} RunAnswers(start: Session, packets: seq<Packet>, n: nat, env: Env)
    requires Fresh(start) && start.toClient == [] && Sized(packets) && n <= |packets| && ValidUtf8(env.deviceId)
    ensures AllConvey(Run(start, packets, n, env).toClient, AllDue(start, packets, n, env), env)
  {
    hide Step, Conveys, Due, ValidUtf8, RunInvariant;
    if n > 0 {
      var s, t := Run(start, packets, n - 1, env), Run(start, packets, n, env);
      RunAnswers(start, packets, n - 1, env);
      if s.ended.None? {
        AliveDelivers(start, packets, n - 1, env);
        StepAnswers(s, packets[n - 1], n - 1, env);
        MoreMessages(s.toClient, t.toClient[|s.toClient|..], AllDue(start, packets, n - 1, env),
                     Due(s, t, packets[n - 1], env), env);
        assert s.toClient + t.toClient[|s.toClient|..] == t.toClient;
      }
    }
  }

  /** A session that nothing ended until the client's stream did ends as the stream: closed by the client after a whole
      packet, or by the error in what came next. */
  ghost predicate LeavesAs(s: Session, ending: Frame)
    requires !ending.Framed?
  {
    var closed := Close(s, ending);
    && closed == s.(ended := closed.ended)
    && (s.ended.Some? ==> closed.ended == s.ended)
    && (s.ended.None? && ending.EndOfStream? ==> closed.ended == Some(ClientClosed))
    && (s.ended.None? && ending.Bad? ==> closed.ended == Some(ProtocolFailure(ending.error)))
  }

  /** From the client's bytes to the bytes it reads back, and to when the session asks and ends. */
  lemma ClientReadsAnswers(start: Session, input: seq<byte>, env: Env)
    requires Fresh(start) && start.toClient == [] && ValidUtf8(env.deviceId)
    ensures var packets := Packets(input);
      var n := |packets|;
      && AllConvey(Run(start, packets, n, env).toClient, AllDue(start, packets, n, env), env)
      && forall i | 0 <= i < n && Run(start, packets, i, env).ended.None? ::
           Governs(Run(start, packets, i, env), Run(start, packets, i + 1, env), packets[i], env)
    ensures LeavesAs(Run(start, Packets(input), |Packets(input)|, env), Ending(input))
  {
    hide Run, AllConvey, Governs, ValidUtf8, SelfFraming;
    var packets := Packets(input);
    RawIsThePrefix(input);
    assert Sized(packets) by { assert forall i | 0 <= i < |packets| :: packets[i] in packets; }
    RunAnswers(start, packets, |packets|, env);
    RunGoverns(start, packets, |packets|, env);
  }

  // -- step-up counters ------------------------------------------------------------------

  /** A step-up response that got an answer from the service. */
  ghost predicate Reconsidered(s: Session, packet: Packet, env: Env) {
    KindOf(packet, env).StepUp? && KindOf(packet, env).body == Answer && env.decide(s.asked).Some?
  }

  /** The step-up counters count the responses that led to a decision which neither asks for step-up again nor refuses
      the device, and those that led to another or could not be read. */
  ghost predicate CountsStepUps(s: Session, t: Session, packet: Packet, env: Env) {
    var failed := t.decision.action in {STEP_UP_AUTHENTICATION, REAUTHENTICATE, DENY};
    && t.stepUpSuccesses == s.stepUpSuccesses + (if Reconsidered(s, packet, env) && !failed then 1 else 0)
    && t.stepUpFailures == s.stepUpFailures +
         if (Reconsidered(s, packet, env) && failed)
            || (KindOf(packet, env).StepUp? && KindOf(packet, env).body == Unreadable) then 1 else 0
  }

  lemma StepUpCounts(s: Session, packet: Packet, publish: PublishPacket, env: Env)
    requires Alive(s) && KindOf(packet, env) == StepUp(env.parse(publish.payload), publish)
    ensures CountsStepUps(s, OnResponse(s, publish, env), packet, env)
  {
    hide KindOf, Puback, BuildPublish;
  }

  lemma PublishCounts(s: Session, packet: Packet, index: nat, env: Env)
    requires Alive(s) && packet.packetType == PUBLISH
    ensures CountsStepUps(s, OnPublish(s, packet, index, env), packet, env)
  {
    hide DecodePublish, Refresh, ScopePermits, Puback, OnResponse;
    RefreshInTime(s, env);
    if DecodePublish(packet).Ok? && DecodePublish(packet).value.topic == ResponseTopic(env.deviceId) {
      StepUpCounts(s, packet, DecodePublish(packet).value, env);
    }
  }

  lemma SubscribeCounts(s: Session, packet: Packet, index: nat, env: Env)
    requires Alive(s) && packet.packetType == SUBSCRIBE && |packet.payload| <= MAX_REMAINING_LENGTH
    ensures CountsStepUps(s, OnSubscribe(s, packet, index, env), packet, env)
  {
    hide SubscribeOf, Refresh, Subscribe, Granted, ScopePermits;
    RefreshInTime(s, env);
    if SubscribeOf(packet.payload).Ok? {
      RequestIsValid(packet.payload);
      var (current, basis) := Refresh(s, env);
      if Alive(current) { SubscribeEffect(current, packet, index, basis); }
    }
  }

  lemma StepCounts(s: Session, packet: Packet, index: nat, env: Env)
    requires Alive(s) && |packet.payload| <= MAX_REMAINING_LENGTH
    ensures CountsStepUps(s, Step(s, packet, index, env), packet, env)
  {
    hide OnPublish, OnSubscribe, DecodePublish, SubscribeOf;
    if packet.packetType == PUBLISH {
      PublishCounts(s, packet, index, env);
    } else if packet.packetType == SUBSCRIBE {
      SubscribeCounts(s, packet, index, env);
    }
  }

  /** In every run. */
  lemma RunCountsStepUps(start: Session, packets: seq<Packet>, n: nat, env: Env)
    requires Fresh(start) && Sized(packets) && n < |packets| && Run(start, packets, n, env).ended.None?
    ensures CountsStepUps(Run(start, packets, n, env), Run(start, packets, n + 1, env), packets[n], env)
  {
    hide Run, Step, CountsStepUps;
    AliveDelivers(start, packets, n, env);
    OnePass(start, packets, n, env);
    SizedAt(packets, n);
    StepCounts(Run(start, packets, n, env), packets[n], n, env);
  }
}
