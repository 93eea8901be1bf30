/** The enforcement proxy's client loop (enforcement/mqtt_gateway.py), sequentially and against an
    arbitrary decision service. */
module Gateway {
  import opened Base
  import opened Codec
  import opened Stream
  import opened Topics
  import opened Policy

  // -- what the loop cannot see --------------------------------------------------

  /** What `json.loads` and the two lookups make of a step-up answer. Looking a name up in JSON that is no object
      raises a TypeError, which nothing catches. */
  datatype StepUpBody = Answer | Unreadable | NotAnObject

  /** The decision service, the clock, and the JSON of step-up messages. `decide(n)` answers the n-th request of
      the session, None when it raises; `clock(n)` is the n-th reading. */
  datatype Env = Env(
    deviceId: Text, decide: nat -> Option<Decision>, clock: nat -> Instant,
    parse: seq<byte> -> StepUpBody, announcement: Decision -> seq<byte>)

  const CTL: Text := [99, 116, 108, SLASH]
  const RESPONSE: Text := [SLASH, 114, 101, 115, 112, 111, 110, 115, 101]
  const DECISION: Text := [SLASH, 100, 101, 99, 105, 115, 105, 111, 110]

  /** `ctl/{device_id}/response`. */
  function ResponseTopic(deviceId: Text): Text { CTL + deviceId + RESPONSE }

  /** `ctl/{device_id}/decision`. */
  function DecisionTopic(deviceId: Text): Text { CTL + deviceId + DECISION }

  const SUBACK_FAILURE: nat := 128

  datatype CloseReason =
    | ClientClosed | ClientDisconnect | SessionTerminated(action: PolicyAction)
    | UnsupportedPacket(packetType: PacketType) | ProtocolFailure(error: ProtocolError)
    | EnforcementFailure | UncaughtError

  // -- the session, as a value ----------------------------------------------------

  /** Why the decision a packet was judged under counted as current: the clock reading with this number showed it
      unexpired, or the service gave it for this packet. */
  datatype Basis = CheckedAt(reading: nat) | ObtainedForPacket

  /** The client's packet number `index`, a PUBLISH or a SUBSCRIBE, was let through under this decision. */
  datatype Relay = Relay(index: nat, decision: Decision, basis: Basis)

  datatype Session = Session(
    decision: Decision, asked: nat, readings: nat,
    toBroker: seq<Packet>, toClient: seq<seq<byte>>, relayed: seq<Relay>,
    publishesAllowed: nat, publishesDenied: nat, subscriptionsAllowed: nat, subscriptionsDenied: nat,
    stepUpSuccesses: nat, stepUpFailures: nat,
    ended: Option<CloseReason>)

  function End(s: Session, reason: CloseReason): Session { s.(ended := Some(reason)) }

  function Forward(s: Session, packet: Packet): Session { s.(toBroker := s.toBroker + [packet]) }

  function Reply(s: Session, bytes: seq<byte>): Session { s.(toClient := s.toClient + [bytes]) }

  /** `_decide`. */
  function Decide(s: Session, env: Env): Session {
    match env.decide(s.asked)
    case None => End(s, EnforcementFailure)
    case Some(d) => s.(decision := d, asked := s.asked + 1)
  }

  /** `_refresh_if_needed`, with the reason the resulting decision is current. A decision without a lifetime is expired
      without a look at the clock. */
  function Refresh(s: Session, env: Env): (Session, Basis) {
    if s.decision.ttlMs <= 0 then (Decide(s, env), ObtainedForPacket)
    else
      var read := s.(readings := s.readings + 1);
      if Expired(s.decision, env.clock(s.readings)) then (Decide(read, env), ObtainedForPacket)
      else (read, CheckedAt(s.readings))
  }

  /** `build_puback`. */
  function Puback(packetId: U16): seq<byte> {
    BuildPacket(PUBACK, 0, U16Bytes(packetId)).value
  }

  function Acknowledge(s: Session, publish: PublishPacket): Session {
    if publish.qos == 1 && publish.packetId.Some? then Reply(s, Puback(publish.packetId.value)) else s
  }

  /** `_announce_decision`. */
  function Announce(s: Session, env: Env): Session {
    match BuildPublish(DecisionTopic(env.deviceId), env.announcement(s.decision), 0, None, false)
    case Err(e) => End(s, ProtocolFailure(e))
    case Ok(bytes) => Reply(s, bytes)
  }

  /** `_handle_step_up_response`. */
  function AnswerStepUp(s: Session, publish: PublishPacket, env: Env): Session {
    match env.parse(publish.payload)
    case NotAnObject => End(s, UncaughtError)
    case Unreadable => s.(stepUpFailures := s.stepUpFailures + 1)
    case Answer =>
      var asked := Decide(s, env);
      if asked.ended.Some? then asked
      else if asked.decision.action == STEP_UP_AUTHENTICATION || Terminating(asked.decision.action)
      then Announce(asked.(stepUpFailures := s.stepUpFailures + 1), env)
      else Announce(asked.(stepUpSuccesses := s.stepUpSuccesses + 1), env)
  }

  function StopIfRefused(s: Session): Session {
    if Terminating(s.decision.action) then End(s, SessionTerminated(s.decision.action)) else s
  }

  function OnResponse(s: Session, publish: PublishPacket, env: Env): Session {
    var answered := AnswerStepUp(s, publish, env);
    if answered.ended.Some? then answered else StopIfRefused(Acknowledge(answered, publish))
  }

  /** The packet is let through under the decision in force. */
  function Noted(s: Session, index: nat, basis: Basis): Session {
    s.(relayed := s.relayed + [Relay(index, s.decision, basis)])
  }

  /** The decision in force judges the topic: relay the packet as it came, or drop it. */
  function RelayOrDrop(s: Session, packet: Packet, publish: PublishPacket, index: nat, basis: Basis): Session {
    if ScopePermits(s.decision.scope, publish.topic) then
      Forward(Noted(s, index, basis).(publishesAllowed := s.publishesAllowed + 1), packet)
    else Acknowledge(s.(publishesDenied := s.publishesDenied + 1), publish)
  }

  function OnPublish(s: Session, packet: Packet, index: nat, env: Env): Session {
    match DecodePublish(packet)
    case Err(e) => End(s, ProtocolFailure(e))
    case Ok(publish) =>
      if publish.topic == ResponseTopic(env.deviceId) then OnResponse(s, publish, env)
      else
        var (current, basis) := Refresh(s, env);
        if current.ended.Some? then current
        else if Terminating(current.decision.action) then End(current, SessionTerminated(current.decision.action))
        else RelayOrDrop(current, packet, publish, index, basis)
  }

  /** The permitted filters, in order. */
  function Granted(entries: seq<(Text, nat)>, scope: AccessScope): seq<(Text, nat)> {
    if entries == [] then []
    else
      var n := |entries| - 1;
      Granted(entries[..n], scope) + if ScopePermits(scope, entries[n].0) then [entries[n]] else []
  }

  /** The SUBACK codes: the requested QoS of a permitted filter, 0x80 for a refused one. */
  function Codes(entries: seq<(Text, nat)>, scope: AccessScope): seq<nat> {
    seq(|entries|, i requires 0 <= i < |entries| =>
      if ScopePermits(scope, entries[i].0) then entries[i].1 else SUBACK_FAILURE)
  }

  function AsBytes(codes: seq<nat>): seq<byte> {
    seq(|codes|, i requires 0 <= i < |codes| => (codes[i] % 256) as byte)
  }

  /** `build_suback`. */
  function BuildSuback(packetId: U16, codes: seq<nat>): Result<seq<byte>, ProtocolError> {
    BuildPacket(SUBACK, 0, U16Bytes(packetId) + AsBytes(codes))
  }

  function SendSuback(s: Session, packetId: U16, codes: seq<nat>): Session {
    match BuildSuback(packetId, codes)
    case Err(e) => End(s, ProtocolFailure(e))
    case Ok(bytes) => Reply(s, bytes)
  }

  /** The SUBSCRIBE sent upstream, carrying only permitted filters. */
  function Narrowed(packetId: U16, granted: seq<(Text, nat)>): Result<Packet, ProtocolError>
    requires ValidEntries(granted)
  {
    var body := SubscribeBody(packetId, granted);
    var raw :- BuildPacket(SUBSCRIBE, 2, body);
    Ok(Packet(SUBSCRIBE, 2, body, raw))
  }

  lemma {:induction false} GrantedAreValid(entries: seq<(Text, nat)>, scope: AccessScope)
    requires ValidEntries(entries)
    ensures ValidEntries(Granted(entries, scope)) && |Granted(entries, scope)| <= |entries|
  {
    if entries != [] {
      GrantedAreValid(entries[..|entries| - 1], scope);
    }
  }

  lemma RequestIsValid(payload: seq<byte>)
    requires SubscribeOf(payload).Ok?
    ensures ValidEntries(SubscribeOf(payload).value.subscriptions)
  {
    DecodedEntries(payload, 2);
  }

  /** Forward the permitted filters; when some were refused, answer for all of them. */
  function SendNarrowed(s: Session, packetId: U16, granted: seq<(Text, nat)>, codes: seq<nat>, index: nat,
                        basis: Basis): Session
    requires ValidEntries(granted)
  {
    match Narrowed(packetId, granted)
    case Err(e) => End(s, ProtocolFailure(e))
    case Ok(upstream) =>
      var sent := Forward(Noted(s, index, basis), upstream);
      if |granted| != |codes| then SendSuback(sent, packetId, codes) else sent
  }

  function Subscribe(s: Session, request: SubscribePacket, index: nat, basis: Basis): Session
    requires ValidEntries(request.subscriptions)
  {
    GrantedAreValid(request.subscriptions, s.decision.scope);
    var granted := Granted(request.subscriptions, s.decision.scope);
    var codes := Codes(request.subscriptions, s.decision.scope);
    var counted := s.(subscriptionsAllowed := s.subscriptionsAllowed + |granted|,
                      subscriptionsDenied := s.subscriptionsDenied + (|request.subscriptions| - |granted|));
    if granted == [] then SendSuback(counted, request.packetId, codes)
    else SendNarrowed(counted, request.packetId, granted, codes, index, basis)
  }

  function OnSubscribe(s: Session, packet: Packet, index: nat, env: Env): Session {
    match SubscribeOf(packet.payload)
    case Err(e) => End(s, ProtocolFailure(e))
    case Ok(request) =>
      var (current, basis) := Refresh(s, env);
      if current.ended.Some? then current
      else if Terminating(current.decision.action) then End(current, SessionTerminated(current.decision.action))
      else
        RequestIsValid(packet.payload);
        Subscribe(current, request, index, basis)
  }

  /** One pass of the loop. */
  function Step(s: Session, packet: Packet, index: nat, env: Env): Session {
    match packet.packetType
    case DISCONNECT => End(Forward(s, packet), ClientDisconnect)
    case PUBLISH => OnPublish(s, packet, index, env)
    case SUBSCRIBE => OnSubscribe(s, packet, index, env)
    case PINGREQ => Forward(s, packet)
    case PUBACK => Forward(s, packet)
    case UNSUBSCRIBE => Forward(s, packet)
    case PUBREC => Forward(s, packet)
    case PUBREL => Forward(s, packet)
    case PUBCOMP => Forward(s, packet)
    case other => End(s, UnsupportedPacket(other))
  }

  /** The loop over the first n packets. */
  function Run(start: Session, packets: seq<Packet>, n: nat, env: Env): Session
    requires n <= |packets|
  {
    if n == 0 then start
    else
      var before := Run(start, packets, n - 1, env);
      if before.ended.Some? then before else Step(before, packets[n - 1], n - 1, env)
  }

  /** How the loop leaves when the client's stream stops before anything else ended it. */
  function Close(s: Session, ending: Frame): Session
    requires !ending.Framed?
  {
    if s.ended.Some? then s
    else if ending == EndOfStream then End(s, ClientClosed) else End(s, ProtocolFailure(ending.error))
  }

  // -- SUBSCRIBE ------------------------------------------------------------

  lemma {:induction false} GrantedIsNoLonger(entries: seq<(Text, nat)>, scope: AccessScope)
    requires ValidEntries(entries)
    ensures ValidEntries(Granted(entries, scope))
    ensures |EncodeEntries(Granted(entries, scope))| <= |EncodeEntries(entries)|
  {
    GrantedAreValid(entries, scope);
    if entries != [] {
      var n := |entries| - 1;
      GrantedIsNoLonger(entries[..n], scope);
      var fewer := Granted(entries[..n], scope);
      EncodeEntriesSnoc(entries[..n], entries[n]);
      assert entries[..n] + [entries[n]] == entries;
      EncodeEntriesSnoc(fewer, entries[n]);
      assert Granted(entries, scope) == if ScopePermits(scope, entries[n].0) then fewer + [entries[n]] else fewer;
    }
  }

  lemma {:induction false} EncodeEntriesSnoc(entries: seq<(Text, nat)>, last: (Text, nat))
    requires ValidEntries(entries) && ValidEntry(last)
    ensures ValidEntries(entries + [last])
    ensures |EncodeEntries(entries + [last])| == |EncodeEntries(entries)| + |EncodeEntry(last)|
  {
    if entries == [] {
      assert [] + [last] == [last];
    } else {
      EncodeEntriesSnoc(entries[1..], last);
      assert (entries + [last])[1..] == entries[1..] + [last];
    }
  }

  /** For a packet that was framed, narrowing never fails; what goes upstream decodes to exactly the permitted filters
      under the client's packet identifier, and the loop's own SUBACK answers every filter in order. */
  lemma SubscribeOutcome(s: Session, packet: Packet, index: nat, basis: Basis)
    requires |packet.payload| <= MAX_REMAINING_LENGTH && SubscribeOf(packet.payload).Ok? && s.ended.None?
    ensures var request := SubscribeOf(packet.payload).value;
      var granted, codes :=
          Granted(request.subscriptions, s.decision.scope), Codes(request.subscriptions, s.decision.scope);
      && ValidEntries(request.subscriptions)
      && var t := Subscribe(s, request, index, basis);
      && t.ended.None?
      && (granted == [] ==> t.toBroker == s.toBroker)
      && (granted != [] ==>
            && |t.toBroker| == |s.toBroker| + 1 && t.toBroker[..|s.toBroker|] == s.toBroker
            && SubscribeOf(t.toBroker[|s.toBroker|].payload) == Ok(SubscribePacket(request.packetId, granted)))
      && (|granted| != |request.subscriptions| ==>
            && t.toClient == s.toClient + [BuildSuback(request.packetId, codes).value]
            && BuildSuback(request.packetId, codes).Ok?)
      && (|granted| == |request.subscriptions| ==> t.toClient == s.toClient)
  {
    DecodedEntries(packet.payload, 2);
    var request := SubscribeOf(packet.payload).value;
    var granted, codes :=
        Granted(request.subscriptions, s.decision.scope), Codes(request.subscriptions, s.decision.scope);
    GrantedIsNoLonger(request.subscriptions, s.decision.scope);
    EntriesTakeRoom(request.subscriptions);
    assert |SubscribeBody(request.packetId, granted)| <= |packet.payload|;
    if granted != [] {
      SubscribeRoundTrip(request.packetId, granted);
    }
  }

  lemma {:induction false} EntriesTakeRoom(entries: seq<(Text, nat)>)
    requires ValidEntries(entries)
    ensures |entries| <= |EncodeEntries(entries)|
  {
    if entries != [] { EntriesTakeRoom(entries[1..]); }
  }

  // -- the upstream CONNECT ------------------------------------------------------------

  /** `connect.username or connect.client_id`. */
  function DeviceIdOf(connect: ConnectPacket): Text {
    if connect.username.Some? && connect.username.value != [] then connect.username.value else connect.clientId
  }

  /** The CONNECT relayed upstream. */
  function UpstreamConnect(connect: ConnectPacket): Result<seq<byte>, ProtocolError>
  {
    BuildConnect(connect.clientId, Some(DeviceIdOf(connect)), None, connect.keepAlive, connect.CleanSession())
  }

  lemma DecodedConnectIsValid(packet: Packet)
    requires DecodeConnect(packet).Ok?
    ensures var c := DecodeConnect(packet).value;
      && ValidUtf8(c.clientId) && |c.clientId| <= MAX_FIELD
      && ValidUtf8(DeviceIdOf(c)) && |DeviceIdOf(c)| <= MAX_FIELD
  {}

  /** Whatever CONNECT a client sends, the one relayed upstream can be built, frames, and decodes to the client's own
      identifier, keep-alive and clean-session flag, the device as user name, no password and no will. */
  lemma UpstreamConnectCarriesNoCredential(packet: Packet, rest: seq<byte>)
    requires DecodeConnect(packet).Ok?
    ensures var c := DecodeConnect(packet).value;
      var upstream := UpstreamConnect(c);
      && upstream.Ok?
      && FrameOf(upstream.value + rest).Framed?
      && var p := FrameOf(upstream.value + rest).packet;
      && p.packetType == CONNECT && p.raw == upstream.value && DecodeConnect(p).Ok?
      && var d := DecodeConnect(p).value;
      && d.clientId == c.clientId && d.keepAlive == c.keepAlive && d.CleanSession() == c.CleanSession()
      && d.username == (if c.username == None || c.username == Some([]) then Some(c.clientId) else c.username)
      && d.password == None && d.willTopic == None && d.willPayload == None
  {
    var c := DecodeConnect(packet).value;
    DecodedConnectIsValid(packet);
    var body := ConnectBody(c.clientId, Some(DeviceIdOf(c)), None, c.keepAlive, c.CleanSession()).value;
    var raw := BuildPacket(CONNECT, 0, body).value;
    ConnectRoundTrip(c.clientId, Some(DeviceIdOf(c)), None, c.keepAlive, c.CleanSession(), raw);
    BuiltPacketFrames(CONNECT, 0, body, rest);
  }
}
