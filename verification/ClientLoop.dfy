/** `_client_loop` and its helpers (enforcement/mqtt_gateway.py), writing to the two sides of the proxy and updating
    the session's counters in place. Proved against the value-level session of module Gateway. */
module ClientLoop {
  import opened Base
  import opened Codec
  import opened Stream
  import opened Topics
  import opened Policy
  import opened Gateway
  import GatewayRuns

  function Concat(writes: seq<seq<byte>>): seq<byte> {
    if writes == [] then [] else Concat(writes[..|writes| - 1]) + writes[|writes| - 1]
  }

  lemma ConcatSnoc(writes: seq<seq<byte>>, last: seq<byte>)
    ensures Concat(writes + [last]) == Concat(writes) + last
  {
    assert (writes + [last])[..|writes|] == writes;
  }

  class Connection {
    const env: Env
    const client: CountingWriter
    const broker: CountingWriter

    var decision: Decision
    var readings: nat
    // SessionStats
    var decisionsRequested: nat
    var publishesAllowed: nat
    var publishesDenied: nat
    var subscriptionsAllowed: nat
    var subscriptionsDenied: nat
    var stepUpSuccesses: nat
    var stepUpFailures: nat
    var closeReason: Option<CloseReason>

    ghost const brokerBefore: seq<byte>
    ghost const clientBefore: seq<byte>
    ghost var toBroker: seq<Packet>
    ghost var toClient: seq<seq<byte>>
    ghost var relayed: seq<Relay>

    /** What the two writers hold is what was there before, then the session's writes. */
    ghost predicate Valid()
      reads this, client, broker
    {
      && client != broker && client.Valid() && broker.Valid()
      && broker.written == brokerBefore + RawBytes(toBroker)
      && client.written == clientBefore + Concat(toClient)
    }

    ghost function View(): Session
      reads this
    {
      Session(decision, decisionsRequested, readings, toBroker, toClient, relayed,
              publishesAllowed, publishesDenied, subscriptionsAllowed, subscriptionsDenied,
              stepUpSuccesses, stepUpFailures, closeReason)
    }

    constructor (env: Env, client: CountingWriter, broker: CountingWriter, decision: Decision, decisionsRequested: nat)
      requires client != broker && client.Valid() && broker.Valid()
      ensures Valid() && this.env == env && this.client == client && this.broker == broker
      ensures brokerBefore == broker.written && clientBefore == client.written
      ensures View() == Session(decision, decisionsRequested, 0, [], [], [], 0, 0, 0, 0, 0, 0, None)
    {
      this.env, this.client, this.broker := env, client, broker;
      this.decision, this.decisionsRequested, readings := decision, decisionsRequested, 0;
      publishesAllowed, publishesDenied, subscriptionsAllowed, subscriptionsDenied := 0, 0, 0, 0;
      stepUpSuccesses, stepUpFailures, closeReason := 0, 0, None;
      brokerBefore, clientBefore := broker.written, client.written;
      toBroker, toClient, relayed := [], [], [];
    }

    method WriteBroker(packet: Packet)
      requires Valid()
      modifies this`toBroker, broker
      ensures Valid() && View() == Forward(old(View()), packet)
    {
      RawBytesSnoc(toBroker, packet);
      broker.Write(packet.raw);
      toBroker := toBroker + [packet];
    }

    method WriteClient(bytes: seq<byte>)
      requires Valid()
      modifies this`toClient, client
      ensures Valid() && View() == Reply(old(View()), bytes)
    {
      ConcatSnoc(toClient, bytes);
      client.Write(bytes);
      toClient := toClient + [bytes];
    }

    /** `_decide`. */
    method RequestDecision()
      requires Valid()
      modifies this
      ensures Valid() && View() == Decide(old(View()), env)
    {
      var answer := env.decide(decisionsRequested);
      if answer.None? {
        closeReason := Some(EnforcementFailure);
        return;
      }
      decisionsRequested := decisionsRequested + 1;
      decision := answer.value;
    }

    /** `_refresh_if_needed`. */
    method RefreshIfNeeded() returns (ghost basis: Basis)
      requires Valid()
      modifies this
      ensures Valid() && (View(), basis) == Refresh(old(View()), env)
    {
      basis := ObtainedForPacket;
      if decision.ttlMs > 0 {
        var now := env.clock(readings);
        readings := readings + 1;
        if !Expired(decision, now) {
          basis := CheckedAt(readings - 1);
          return;
        }
      }
      RequestDecision();
    }

    method AcknowledgePublish(publish: PublishPacket)
      requires Valid()
      modifies this, client
      ensures Valid() && View() == Acknowledge(old(View()), publish)
    {
      if publish.qos == 1 && publish.packetId.Some? {
        WriteClient(Puback(publish.packetId.value));
      }
    }

    /** `_announce_decision`. */
    method AnnounceDecision()
      requires Valid()
      modifies this, client
      ensures Valid() && View() == Announce(old(View()), env)
    {
      var built := BuildPublish(DecisionTopic(env.deviceId), env.announcement(decision), 0, None, false);
      if built.Err? {
        closeReason := Some(ProtocolFailure(built.error));
        return;
      }
      WriteClient(built.value);
    }

    /** `_handle_step_up_response`. */
    method HandleStepUpResponse(publish: PublishPacket)
      requires Valid() && closeReason.None?
      modifies this, client
      ensures Valid() && View() == AnswerStepUp(old(View()), publish, env)
    {
      hide Announce;
      var body := env.parse(publish.payload);
      if body == NotAnObject {
        closeReason := Some(UncaughtError);
        return;
      }
      if body == Unreadable {
        stepUpFailures := stepUpFailures + 1;
        return;
      }
      RequestDecision();
      if closeReason.Some? {
        return;
      }
      if decision.action == STEP_UP_AUTHENTICATION || Terminating(decision.action) {
        stepUpFailures := stepUpFailures + 1;
      } else {
        stepUpSuccesses := stepUpSuccesses + 1;
      }
      AnnounceDecision();
    }

    method HandleResponse(publish: PublishPacket)
      requires Valid() && closeReason.None?
      modifies this, client
      ensures Valid() && View() == OnResponse(old(View()), publish, env)
    {
      hide AnswerStepUp, Acknowledge;
      HandleStepUpResponse(publish);
      if closeReason.Some? {
        return;
      }
      AcknowledgePublish(publish);
      if Terminating(decision.action) {
        closeReason := Some(SessionTerminated(decision.action));
      }
    }

    method JudgePublish(packet: Packet, publish: PublishPacket, ghost index: nat, ghost basis: Basis)
      requires Valid()
      modifies this, client, broker
      ensures Valid() && View() == RelayOrDrop(old(View()), packet, publish, index, basis)
    {
      hide ScopePermits, ScopeVerdictOf;
      var verdict := EvaluateScope(decision.scope, publish.topic);
      if verdict.Allowed? {
        publishesAllowed := publishesAllowed + 1;
        relayed := relayed + [Relay(index, decision, basis)];
        WriteBroker(packet);
      } else {
        publishesDenied := publishesDenied + 1;
        AcknowledgePublish(publish);
      }
    }

    method HandlePublish(packet: Packet, ghost index: nat)
      requires Valid() && closeReason.None?
      modifies this, client, broker
      ensures Valid() && View() == OnPublish(old(View()), packet, index, env)
    {
      hide OnResponse, RelayOrDrop;
      var decoded := DecodePublish(packet);
      if decoded.Err? {
        closeReason := Some(ProtocolFailure(decoded.error));
        return;
      }
      var publish := decoded.value;
      if publish.topic == ResponseTopic(env.deviceId) {
        HandleResponse(publish);
        return;
      }
      ghost var basis := RefreshIfNeeded();
      if closeReason.Some? {
        return;
      }
      if Terminating(decision.action) {
        closeReason := Some(SessionTerminated(decision.action));
        return;
      }
      JudgePublish(packet, publish, index, basis);
    }

    /** The loop over the requested filters. */
    method JudgeFilters(entries: seq<(Text, nat)>) returns (granted: seq<(Text, nat)>, codes: seq<nat>)
      requires Valid()
      modifies this`subscriptionsAllowed, this`subscriptionsDenied
      ensures Valid() && granted == Granted(entries, decision.scope) && codes == Codes(entries, decision.scope)
      ensures |granted| <= |entries|
      ensures subscriptionsAllowed == old(subscriptionsAllowed) + |granted|
      ensures subscriptionsDenied == old(subscriptionsDenied) + (|entries| - |granted|)
    {
      hide ScopePermits, ScopeVerdictOf, Granted, Codes;
      granted, codes := [], [];
      NothingJudged(decision.scope);
      assert entries[..0] == [];
      for i := 0 to |entries|
        invariant Valid() && |granted| <= i
        invariant granted == Granted(entries[..i], decision.scope) && codes == Codes(entries[..i], decision.scope)
        invariant subscriptionsAllowed == old(subscriptionsAllowed) + |granted|
        invariant subscriptionsDenied == old(subscriptionsDenied) + (i - |granted|)
      {
        OneMoreJudged(entries, i, decision.scope);
        var verdict := EvaluateScope(decision.scope, entries[i].0);
        if verdict.Allowed? {
          granted := granted + [entries[i]];
          codes := codes + [entries[i].1];
          subscriptionsAllowed := subscriptionsAllowed + 1;
        } else {
          codes := codes + [SUBACK_FAILURE];
          subscriptionsDenied := subscriptionsDenied + 1;
        }
      }
      assert entries[..|entries|] == entries;
    }

    /** The loop that builds the body of the narrowed SUBSCRIBE. */
    method BuildNarrowedBody(packetId: U16, granted: seq<(Text, nat)>) returns (body: seq<byte>)
      requires ValidEntries(granted)
      ensures body == SubscribeBody(packetId, granted)
    {
      body := U16Bytes(packetId);
      for i := 0 to |granted|
        invariant body + EncodeEntries(granted[i..]) == SubscribeBody(packetId, granted)
      {
        assert granted[i..][1..] == granted[i + 1..];
        body := body + (Field(granted[i].0) + [granted[i].1 as byte]);
      }
    }

    method ReplySuback(packetId: U16, codes: seq<nat>)
      requires Valid()
      modifies this, client
      ensures Valid() && View() == SendSuback(old(View()), packetId, codes)
    {
      var built := BuildSuback(packetId, codes);
      if built.Err? {
        closeReason := Some(ProtocolFailure(built.error));
        return;
      }
      WriteClient(built.value);
    }

    method ForwardNarrowed(packetId: U16, granted: seq<(Text, nat)>, codes: seq<nat>, ghost index: nat,
                           ghost basis: Basis)
      requires Valid() && ValidEntries(granted)
      modifies this, client, broker
      ensures Valid() && View() == SendNarrowed(old(View()), packetId, granted, codes, index, basis)
    {
      var body := BuildNarrowedBody(packetId, granted);
      var built := BuildPacket(SUBSCRIBE, 2, body);
      if built.Err? {
        closeReason := Some(ProtocolFailure(built.error));
        return;
      }
      relayed := relayed + [Relay(index, decision, basis)];
      WriteBroker(Packet(SUBSCRIBE, 2, body, built.value));
      if |granted| != |codes| {
        ReplySuback(packetId, codes);
      }
    }

    method ApplySubscription(request: SubscribePacket, ghost index: nat, ghost basis: Basis)
      requires Valid() && ValidEntries(request.subscriptions)
      modifies this, client, broker
      ensures Valid() && View() == Subscribe(old(View()), request, index, basis)
    {
      hide SendNarrowed, SendSuback;
      GrantedAreValid(request.subscriptions, decision.scope);
      var granted, codes := JudgeFilters(request.subscriptions);
      if |granted| == 0 {
        ReplySuback(request.packetId, codes);
      } else {
        ForwardNarrowed(request.packetId, granted, codes, index, basis);
      }
    }

    method HandleSubscribe(packet: Packet, ghost index: nat)
      requires Valid() && closeReason.None?
      modifies this, client, broker
      ensures Valid() && View() == OnSubscribe(old(View()), packet, index, env)
    {
      hide Subscribe, DecodeEntries, SubscribeOf;
      var decoded := DecodeSubscribe(packet);
      if decoded.Err? {
        closeReason := Some(ProtocolFailure(decoded.error));
        return;
      }
      RequestIsValid(packet.payload);
      ghost var basis := RefreshIfNeeded();
      if closeReason.Some? {
        return;
      }
      if Terminating(decision.action) {
        closeReason := Some(SessionTerminated(decision.action));
        return;
      }
      ApplySubscription(decoded.value, index, basis);
    }

    method HandlePacket(packet: Packet, ghost index: nat)
      requires Valid() && closeReason.None?
      modifies this, client, broker
      ensures Valid() && View() == Step(old(View()), packet, index, env)
    {
      hide OnPublish, OnSubscribe;
      match packet.packetType
      case DISCONNECT =>
        WriteBroker(packet);
        closeReason := Some(ClientDisconnect);
      case PUBLISH => HandlePublish(packet, index);
      case SUBSCRIBE => HandleSubscribe(packet, index);
      case PINGREQ => WriteBroker(packet);
      case PUBACK => WriteBroker(packet);
      case UNSUBSCRIBE => WriteBroker(packet);
      case PUBREC => WriteBroker(packet);
      case PUBREL => WriteBroker(packet);
      case PUBCOMP => WriteBroker(packet);
      case other => closeReason := Some(UnsupportedPacket(other));
    }

    /** One pass of the loop, seen as one more step of the run. */
    method Pass(packet: Packet, ghost start: Session, ghost packets: seq<Packet>, ghost index: nat)
      requires Valid() && closeReason.None?
      requires index < |packets| && packet == packets[index]
      requires View() == Run(start, packets, index, env)
      modifies this, client, broker
      ensures Valid() && View() == Run(start, packets, index + 1, env)
    {
      HandlePacket(packet, index);
    }

    /** `_client_loop`: reads until the client's stream stops or a packet ends the session. The reader has taken the
        packets the loop saw and no more, and its counters say so. */
    method Serve(reader: PacketReader)
      requires Valid() && closeReason.None?
      modifies this, client, broker, reader
      ensures Valid()
      ensures var packets, k := Packets(old(reader.pending)), reader.packetsRead - old(reader.packetsRead);
        && 0 <= k <= |packets|
        && reader.bytesRead == old(reader.bytesRead) + |RawBytes(packets[..k])|
        && View() == Close(Run(old(View()), packets, k, env), Ending(old(reader.pending)))
        && (k < |packets| ==> Run(old(View()), packets, k, env).ended.Some?)
        && (k == |packets| && Ending(old(reader.pending)) == EndOfStream ==>
              reader.bytesRead == old(reader.bytesRead) + |old(reader.pending)|)
      ensures var packets := Packets(old(reader.pending));
        View() == Close(Run(old(View()), packets, |packets|, env), Ending(old(reader.pending)))
    {
      hide Step, Packets, Ending, Run, RawBytes, Concat;
      RawIsThePrefix(reader.pending);
      ghost var input, start := reader.pending, View();
      ghost var packets := Packets(input);
      ghost var index := 0;
      Begins(packets, start, env);
      while closeReason.None?
        invariant Valid() && index <= |packets|
        invariant closeReason.None? ==>
          packets[index..] == Packets(reader.pending) && Ending(input) == Ending(reader.pending)
        invariant reader.packetsRead == old(reader.packetsRead) + index
        invariant reader.bytesRead == old(reader.bytesRead) + |RawBytes(packets[..index])|
        invariant View() == Run(start, packets, index, env)
        decreases |packets| - index, closeReason.None?
      {
        var packet := NextPacket(reader);
        if packet.Err? {
          closeReason := Some(ProtocolFailure(packet.error));
          return;
        }
        if packet.value.None? {
          closeReason := Some(ClientClosed);
          return;
        }
        TakeOne(packets, index, packet.value.value, Packets(reader.pending));
        Pass(packet.value.value, start, packets, index);
        index := index + 1;
      }
      GatewayRuns.RunStopped(start, packets, index, |packets|, env);
    }
  }

  lemma NothingJudged(scope: AccessScope)
    ensures Granted([], scope) == [] && Codes([], scope) == []
  {}

  lemma OneMoreJudged(entries: seq<(Text, nat)>, i: nat, scope: AccessScope)
    requires i < |entries|
    ensures var permitted := ScopePermits(scope, entries[i].0);
      && Granted(entries[..i + 1], scope) == Granted(entries[..i], scope) + (if permitted then [entries[i]] else [])
      && Codes(entries[..i + 1], scope)
         == Codes(entries[..i], scope) + [if permitted then entries[i].1 else SUBACK_FAILURE]
  {
    hide ScopePermits;
    assert entries[..i + 1][..i] == entries[..i];
  }

  lemma NothingTaken(packets: seq<Packet>)
    ensures packets[0..] == packets && RawBytes(packets[..0]) == [] && packets[..|packets|] == packets
  {}

  lemma Begins(packets: seq<Packet>, start: Session, env: Env)
    ensures packets[0..] == packets && RawBytes(packets[..0]) == [] && packets[..|packets|] == packets
    ensures Run(start, packets, 0, env) == start
  {}

  lemma TakeOne(packets: seq<Packet>, k: nat, packet: Packet, rest: seq<Packet>)
    requires k <= |packets| && packets[k..] == [packet] + rest
    ensures k < |packets| && packets[k] == packet && packets[k + 1..] == rest
    ensures RawBytes(packets[..k + 1]) == RawBytes(packets[..k]) + packet.raw
  {
    assert packet == packets[k..][0] == packets[k];
    assert packets[k..][1..] == packets[k + 1..];
    assert packets[..k + 1] == packets[..k] + [packet];
    RawBytesSnoc(packets[..k], packet);
  }

  /** `read_packet`, seen as the head of the packets the stream still holds. */
  method NextPacket(reader: PacketReader) returns (r: Result<Option<Packet>, ProtocolError>)
    modifies reader
    ensures r.Ok? && r.value.Some? ==>
      && Packets(old(reader.pending)) == [r.value.value] + Packets(reader.pending)
      && Ending(old(reader.pending)) == Ending(reader.pending)
      && reader.bytesRead == old(reader.bytesRead) + |r.value.value.raw|
      && reader.packetsRead == old(reader.packetsRead) + 1
    ensures r.Ok? && r.value.None? ==> Packets(old(reader.pending)) == [] && Ending(old(reader.pending)) == EndOfStream
    ensures r.Err? ==> Packets(old(reader.pending)) == [] && Ending(old(reader.pending)) == Bad(r.error)
    ensures r.Err? || r.value.None? ==>
      reader.bytesRead == old(reader.bytesRead) && reader.packetsRead == old(reader.packetsRead)
  {
    r := reader.ReadPacket();
  }

  /** `_pump_broker_to_client`, left to run until its stream stops: whole packets are relayed as they came, all of them
      in order, and when the stream ends cleanly the client's side got exactly the broker's bytes. Both sides' counters
      add up. */
  method Pump(reader: PacketReader, writer: CountingWriter)
    requires writer.Valid()
    modifies reader, writer
    ensures writer.Valid()
    ensures var packets := Packets(old(reader.pending));
      && writer.written == old(writer.written) + RawBytes(packets)
      && reader.bytesRead == old(reader.bytesRead) + |RawBytes(packets)|
      && reader.packetsRead == old(reader.packetsRead) + |packets|
      && writer.packetsWritten == old(writer.packetsWritten) + |packets|
    ensures Ending(old(reader.pending)) == EndOfStream ==> writer.written == old(writer.written) + old(reader.pending)
  {
    hide Packets, Ending, RawBytes;
    ghost var input := reader.pending;
    ghost var packets, k := Packets(input), 0;
    RawIsThePrefix(input);
    NothingTaken(packets);
    var ended := false;
    while !ended
      invariant writer.Valid() && k <= |packets|
      invariant if ended then k == |packets| else packets[k..] == Packets(reader.pending)
      invariant writer.written == old(writer.written) + RawBytes(packets[..k])
      invariant reader.bytesRead == old(reader.bytesRead) + |RawBytes(packets[..k])|
      invariant reader.packetsRead == old(reader.packetsRead) + k
      invariant writer.packetsWritten == old(writer.packetsWritten) + k
      decreases |packets| - k, !ended
    {
      var packet := NextPacket(reader);
      if packet.Err? || packet.value.None? {
        assert packets[k..] == [];
        ended := true;
      } else {
        TakeOne(packets, k, packet.value.value, Packets(reader.pending));
        writer.Write(packet.value.value.raw);
        k := k + 1;
      }
    }
  }
}
