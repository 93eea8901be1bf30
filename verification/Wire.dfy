/** The bytes of MQTT 3.1.1 packets, as the standard numbers them (enforcement/mqtt_codec.py): what the codec's
    functions produce and accept, without each other. */
module Wire {
  import opened Base
  import opened Codec
  import opened Stream

  // -- the fixed header (section 2.2 of MQTT 3.1.1) -------------------------------------

  /** The packet types in the order of their codes, from 1. */
  const TYPES: seq<PacketType> :=
    [ CONNECT, CONNACK, PUBLISH, PUBACK, PUBREC, PUBREL, PUBCOMP, SUBSCRIBE, SUBACK, UNSUBSCRIBE, UNSUBACK, PINGREQ,
      PINGRESP, DISCONNECT ]

  lemma CodeIs(k: nat)
    requires k < |TYPES|
    ensures TYPES[k].Code() == k + 1 && TypeOf(k + 1) == Some(TYPES[k])
  {
    if
    case k <= 6 => assert TypeOf(k + 1) == Some(TYPES[k]);
    case k >= 7 => assert TypeOf(k + 1) == Some(TYPES[k]);
  }

  function Digit(digits: seq<byte>, i: nat): nat {
    if i < |digits| then digits[i] as nat % 128 else 0
  }

  /** The number is the first n bytes: all but the last of them continue, and they are its digits to base 128, least
      significant first. */
  ghost predicate Spells(data: seq<byte>, n: nat, value: nat) {
    && 1 <= n <= 4 && n <= |data|
    && (forall i | 0 <= i < n - 1 :: data[i] >= 128) && data[n - 1] < 128
    && var d := data[..n];
       value == Digit(d, 0) + 128 * Digit(d, 1) + 16_384 * Digit(d, 2) + 2_097_152 * Digit(d, 3)
  }

  function Value(digits: seq<byte>): nat {
    if digits == [] then 0 else digits[0] as nat % 128 + 128 * Value(digits[1..])
  }

  lemma ValueOfFour(digits: seq<byte>)
    requires |digits| <= 4
    ensures Value(digits) == Digit(digits, 0) + 128 * Digit(digits, 1) + 16_384 * Digit(digits, 2)
                             + 2_097_152 * Digit(digits, 3)
  {
    if digits != [] {
      var one := digits[1..];
      if one != [] {
        var two := one[1..];
        if two != [] { assert two[1..] == [] || two[1..] == [digits[3]]; }
      }
    }
  }

  lemma {:induction false} DecodedSpells(data: seq<byte>, depth: nat)
    requires depth <= 3
    ensures var r, left := DecodeFrom(data, depth), 4 - depth;
      && (r.Done? ==>
            && 1 <= r.consumed <= left && r.consumed <= |data| && data[r.consumed - 1] < 128
            && (forall i | 0 <= i < r.consumed - 1 :: data[i] >= 128) && r.value == Value(data[..r.consumed]))
      && (r.Truncated? ==> |data| < left && forall i | 0 <= i < |data| :: data[i] >= 128)
      && (r.Malformed? ==> |data| >= left && forall i | 0 <= i < left :: data[i] >= 128)
    decreases 3 - depth
  {
    if data != [] && data[0] >= 128 && depth < 3 {
      DecodedSpells(data[1..], depth + 1);
      var rest := DecodeFrom(data[1..], depth + 1);
      if rest.Done? {
        assert data[..rest.consumed + 1][1..] == data[1..][..rest.consumed];
      }
      assert forall i | 1 <= i < |data| :: data[i] == data[1..][i - 1];
    }
  }

  /** `decode_remaining_length`: a number is spelled out, or the data ends in the middle of one, or its fourth byte
      still continues. */
  lemma LengthMeans(data: seq<byte>, value: nat, n: nat)
    ensures DecodeFrom(data, 0) == Done(value, n) <==> Spells(data, n, value)
    ensures DecodeFrom(data, 0) == Truncated <==> |data| < 4 && forall i | 0 <= i < |data| :: data[i] >= 128
    ensures DecodeFrom(data, 0) == Malformed <==> |data| >= 4 && forall i | 0 <= i < 4 :: data[i] >= 128
  {
    hide DecodeFrom, Value;
    DecodedSpells(data, 0);
    if DecodeFrom(data, 0).Done? { ValueOfFour(data[..DecodeFrom(data, 0).consumed]); }
    if DecodeFrom(data, 0).Done? && Spells(data, n, value) {
      SpelledOnce(data, n, value, DecodeFrom(data, 0).consumed, DecodeFrom(data, 0).value);
    }
  }

  lemma SpelledOnce(data: seq<byte>, n: nat, value: nat, m: nat, other: nat)
    requires Spells(data, n, value) && Spells(data, m, other)
    ensures n == m && value == other
  {}

  /** What `build_packet` writes: type and flags in the first byte, then the length of the payload in as many bytes as
      it takes and no more, then the payload. */
  lemma PacketLayout(k: nat, flags: nat, payload: seq<byte>) returns (n: nat)
    requires k < |TYPES| && flags < 16 && |payload| <= MAX_REMAINING_LENGTH
    ensures BuildPacket(TYPES[k], flags, payload).Ok?
    ensures var raw := BuildPacket(TYPES[k], flags, payload).value;
      && |raw| == 1 + n + |payload| && raw[0] as nat == 16 * (k + 1) + flags && raw[1 + n..] == payload
      && Spells(raw[1..1 + n], n, |payload|)
      && n == if |payload| < 128 then 1 else if |payload| < 16_384 then 2 else if |payload| < 2_097_152 then 3 else 4
  {
    hide DecodeFrom, VarInt, Spells, TypeOf;
    CodeIs(k);
    var size := VarInt(|payload|);
    n := |size|;
    DecodeOfEncode(|payload|, 0, []);
    assert size + [] == size;
    LengthMeans(size, |payload|, n);
    VarIntLength(|payload|);
    var raw := BuildPacket(TYPES[k], flags, payload).value;
    assert raw == [(16 * (k + 1) + flags) as byte] + size + payload;
    assert raw[1..1 + n] == size;
  }

  /** The input begins with a whole packet: a length is spelled behind the first byte, that much payload is there, and
      the first byte holds a type of the standard and the flags. */
  ghost predicate Begins(input: seq<byte>, p: Packet, n: nat) {
    && input != [] && Spells(input[1..], n, |p.payload|) && 1 + n + |p.payload| <= |input|
    && p.raw == input[..1 + n + |p.payload|] && p.payload == p.raw[1 + n..]
    && 1 <= input[0] as nat / 16 <= |TYPES| && p.packetType == TYPES[input[0] as nat / 16 - 1]
    && p.flags == input[0] as nat % 16
  }

  /** `read_packet`: a packet is read exactly where the input begins with one; otherwise the length is cut off or runs
      over four bytes, or the payload is cut off, or the type is none. */
  lemma FrameMeans(input: seq<byte>)
    ensures var f := FrameOf(input);
      && (f.EndOfStream? <==> input == [])
      && (f.Framed? ==> f.length == |f.packet.raw| && exists n :: Begins(input, f.packet, n))
      && (forall p, n | Begins(input, p, n) :: f == Framed(p, |p.raw|))
      && (f == Bad(TruncatedLength) <==>
            input != [] && |input| < 5 && forall i | 1 <= i < |input| :: input[i] >= 128)
      && (f == Bad(MalformedLength) <==> |input| >= 5 && forall i | 1 <= i < 5 :: input[i] >= 128)
      && (f == Bad(IncompleteRead) <==>
            input != [] && exists n: nat, v: nat :: Spells(input[1..], n, v) && |input| < 1 + n + v)
  {
    hide DecodeFrom, Spells, TypeOf;
    if input != [] {
      var rest := input[1..];
      assert forall i | 1 <= i < |input| :: input[i] == rest[i - 1];
      assert forall i | 0 <= i < |rest| :: rest[i] == input[i + 1];
      LengthMeans(rest, 0, 0);
      forall n: nat, v: nat ensures DecodeFrom(rest, 0) == Done(v, n) <==> Spells(rest, n, v) {
        LengthMeans(rest, v, n);
      }
      TypeMeans(input[0] as nat / 16);
      var f := FrameOf(input);
      if f.Framed? {
        assert Begins(input, f.packet, DecodeFrom(rest, 0).consumed);
      }
    }
  }

  lemma TypeMeans(code: nat)
    ensures TypeOf(code).Some? <==> 1 <= code <= |TYPES|
    ensures 1 <= code <= |TYPES| ==> TypeOf(code) == Some(TYPES[code - 1])
  {
    if 1 <= code <= |TYPES| { CodeIs(code - 1); }
  }

  // -- fields and bodies (sections 1.5.3, 3.1, 3.3 and 3.8 of MQTT 3.1.1) -----------------------

  /** Two bytes, most significant first. */
  ghost predicate ReadsNumber(bytes: seq<byte>, at: nat, n: nat) {
    at + 2 <= |bytes| && bytes[at] as nat * 256 + bytes[at + 1] as nat == n
  }

  /** A length and that many bytes. */
  ghost predicate ReadsField(bytes: seq<byte>, at: nat, s: seq<byte>) {
    ReadsNumber(bytes, at, |s|) && at + 2 + |s| <= |bytes| && bytes[at + 2..at + 2 + |s|] == s
  }

  lemma FieldReads(before: seq<byte>, s: seq<byte>, after: seq<byte>)
    requires |s| <= MAX_FIELD
    ensures ReadsField(before + Field(s) + after, |before|, s)
    ensures |before + Field(s) + after| == |before| + 2 + |s| + |after|
  {
    var bytes := before + Field(s) + after;
    assert bytes[|before|..|before| + 2 + |s|] == Field(s);
    assert bytes[|before|] == Field(s)[0] && bytes[|before| + 1] == Field(s)[1];
    assert bytes[|before| + 2..|before| + 2 + |s|] == Field(s)[2..];
  }

  lemma NumberReads(before: seq<byte>, n: U16, after: seq<byte>)
    ensures ReadsNumber(before + U16Bytes(n) + after, |before|, n)
  {
    var bytes := before + U16Bytes(n) + after;
    assert bytes[|before|] == U16Bytes(n)[0] && bytes[|before| + 1] == U16Bytes(n)[1];
  }

  /** A field is read wherever one stands, and nothing else is. */
  lemma FieldMeans(bytes: seq<byte>, at: nat, s: seq<byte>)
    ensures ReadBytes(bytes, at) == Ok((s, at + 2 + |s|)) <==> ReadsField(bytes, at, s)
    ensures ReadString(bytes, at) == Ok((s, at + 2 + |s|)) <==> ReadsField(bytes, at, s) && ValidUtf8(s)
  {
    hide ValidUtf8;
  }

  /** Otherwise the length is cut off, or what it counts is, or the text is none. */
  lemma FieldErrors(bytes: seq<byte>, at: nat)
    ensures ReadBytes(bytes, at) == Err(TruncatedPrefix) <==> |bytes| < at + 2
    ensures ReadBytes(bytes, at) == Err(TruncatedField) <==>
      at + 2 <= |bytes| < at + 2 + bytes[at] as nat * 256 + bytes[at + 1] as nat
    ensures ReadBytes(bytes, at).Err? ==> ReadString(bytes, at) == Err(ReadBytes(bytes, at).error)
    ensures ReadString(bytes, at) == Err(InvalidUtf8) <==> exists s :: ReadsField(bytes, at, s) && !ValidUtf8(s)
  {
    hide ValidUtf8;
    if ReadBytes(bytes, at).Ok? { assert ReadsField(bytes, at, ReadBytes(bytes, at).value.0); }
  }

  /** What is wrong with a body that does not decode: too short for its fixed part, without a filter, or as its fields
      say. */
  lemma SubscribeErrors(payload: seq<byte>)
    ensures SubscribeOf(payload) == Err(TruncatedSubscribe) <==> |payload| < 2
    ensures SubscribeOf(payload) == Err(NoTopicFilter) <==> |payload| == 2
  {
    hide ReadString;
    EntryErrors(payload, 2);
  }

  lemma PublishErrors(packet: Packet)
    ensures var name := ReadString(packet.payload, 0);
      && (DecodePublish(packet) == Err(TruncatedPacketId) <==>
            name.Ok? && packet.Qos() > 0 && |packet.payload| < name.value.1 + 2)
      && (name.Err? ==> DecodePublish(packet) == Err(name.error))
  {
    hide ReadString, Packet.Qos;
    FieldErrorKinds(packet.payload, 0);
  }

  lemma ConnectErrors(packet: Packet)
    ensures var name := ReadString(packet.payload, 0);
      && (DecodeConnect(packet) == Err(TruncatedConnect) <==> name.Ok? && |packet.payload| < name.value.1 + 4)
      && (name.Err? ==> DecodeConnect(packet) == Err(name.error))
  {
    hide ReadString, ReadBytes;
    forall at: nat ensures ReadBytes(packet.payload, at) != Err(TruncatedConnect)
                        && ReadString(packet.payload, at) != Err(TruncatedConnect)
    {
      FieldErrorKinds(packet.payload, at);
    }
  }

  lemma FieldErrorKinds(bytes: seq<byte>, at: nat)
    ensures ReadBytes(bytes, at).Err? ==> ReadBytes(bytes, at).error in {TruncatedPrefix, TruncatedField}
    ensures ReadString(bytes, at).Err? ==>
      ReadString(bytes, at).error in {TruncatedPrefix, TruncatedField, InvalidUtf8}
  {
    hide ValidUtf8;
  }

  lemma {:induction false} EntryErrors(payload: seq<byte>, offset: nat)
    ensures offset <= |payload| ==>
      var r := DecodeEntries(payload, offset);
      && r != Err(TruncatedSubscribe) && r != Err(NoTopicFilter)
      && (r.Ok? && r.value == [] ==> offset == |payload|)
    decreases |payload| - offset
  {
    hide ReadString;
    if offset < |payload| {
      var field := ReadString(payload, offset);
      FieldErrorKinds(payload, offset);
      if field.Ok? { EntryErrors(payload, field.value.1 + 1); }
    }
  }

  /** A PUBLISH: QoS in the second and third bit of its first byte, retain in the lowest; the topic, the identifier when
      there is a QoS, and the rest is the message. */
  lemma PublishLayout(topic: Text, message: seq<byte>, qos: nat, packetId: Option<U16>, retain: bool)
    requires |topic| <= MAX_FIELD && qos <= 3 && (qos > 0 ==> packetId.Some?)
    ensures PublishFlags(qos, retain) == 2 * qos + if retain then 1 else 0
    ensures PublishBody(topic, message, qos, packetId).Ok?
    ensures var body, after := PublishBody(topic, message, qos, packetId).value, 2 + |topic|;
      && ReadsField(body, 0, topic)
      && (qos > 0 ==> ReadsNumber(body, after, packetId.value) && body[after + 2..] == message)
      && (qos == 0 ==> body[after..] == message)
  {
    var head, body := Field(topic), PublishBody(topic, message, qos, packetId).value;
    if qos > 0 {
      var id := U16Bytes(packetId.value);
      assert body == [] + head + (id + message);
      FieldReads([], topic, id + message);
      NumberReads(head, packetId.value, message);
    } else {
      assert body == [] + head + message;
      FieldReads([], topic, message);
    }
  }

  /** And the bits as they are read back, the duplicate flag included. */
  lemma PublishFlagsRead(packet: Packet)
    requires DecodePublish(packet).Ok? && packet.flags < 16
    ensures var p, f := DecodePublish(packet).value, packet.flags;
      && (p.dup <==> f >= 8) && p.qos == (if f >= 8 then f - 8 else f) / 2
      && (p.retain <==> f in {1, 3, 5, 7, 9, 11, 13, 15})
      && (p.packetId.Some? <==> p.qos > 0)
  {
    hide ReadString;
  }

  /** A CONNECT: the protocol's name and level, the flags, the keep-alive, and the fields the flags announce. */
  lemma ConnectLayout(clientId: Text, username: Option<Text>, password: Option<seq<byte>>, keepAlive: U16,
                      cleanSession: bool)
    requires |clientId| <= MAX_FIELD
    requires (username.Some? ==> |username.value| <= MAX_FIELD) && (password.Some? ==> |password.value| <= MAX_FIELD)
    ensures ConnectBody(clientId, username, password, keepAlive, cleanSession).Ok?
    ensures var body := ConnectBody(clientId, username, password, keepAlive, cleanSession).value;
      && |body| >= 10 && body[..7] == [0, 4, 77, 81, 84, 84, 4]
      && body[7] as nat == (if username.Some? then 128 else 0) + (if password.Some? then 64 else 0)
                           + (if cleanSession then 2 else 0)
      && ReadsNumber(body, 8, keepAlive) && ReadsField(body, 10, clientId)
      && (username.Some? ==> ReadsField(body, 12 + |clientId|, username.value))
      && (password.Some? ==> ReadsField(body, |body| - 2 - |password.value|, password.value))
  {
    hide ConnectParts, ConnectFlags, ReadsField, ReadsNumber;
    var flags := ConnectFlags(username.Some?, password.Some?, cleanSession);
    FlagsAre(username.Some?, password.Some?, cleanSession);
    PartsLayout(flags, keepAlive, clientId, username, password);
  }

  lemma FlagsAre(hasUsername: bool, hasPassword: bool, cleanSession: bool)
    ensures ConnectFlags(hasUsername, hasPassword, cleanSession)
         == (if hasUsername then 128 else 0) + (if hasPassword then 64 else 0) + (if cleanSession then 2 else 0)
  {}

  lemma PartsLayout(flags: nat, keepAlive: U16, clientId: Text, username: Option<Text>, password: Option<seq<byte>>)
    requires flags <= 255 && |clientId| <= MAX_FIELD
    requires (username.Some? ==> |username.value| <= MAX_FIELD) && (password.Some? ==> |password.value| <= MAX_FIELD)
    ensures var body := ConnectParts(flags, keepAlive, clientId, username, password);
      && |body| >= 10 && body[..7] == [0, 4, 77, 81, 84, 84, 4] && body[7] as nat == flags
      && ReadsNumber(body, 8, keepAlive) && ReadsField(body, 10, clientId)
      && (username.Some? ==> ReadsField(body, 12 + |clientId|, username.value))
      && (password.Some? ==> ReadsField(body, |body| - 2 - |password.value|, password.value))
  {
    hide Field, U16Bytes, ReadsField, ReadsNumber, ConnectHead, OptionalField;
    var head, id := ConnectHead(flags, keepAlive), Field(clientId);
    var user, pass := OptionalField(username), OptionalField(password);
    HeadReads(flags, keepAlive, id + user + pass);
    FieldReads(head, clientId, user + pass);
    FieldLength(clientId);
    OptionalReads(head + id, username, pass);
    OptionalReads(head + id + user, password, []);
    Regrouped(head, id, user, pass);
  }

  lemma Regrouped(a: seq<byte>, b: seq<byte>, c: seq<byte>, d: seq<byte>)
    ensures a + b + c + d == a + (b + c + d) == a + b + (c + d) == a + b + c + d + []
  {}

  lemma OptionalReads(before: seq<byte>, s: Option<seq<byte>>, after: seq<byte>)
    requires s.Some? ==> |s.value| <= MAX_FIELD
    ensures s.Some? ==>
      ReadsField(before + OptionalField(s) + after, |before|, s.value)
      && |before| == |before + OptionalField(s) + after| - 2 - |s.value| - |after|
  {
    hide Field, ReadsField;
    if s.Some? { FieldReads(before, s.value, after); }
  }

  lemma HeadReads(flags: nat, keepAlive: U16, tail: seq<byte>)
    requires flags <= 255
    ensures var body := ConnectHead(flags, keepAlive) + tail;
      && |ConnectHead(flags, keepAlive)| == 10 && body[..7] == [0, 4, 77, 81, 84, 84, 4] && body[7] as nat == flags
      && ReadsNumber(body, 8, keepAlive)
  {
    var head := ConnectHead(flags, keepAlive);
    assert head[..7] == [0, 4, 77, 81, 84, 84, 4];
    NumberReads(head[..8], keepAlive, tail);
    assert head + tail == head[..8] + U16Bytes(keepAlive) + tail;
  }

  /** A CONNECT with any flags, a will included, decodes to the fields its flags announce, in their order. */
  lemma ConnectReads(flags: byte, keepAlive: U16, clientId: Text, willTopic: Option<Text>, will: Option<seq<byte>>,
                     username: Option<Text>, password: Option<seq<byte>>, raw: seq<byte>)
    requires |clientId| <= MAX_FIELD && ValidUtf8(clientId)
    requires willTopic.Some? ==> |willTopic.value| <= MAX_FIELD && ValidUtf8(willTopic.value)
    requires will.Some? ==> |will.value| <= MAX_FIELD
    requires username.Some? ==> |username.value| <= MAX_FIELD && ValidUtf8(username.value)
    requires password.Some? ==> |password.value| <= MAX_FIELD
    requires (flags / 4 % 2 == 1 <==> willTopic.Some?) && (flags / 4 % 2 == 1 <==> will.Some?)
    requires (flags / 128 % 2 == 1 <==> username.Some?) && (flags / 64 % 2 == 1 <==> password.Some?)
    ensures var body := ConnectHead(flags as nat, keepAlive) + Field(clientId) + OptionalField(willTopic)
                        + OptionalField(will) + OptionalField(username) + OptionalField(password);
      DecodeConnect(Packet(CONNECT, 0, body, raw))
        == Ok(ConnectPacket(MQTT_NAME, 4, flags as nat, keepAlive, clientId, willTopic, will, username, password))
  {
    hide ReadString, OptionalString, OptionalBytes, OptionalField, ValidUtf8, Field, U16At, ConnectHead, DecodeConnect;
    var head, id := ConnectHead(flags as nat, keepAlive), Field(clientId);
    var a, b, c, d := OptionalField(willTopic), OptionalField(will), OptionalField(username), OptionalField(password);
    var body := head + id + a + b + c + d;
    PartsRegrouped(head, id, a, b, c, d);
    ConnectHeadDecodes(flags as nat, keepAlive, id + a + b + c + d);
    FieldStands(head, clientId, a + b + c + d);
    ReadFieldAt(body, 10, clientId);
    FieldLength(clientId);
    OptionalFieldReads(head + id, willTopic, b + c + d);
    OptionalFieldReads(head + id + a, will, c + d);
    OptionalFieldReads(head + id + a + b, username, d);
    OptionalFieldReads(head + id + a + b + c, password, []);
    FromReads(body, flags as nat, keepAlive, clientId, willTopic, |head + id + a|, will, |head + id + a + b|, username,
              |head + id + a + b + c|, password, raw);
  }

  lemma PartsRegrouped(h: seq<byte>, i: seq<byte>, a: seq<byte>, b: seq<byte>, c: seq<byte>, d: seq<byte>)
    ensures var all := h + i + a + b + c + d;
      && all == h + (i + a + b + c + d) && all == h + i + (a + b + c + d) && all == h + i + a + (b + c + d)
      && all == h + i + a + b + (c + d) && all == h + i + a + b + c + d + []
  {}

  lemma FromReads(payload: seq<byte>, flags: nat, keepAlive: U16, clientId: Text, willTopic: Option<Text>,
                  afterTopic: nat, will: Option<seq<byte>>, afterWill: nat, username: Option<Text>, afterUser: nat,
                  password: Option<seq<byte>>, raw: seq<byte>)
    requires |payload| >= 10 && flags <= 255
    requires (flags / 4 % 2 == 1 <==> willTopic.Some?) && (flags / 4 % 2 == 1 <==> will.Some?)
    requires (flags / 128 % 2 == 1 <==> username.Some?) && (flags / 64 % 2 == 1 <==> password.Some?)
    requires ReadString(payload, 0) == Ok((MQTT_NAME, 6))
    requires payload[6] == 4 && payload[7] as nat == flags && U16At(payload, 8) == keepAlive
    requires ReadString(payload, 10) == Ok((clientId, 12 + |clientId|))
    requires OptionalString(willTopic.Some?, payload, 12 + |clientId|) == Ok((willTopic, afterTopic))
    requires OptionalBytes(will.Some?, payload, afterTopic) == Ok((will, afterWill))
    requires OptionalString(username.Some?, payload, afterWill) == Ok((username, afterUser))
    requires var r := OptionalBytes(password.Some?, payload, afterUser); r.Ok? && r.value.0 == password
    ensures DecodeConnect(Packet(CONNECT, 0, payload, raw))
         == Ok(ConnectPacket(MQTT_NAME, 4, flags, keepAlive, clientId, willTopic, will, username, password))
  {
    hide ReadString, OptionalString, OptionalBytes, U16At;
  }

  lemma FieldLength(s: seq<byte>)
    requires |s| <= MAX_FIELD
    ensures |Field(s)| == 2 + |s|
  {}

  /** The body of a SUBSCRIBE: the identifier, then the entries in their order, each a filter and its QoS. */
  lemma {:induction false} EntriesInOrder(a: seq<(Text, nat)>, b: seq<(Text, nat)>)
    requires ValidEntries(a) && ValidEntries(b)
    ensures ValidEntries(a + b) && EncodeEntries(a + b) == EncodeEntries(a) + EncodeEntries(b)
  {
    hide ValidEntry, EncodeEntry;
    if a == [] {
      assert a + b == b;
    } else {
      EntriesInOrder(a[1..], b);
      assert (a + b)[1..] == a[1..] + b;
      Associates(EncodeEntry(a[0]), EncodeEntries(a[1..]), EncodeEntries(b));
    }
  }

  lemma Associates(a: seq<byte>, b: seq<byte>, c: seq<byte>)
    ensures a + (b + c) == a + b + c
  {}

  lemma SubscribeLayout(packetId: U16, before: seq<(Text, nat)>, entry: (Text, nat), after: seq<(Text, nat)>)
    requires ValidEntries(before) && ValidEntry(entry) && ValidEntries(after)
    ensures ValidEntries(before + [entry] + after)
    ensures var body, at := SubscribeBody(packetId, before + [entry] + after), 2 + |EncodeEntries(before)|;
      && ReadsNumber(body, 0, packetId) && ReadsField(body, at, entry.0)
      && at + 2 + |entry.0| < |body| && body[at + 2 + |entry.0|] as nat == entry.1
  {
    hide Field, U16Bytes, ValidUtf8, ReadsField, ReadsNumber, EncodeEntries;
    EntriesInOrder(before, [entry]);
    EntriesInOrder(before + [entry], after);
    var head, rest := U16Bytes(packetId) + EncodeEntries(before), EncodeEntries(after);
    LoneEntry(entry);
    FieldLength(entry.0);
    NumberReads([], packetId, EncodeEntries(before + [entry] + after));
    FieldReads(head, entry.0, [entry.1 as byte] + rest);
    EntryRegrouped(U16Bytes(packetId), EncodeEntries(before), Field(entry.0), entry.1 as byte, rest);
  }

  lemma LoneEntry(entry: (Text, nat))
    requires ValidEntry(entry)
    ensures EncodeEntries([entry]) == Field(entry.0) + [entry.1 as byte]
  {
    assert EncodeEntries([entry]) == EncodeEntry(entry) + [];
  }

  lemma EntryRegrouped(id: seq<byte>, before: seq<byte>, field: seq<byte>, qos: byte, rest: seq<byte>)
    ensures var body := id + (before + (field + [qos]) + rest);
      && body == [] + id + (before + (field + [qos]) + rest)
      && body == id + before + field + ([qos] + rest)
      && body[|id| + |before| + |field|] == qos
  {}

  // -- UTF-8 (section 3 of RFC 3629) -----------------------------------------------------

  /** A Unicode scalar value: no surrogate, nothing above U+10FFFF. */
  predicate Scalar(c: nat) {
    c < 0xD800 || 0xE000 <= c <= 0x10FFFF
  }

  function Encoded(c: nat): (s: Text)
    requires Scalar(c)
    ensures |s| >= 1
  {
    if c < 0x80 then [c as byte]
    else if c < 0x800 then [(192 + c / 64) as byte, (128 + c % 64) as byte]
    else if c < 0x10000 then [(224 + c / 4096) as byte, (128 + c / 64 % 64) as byte, (128 + c % 64) as byte]
    else [(240 + c / 262144) as byte, (128 + c / 4096 % 64) as byte, (128 + c / 64 % 64) as byte,
          (128 + c % 64) as byte]
  }

  ghost predicate Scalars(cs: seq<nat>) {
    forall i | 0 <= i < |cs| :: Scalar(cs[i])
  }

  function EncodedAll(cs: seq<nat>): Text
    requires Scalars(cs)
  {
    if cs == [] then [] else Encoded(cs[0]) + EncodedAll(cs[1..])
  }

  lemma {:induction false} Utf8Append(a: Text, b: Text, state: Utf8State)
    ensures Utf8Run(a + b, state) == Utf8Run(b, Utf8Run(a, state))
  {
    if a == [] {
      assert a + b == b;
    } else {
      assert (a + b)[1..] == a[1..] + b;
      Utf8Append(a[1..], b, Utf8Next(state, a[0]));
    }
  }

  lemma RunOne(a: byte, state: Utf8State)
    ensures Utf8Run([a], state) == Utf8Next(state, a)
  {
    assert [a][1..] == [];
  }

  lemma RunMore(a: byte, s: Text, state: Utf8State)
    ensures Utf8Run([a] + s, state) == Utf8Run(s, Utf8Next(state, a))
  {
    assert ([a] + s)[1..] == s;
  }

  /** The encoding of a character takes the decoder from between two characters to between two characters. */
  lemma CharacterRuns(c: nat)
    requires Scalar(c)
    ensures Utf8Run(Encoded(c), Between) == Between
  {
    hide Utf8Run;
    var s := Encoded(c);
    RunOne(s[|s| - 1], Between);
    RunOne(s[|s| - 1], Need1);
    if |s| == 2 {
      RunMore(s[0], [s[1]], Between);
      assert s == [s[0]] + [s[1]];
    } else if |s| == 3 {
      RunMore(s[0], [s[1], s[2]], Between);
      RunMore(s[1], [s[2]], Utf8Next(Between, s[0]));
      assert s == [s[0]] + [s[1], s[2]] && [s[1], s[2]] == [s[1]] + [s[2]];
    } else if |s| == 4 {
      RunMore(s[0], [s[1], s[2], s[3]], Between);
      RunMore(s[1], [s[2], s[3]], Utf8Next(Between, s[0]));
      RunMore(s[2], [s[3]], Need2);
      assert s == [s[0]] + [s[1], s[2], s[3]] && [s[1], s[2], s[3]] == [s[1]] + [s[2], s[3]];
      assert [s[2], s[3]] == [s[2]] + [s[3]];
    }
  }

  lemma {:induction false} EncodedIsValid(cs: seq<nat>)
    requires Scalars(cs)
    ensures ValidUtf8(EncodedAll(cs))
  {
    if cs != [] {
      CharacterRuns(cs[0]);
      EncodedIsValid(cs[1..]);
      Utf8Append(Encoded(cs[0]), EncodedAll(cs[1..]), Between);
    }
  }

  lemma {:induction false} InvalidStays(s: Text)
    ensures Utf8Run(s, Invalid) == Invalid
  {
    if s != [] { InvalidStays(s[1..]); }
  }

  /** What the decoder still expects stands at the front. */
  lemma Continues(s: Text, state: Utf8State)
    requires Utf8Run(s, state) == Between && state != Between
    ensures s != [] && Utf8Next(state, s[0]) != Invalid && Utf8Run(s[1..], Utf8Next(state, s[0])) == Between
  {
    if s != [] { InvalidStays(s[1..]); }
  }

  lemma Pair(a: byte, b: byte) returns (c: nat)
    requires Utf8Next(Between, a) == Need1 && Utf8Next(Need1, b) == Between
    ensures Scalar(c) && Encoded(c) == [a, b]
  {
    c := (a as nat - 192) * 64 + (b as nat - 128);
  }

  lemma Triple(a: byte, b: byte, d: byte) returns (c: nat)
    requires 224 <= a < 240 && Utf8Next(Utf8Next(Between, a), b) == Need1 && Utf8Next(Need1, d) == Between
    ensures Scalar(c) && Encoded(c) == [a, b, d]
  {
    c := (a as nat - 224) * 4096 + (b as nat - 128) * 64 + (d as nat - 128);
  }

  /** Six bits at a time. */
  lemma Sextets(a: nat, b: nat, d: nat, e: nat) returns (c: nat)
    requires b < 64 && d < 64 && e < 64
    ensures c == a * 262144 + b * 4096 + d * 64 + e
    ensures c / 262144 == a && c / 4096 % 64 == b && c / 64 % 64 == d && c % 64 == e
  {
    var two := a * 64 + b;
    var three := two * 64 + d;
    c := three * 64 + e;
    assert two / 64 == a && two % 64 == b;
    assert three / 64 == two && three % 64 == d;
    assert c / 64 == three && c % 64 == e;
    assert c / 4096 == three / 64 && c / 262144 == two / 64;
  }

  lemma Quadruple(a: byte, b: byte, d: byte, e: byte) returns (c: nat)
    requires 240 <= a && Utf8Next(Utf8Next(Between, a), b) == Need2
    requires Utf8Next(Need2, d) == Need1 && Utf8Next(Need1, e) == Between
    ensures Scalar(c) && Encoded(c) == [a, b, d, e]
  {
    assert 128 <= b < 192 && a <= 244 && (a == 240 ==> b >= 144) && (a == 244 ==> b < 144);
    c := Sextets(a as nat - 240, b as nat - 128, d as nat - 128, e as nat - 128);
    assert 0x10000 <= c <= 0x10FFFF;
  }

  /** The continuation bytes that the first byte calls for are there, and valid text follows them. */
  lemma Tail(s: Text) returns (n: nat)
    requires s != [] && ValidUtf8(s) && s[0] >= 128
    ensures n == (if s[0] < 224 then 2 else if s[0] < 240 then 3 else 4) && n <= |s| && ValidUtf8(s[n..])
    ensures Utf8Next(Between, s[0]) != Invalid
    ensures n == 2 ==> Utf8Next(Between, s[0]) == Need1 && Utf8Next(Need1, s[1]) == Between
    ensures n == 3 ==> Utf8Next(Utf8Next(Between, s[0]), s[1]) == Need1 && Utf8Next(Need1, s[2]) == Between
    ensures n == 4 ==> Utf8Next(Utf8Next(Between, s[0]), s[1]) == Need2
                       && Utf8Next(Need2, s[2]) == Need1 && Utf8Next(Need1, s[3]) == Between
  {
    hide Utf8Run;
    RunMore(s[0], s[1..], Between);
    assert s == [s[0]] + s[1..];
    InvalidStays(s[1..]);
    Continues(s[1..], Utf8Next(Between, s[0]));
    assert s[1..][1..] == s[2..];
    n := 2;
    if s[0] >= 224 {
      Continues(s[2..], Utf8Next(Utf8Next(Between, s[0]), s[1]));
      assert s[2..][1..] == s[3..];
      n := 3;
    }
    if s[0] >= 240 {
      Continues(s[3..], Need1);
      assert s[3..][1..] == s[4..];
      n := 4;
    }
  }

  /** Valid text begins with the encoding of a character, and the rest is valid. */
  lemma FirstCharacter(s: Text) returns (c: nat)
    requires s != [] && ValidUtf8(s)
    ensures Scalar(c) && Encoded(c) <= s && ValidUtf8(s[|Encoded(c)|..])
  {
    hide Utf8Run, Utf8Next, Encoded;
    if s[0] < 128 {
      c := Ascii(s);
      return;
    }
    var n := Tail(s);
    if n == 2 {
      c := Pair(s[0], s[1]);
      assert s[..2] == [s[0], s[1]];
    } else if n == 3 {
      c := Triple(s[0], s[1], s[2]);
      assert s[..3] == [s[0], s[1], s[2]];
    } else {
      c := Quadruple(s[0], s[1], s[2], s[3]);
      assert s[..4] == [s[0], s[1], s[2], s[3]];
    }
  }

  lemma Ascii(s: Text) returns (c: nat)
    requires s != [] && ValidUtf8(s) && s[0] < 128
    ensures Scalar(c) && Encoded(c) <= s && ValidUtf8(s[|Encoded(c)|..])
  {
    c := s[0] as nat;
    RunMore(s[0], s[1..], Between);
    assert s == [s[0]] + s[1..];
  }

  lemma {:induction false} Characters(s: Text) returns (cs: seq<nat>)
    requires ValidUtf8(s)
    ensures Scalars(cs) && EncodedAll(cs) == s
    decreases |s|
  {
    cs := [];
    if s != [] {
      var c := FirstCharacter(s);
      var rest := Characters(s[|Encoded(c)|..]);
      cs := [c] + rest;
      assert cs[1..] == rest;
    }
  }

  /** What `bytes.decode("utf-8")` accepts is exactly the encodings of sequences of characters. */
  lemma Utf8Means(s: Text)
    ensures ValidUtf8(s) <==> exists cs :: Scalars(cs) && EncodedAll(cs) == s
  {
    if ValidUtf8(s) {
      var cs := Characters(s);
    }
    forall cs | Scalars(cs) && EncodedAll(cs) == s ensures ValidUtf8(s) {
      EncodedIsValid(cs);
    }
  }
}
