/** The MQTT 3.1.1 codec (enforcement/mqtt_codec.py). */
module Codec {
  import opened Base

  const MAX_REMAINING_LENGTH: nat := 268_435_455
  const MAX_FIELD: nat := 65_535

  /** What two bytes hold: packet identifiers, field lengths, the keep-alive. */
  type U16 = n: nat | n <= 65_535

  datatype ProtocolError =
    | LengthOutOfRange | TruncatedLength | MalformedLength
    | StringTooLong | TruncatedPrefix | TruncatedField | InvalidUtf8
    | TruncatedConnect | TruncatedPacketId | TruncatedSubscribe | MissingQos | NoTopicFilter
    | MissingPacketId | UnknownType | IncompleteRead

  datatype PacketType =
    | CONNECT | CONNACK | PUBLISH | PUBACK | PUBREC | PUBREL | PUBCOMP
    | SUBSCRIBE | SUBACK | UNSUBSCRIBE | UNSUBACK | PINGREQ | PINGRESP | DISCONNECT
  {
    function Code(): nat {
      match this
      case CONNECT => 1 case CONNACK => 2 case PUBLISH => 3 case PUBACK => 4 case PUBREC => 5
      case PUBREL => 6 case PUBCOMP => 7 case SUBSCRIBE => 8 case SUBACK => 9 case UNSUBSCRIBE => 10
      case UNSUBACK => 11 case PINGREQ => 12 case PINGRESP => 13 case DISCONNECT => 14
    }
  }

  /** `PacketType(code)`; 0 and 15 are no packet type. */
  function TypeOf(code: nat): (t: Option<PacketType>)
    ensures t.Some? <==> 1 <= code <= 14
    ensures t.Some? ==> t.value.Code() == code
  {
    match code
    case 1 => Some(CONNECT) case 2 => Some(CONNACK) case 3 => Some(PUBLISH) case 4 => Some(PUBACK)
    case 5 => Some(PUBREC) case 6 => Some(PUBREL) case 7 => Some(PUBCOMP) case 8 => Some(SUBSCRIBE)
    case 9 => Some(SUBACK) case 10 => Some(UNSUBSCRIBE) case 11 => Some(UNSUBACK) case 12 => Some(PINGREQ)
    case 13 => Some(PINGRESP) case 14 => Some(DISCONNECT)
    case _ => None
  }

  // -- the variable byte integer (section 2.2.3 of MQTT 3.1.1) --------------------------

  function VarInt(value: nat): seq<byte> {
    if value < 128 then [value as byte] else [(value % 128 + 128) as byte] + VarInt(value / 128)
  }

  datatype VarResult = Done(value: nat, consumed: nat) | Truncated | Malformed

  /** The value of the digits of `data`, least significant first, `depth` digits having been read before. */
  function DecodeFrom(data: seq<byte>, depth: nat): VarResult
    requires depth <= 3
    decreases 3 - depth
  {
    if data == [] then Truncated
    else if data[0] < 128 then Done(data[0] as nat, 1)
    else if depth == 3 then Malformed
    else
      match DecodeFrom(data[1..], depth + 1)
      case Done(v, n) => Done(data[0] as nat - 128 + 128 * v, n + 1)
      case failure => failure
  }

  /** `encode_remaining_length`. */
  method EncodeRemainingLength(value: int) returns (r: Result<seq<byte>, ProtocolError>)
    ensures r == if 0 <= value <= MAX_REMAINING_LENGTH then Ok(VarInt(value)) else Err(LengthOutOfRange)
  {
    if value < 0 || value > MAX_REMAINING_LENGTH {
      return Err(LengthOutOfRange);
    }
    var rest, out := value, [];
    while true
      invariant rest >= 0
      invariant out + VarInt(rest) == VarInt(value)
      decreases rest
    {
      var digit := rest % 128;
      ghost var before := rest;
      rest := rest / 128;
      if rest > 0 {
        digit := digit + 128;
      }
      ghost var grown := out + [digit as byte];
      if rest > 0 {
        assert grown + VarInt(rest) == out + ([digit as byte] + VarInt(rest));
      }
      out := out + [digit as byte];
      if rest == 0 {
        break;
      }
    }
    r := Ok(out);
  }

  /** What the rest of the scan adds once `consumed` digits worth `value` have been read. */
  function Resume(value: nat, multiplier: nat, consumed: nat, rest: VarResult): VarResult {
    match rest
    case Done(v, n) => Done(value + multiplier * v, consumed + n)
    case failure => failure
  }

  /** The running multiplier after `consumed` digits. */
  function Weight(consumed: nat): nat
    requires consumed <= 4
  {
    match consumed case 0 => 1 case 1 => 128 case 2 => 16_384 case 3 => 2_097_152 case 4 => 268_435_456
  }

  lemma WeightGrows(consumed: nat)
    requires consumed <= 3
    ensures Weight(consumed + 1) == Weight(consumed) * 128
  {}

  lemma ScanBegins(r: VarResult)
    ensures Resume(0, Weight(0), 0, r) == r
  {}

  /** One digit of the scan: it is missing, or it ends the number, or it is one too many, or the rest is resumed with
      the next weight. */
  lemma ScanDigit(data: seq<byte>, value: nat, weight: nat, consumed: nat)
    requires consumed <= 3
    ensures var r := Resume(value, weight, consumed, DecodeFrom(data, consumed));
      if data == [] then r == Truncated
      else
        var next := value + (data[0] as nat % 128) * weight;
        if data[0] < 128 then r == Done(next, consumed + 1)
        else if consumed == 3 then r == Malformed
        else r == Resume(next, weight * 128, consumed + 1, DecodeFrom(data[1..], consumed + 1))
  {
    if data == [] { return; }
    var d := data[0] as nat % 128;
    assert weight * d == d * weight;
    if data[0] >= 128 && consumed < 3 {
      match DecodeFrom(data[1..], consumed + 1)
      case Done(v, n) =>
        assert weight * (d + 128 * v) == weight * d + (weight * 128) * v by { Distributes(weight, d, v); }
      case _ =>
    }
  }

  lemma Distributes(w: int, d: int, v: int)
    ensures w * (d + 128 * v) == w * d + (w * 128) * v
  {
    assert w * (128 * v) == (w * 128) * v;
  }

  /** `decode_remaining_length`: the scan with a running multiplier computes the positional value. */
  method DecodeRemainingLength(data: seq<byte>, offset: nat) returns (r: VarResult)
    ensures r == if offset <= |data| then DecodeFrom(data[offset..], 0) else Truncated
  {
    hide Resume, DecodeFrom;
    var multiplier, value, consumed := 1, 0, 0;
    if offset <= |data| { ScanBegins(DecodeFrom(data[offset..], 0)); }
    while true
      invariant 0 <= consumed <= 3 && value >= 0 && multiplier == Weight(consumed)
      invariant consumed == 0 || offset + consumed <= |data|
      invariant offset + consumed <= |data| ==>
        DecodeFrom(data[offset..], 0)
          == Resume(value, multiplier, consumed, DecodeFrom(data[offset + consumed..], consumed))
      decreases 3 - consumed
    {
      if offset + consumed <= |data| { ScanDigit(data[offset + consumed..], value, multiplier, consumed); }
      if offset + consumed >= |data| {
        return Truncated;
      }
      ghost var tail := data[offset + consumed..];
      WeightGrows(consumed);
      assert tail[1..] == data[offset + consumed + 1..];
      var digit := data[offset + consumed] as nat;
      consumed := consumed + 1;
      value := value + (digit % 128) * multiplier;
      if digit < 128 {
        return Done(value, consumed);
      }
      multiplier := multiplier * 128;
      if multiplier > 2_097_152 {
        return Malformed;
      }
    }
  }

  function Limit(depth: nat): nat
    requires depth <= 3
  {
    [268_435_456, 2_097_152, 16_384, 128][depth]
  }

  /** Decoding undoes encoding, whatever follows. */
  lemma {:induction false} DecodeOfEncode(value: nat, depth: nat, rest: seq<byte>)
    requires depth <= 3 && value < Limit(depth)
    ensures DecodeFrom(VarInt(value) + rest, depth) == Done(value, |VarInt(value)|)
    decreases value
  {
    var data := VarInt(value) + rest;
    if value >= 128 {
      DecodeOfEncode(value / 128, depth + 1, rest);
      assert data[1..] == VarInt(value / 128) + rest;
    }
  }

  /** No byte sequence encodes a value outside the range, or one in fewer bytes than `VarInt`;
      in as many bytes only `VarInt` itself does. */
  lemma {:induction false} EncodingIsMinimal(data: seq<byte>, depth: nat)
    requires depth <= 3
    ensures var r := DecodeFrom(data, depth);
      r.Done? ==>
        && r.value < Limit(depth) && 1 <= r.consumed <= 4 - depth && r.consumed <= |data|
        && |VarInt(r.value)| <= r.consumed
        && (|VarInt(r.value)| == r.consumed ==> data[..r.consumed] == VarInt(r.value))
    decreases 3 - depth
  {
    var r := DecodeFrom(data, depth);
    if r.Done? && data[0] >= 128 {
      var tail := DecodeFrom(data[1..], depth + 1);
      EncodingIsMinimal(data[1..], depth + 1);
      assert r.value / 128 == tail.value && r.value % 128 == data[0] as nat - 128;
      if r.value >= 128 {
        assert data[..r.consumed] == [data[0]] + data[1..][..tail.consumed];
      }
    }
  }

  lemma VarIntLength(value: nat)
    requires value <= MAX_REMAINING_LENGTH
    ensures |VarInt(value)|
      == if value < 128 then 1 else if value < 16_384 then 2 else if value < 2_097_152 then 3 else 4
  {
    if value >= 128 {
      var a := value / 128;
      if a >= 128 { var b := a / 128; if b >= 128 { assert b / 128 < 128; } }
    }
  }

  // -- fields -------------------------------------------------------------

  /** How far into a UTF-8 character a decoder is (section 4 of RFC 3629). The four middle states are the lead
      bytes that restrict the next byte: E0 and F0 to exclude overlong forms, ED surrogates, F4 code points
      above U+10FFFF. */
  datatype Utf8State = Between | Need1 | Need2 | Need3 | AfterE0 | AfterED | AfterF0 | AfterF4 | Invalid

  function Utf8Next(state: Utf8State, b: byte): Utf8State {
    match state
    case Between =>
      if b < 128 then Between
      else if 194 <= b < 224 then Need1
      else if b == 224 then AfterE0 else if b == 237 then AfterED else if 224 < b < 240 then Need2
      else if b == 240 then AfterF0 else if b == 244 then AfterF4 else if 240 < b < 244 then Need3
      else Invalid
    case Need1 => if 128 <= b < 192 then Between else Invalid
    case Need2 => if 128 <= b < 192 then Need1 else Invalid
    case Need3 => if 128 <= b < 192 then Need2 else Invalid
    case AfterE0 => if 160 <= b < 192 then Need1 else Invalid
    case AfterED => if 128 <= b < 160 then Need1 else Invalid
    case AfterF0 => if 144 <= b < 192 then Need2 else Invalid
    case AfterF4 => if 128 <= b < 144 then Need2 else Invalid
    case Invalid => Invalid
  }

  function Utf8Run(s: Text, state: Utf8State): Utf8State {
    if s == [] then state else Utf8Run(s[1..], Utf8Next(state, s[0]))
  }

  /** What `bytes.decode("utf-8")` accepts. */
  predicate ValidUtf8(s: Text) {
    Utf8Run(s, Between) == Between
  }

  lemma {:induction false} AsciiIsUtf8(s: Text)
    requires forall i | 0 <= i < |s| :: s[i] < 128
    ensures ValidUtf8(s)
  {
    if s != [] { AsciiIsUtf8(s[1..]); }
  }

  /** `n.to_bytes(2, "big")`. */
  function U16Bytes(n: U16): (r: seq<byte>)
    ensures |r| == 2
  {
    [(n / 256) as byte, (n % 256) as byte]
  }

  /** `int.from_bytes(s[offset : offset + 2], "big")`. */
  function U16At(s: seq<byte>, offset: nat): U16
    requires offset + 2 <= |s|
  {
    s[offset] as nat * 256 + s[offset + 1] as nat
  }

  /** A length-prefixed field: the bytes `encode_string` produces. */
  function Field(s: seq<byte>): seq<byte>
    requires |s| <= MAX_FIELD
  {
    U16Bytes(|s|) + s
  }

  /** `encode_string`. */
  function EncodeString(s: Text): Result<seq<byte>, ProtocolError> {
    if |s| > MAX_FIELD then Err(StringTooLong) else Ok(Field(s))
  }

  /** `_read_bytes`: the field at `offset`, and the offset after it. */
  function ReadBytes(payload: seq<byte>, offset: nat): (r: Result<(seq<byte>, nat), ProtocolError>)
    ensures r.Ok? ==> r.value.1 == offset + 2 + |r.value.0| <= |payload| && |r.value.0| <= MAX_FIELD
  {
    if offset + 2 > |payload| then Err(TruncatedPrefix)
    else
      var start := offset + 2;
      var end := start + U16At(payload, offset);
      if end > |payload| then Err(TruncatedField) else Ok((payload[start..end], end))
  }

  /** `_read_string`. */
  function ReadString(payload: seq<byte>, offset: nat): (r: Result<(Text, nat), ProtocolError>)
    ensures r.Ok? ==>
      r.value.1 == offset + 2 + |r.value.0| <= |payload| && |r.value.0| <= MAX_FIELD && ValidUtf8(r.value.0)
  {
    var (raw, next) :- ReadBytes(payload, offset);
    if ValidUtf8(raw) then Ok((raw, next)) else Err(InvalidUtf8)
  }

  lemma Middle(a: seq<byte>, b: seq<byte>, c: seq<byte>)
    ensures (a + b + c)[|a|..|a| + |b|] == b
  {}

  lemma U16RoundTrip(payload: seq<byte>, offset: nat, n: U16)
    requires offset + 2 <= |payload| && payload[offset..offset + 2] == U16Bytes(n)
    ensures U16At(payload, offset) == n
  {
    assert payload[offset] == payload[offset..offset + 2][0] && payload[offset + 1] == payload[offset..offset + 2][1];
  }

  /** The field s stands at `offset`. */
  predicate FieldAt(payload: seq<byte>, offset: nat, s: seq<byte>) {
    |s| <= MAX_FIELD && offset + 2 + |s| <= |payload| && payload[offset..offset + 2 + |s|] == Field(s)
  }

  lemma ReadBytesAt(payload: seq<byte>, offset: nat, s: seq<byte>)
    requires FieldAt(payload, offset, s)
    ensures ReadBytes(payload, offset) == Ok((s, offset + 2 + |s|))
  {
    var slice := payload[offset..offset + 2 + |s|];
    assert payload[offset..offset + 2] == slice[..2] == U16Bytes(|s|);
    U16RoundTrip(payload, offset, |s|);
    assert payload[offset + 2..offset + 2 + |s|] == slice[2..] == s;
  }

  lemma ReadFieldAt(payload: seq<byte>, offset: nat, s: seq<byte>)
    requires FieldAt(payload, offset, s)
    ensures ReadBytes(payload, offset) == Ok((s, offset + 2 + |s|))
    ensures ValidUtf8(s) ==> ReadString(payload, offset) == Ok((s, offset + 2 + |s|))
  {
    ReadBytesAt(payload, offset, s);
  }

  lemma FieldStands(before: seq<byte>, s: seq<byte>, after: seq<byte>)
    requires |s| <= MAX_FIELD
    ensures FieldAt(before + Field(s) + after, |before|, s)
  {
    Middle(before, Field(s), after);
  }

  // -- packets ------------------------------------------------------------

  /** A control packet with its exact wire bytes; `raw` is what gets relayed. */
  datatype Packet = Packet(packetType: PacketType, flags: nat, payload: seq<byte>, raw: seq<byte>) {
    function Qos(): nat { flags / 2 % 4 }
    predicate Dup() { flags / 8 % 2 == 1 }
    predicate Retain() { flags % 2 == 1 }
  }

  /** `build_packet`. */
  function BuildPacket(packetType: PacketType, flags: nat, payload: seq<byte>): Result<seq<byte>, ProtocolError> {
    if |payload| > MAX_REMAINING_LENGTH then Err(LengthOutOfRange)
    else Ok([(packetType.Code() * 16 + flags % 16) as byte] + VarInt(|payload|) + payload)
  }

  datatype PublishPacket = PublishPacket(topic: Text, packetId: Option<U16>, payload: seq<byte>, qos: nat,
                                         retain: bool, dup: bool)

  /** `decode_publish`. */
  function DecodePublish(packet: Packet): Result<PublishPacket, ProtocolError> {
    var (topic, offset) :- ReadString(packet.payload, 0);
    if packet.Qos() > 0 then
      if offset + 2 > |packet.payload| then Err(TruncatedPacketId)
      else Ok(PublishPacket(topic, Some(U16At(packet.payload, offset)), packet.payload[offset + 2..],
                            packet.Qos(), packet.Retain(), packet.Dup()))
    else Ok(PublishPacket(topic, None, packet.payload[offset..], 0, packet.Retain(), packet.Dup()))
  }

  /** The body and flags `build_publish` frames. */
  function PublishBody(topic: Text, payload: seq<byte>, qos: nat, packetId: Option<U16>)
    : Result<seq<byte>, ProtocolError>
  {
    if qos > 0 && packetId.None? then Err(MissingPacketId)
    else
      var head :- EncodeString(topic);
      Ok(head + (if qos > 0 then U16Bytes(packetId.value) else []) + payload)
  }

  function PublishFlags(qos: nat, retain: bool): nat {
    qos % 4 * 2 + if retain then 1 else 0
  }

  /** `build_publish`. The identifier fits `to_bytes(2)`. */
  function BuildPublish(topic: Text, payload: seq<byte>, qos: nat, packetId: Option<U16>, retain: bool)
    : Result<seq<byte>, ProtocolError>
  {
    var body :- PublishBody(topic, payload, qos, packetId);
    BuildPacket(PUBLISH, PublishFlags(qos, retain), body)
  }

  /** What `build_publish` frames decodes to the publish it was built from, for qos 0 to 3. */
  lemma PublishRoundTrip(topic: Text, payload: seq<byte>, qos: nat, packetId: Option<U16>, retain: bool, raw: seq<byte>)
    requires ValidUtf8(topic) && |topic| <= MAX_FIELD && qos <= 3
    requires qos > 0 ==> packetId.Some?
    ensures var body := PublishBody(topic, payload, qos, packetId);
      && body.Ok?
      && DecodePublish(Packet(PUBLISH, PublishFlags(qos, retain), body.value, raw))
         == Ok(PublishPacket(topic, if qos > 0 then packetId else None, payload, qos, retain, false))
  {
    var id := if qos > 0 then U16Bytes(packetId.value) else [];
    var head := Field(topic);
    var body := head + id + payload;
    assert FieldAt(body, 0, topic) by { assert body[0..|head|] == head; }
    ReadFieldAt(body, 0, topic);
    if qos > 0 {
      Middle(head, id, payload);
      U16RoundTrip(body, |head|, packetId.value);
    }
    assert body[|head| + |id|..] == payload;
    PublishFlagBits(qos, retain);
  }

  lemma PublishFlagBits(qos: nat, retain: bool)
    requires qos <= 3
    ensures var f := PublishFlags(qos, retain); f / 2 % 4 == qos && f / 8 == 0 && (f % 2 == 1 <==> retain)
  {}

  datatype ConnectPacket = ConnectPacket(
    protocolName: Text, protocolLevel: nat, connectFlags: nat, keepAlive: U16, clientId: Text,
    willTopic: Option<Text>, willPayload: Option<seq<byte>>, username: Option<Text>, password: Option<seq<byte>>)
  {
    predicate CleanSession() { connectFlags / 2 % 2 == 1 }
  }

  function OptionalString(present: bool, payload: seq<byte>, offset: nat): Result<(Option<Text>, nat), ProtocolError> {
    if present then
      var (s, next) :- ReadString(payload, offset);
      Ok((Some(s), next))
    else Ok((None, offset))
  }

  function OptionalBytes(present: bool, payload: seq<byte>, offset: nat)
    : Result<(Option<seq<byte>>, nat), ProtocolError>
  {
    if present then
      var (s, next) :- ReadBytes(payload, offset);
      Ok((Some(s), next))
    else Ok((None, offset))
  }

  /** `decode_connect`. */
  function DecodeConnect(packet: Packet): Result<ConnectPacket, ProtocolError> {
    var payload := packet.payload;
    var (name, offset) :- ReadString(payload, 0);
    if offset + 4 > |payload| then Err(TruncatedConnect)
    else
      var flags := payload[offset + 1] as nat;
      var keepAlive := U16At(payload, offset + 2);
      var (clientId, afterId) :- ReadString(payload, offset + 4);
      var (willTopic, afterTopic) :- OptionalString(flags / 4 % 2 == 1, payload, afterId);
      var (willPayload, afterWill) :- OptionalBytes(flags / 4 % 2 == 1, payload, afterTopic);
      var (username, afterUser) :- OptionalString(flags / 128 % 2 == 1, payload, afterWill);
      var (password, _) :- OptionalBytes(flags / 64 % 2 == 1, payload, afterUser);
      Ok(ConnectPacket(name, payload[offset] as nat, flags, keepAlive, clientId, willTopic, willPayload,
                       username, password))
  }

  const MQTT_NAME: Text := [77, 81, 84, 84]

  function ConnectFlags(hasUsername: bool, hasPassword: bool, cleanSession: bool): nat {
    (if cleanSession then 2 else 0) + (if hasUsername then 128 else 0) + (if hasPassword then 64 else 0)
  }

  function ConnectHead(flags: nat, keepAlive: U16): seq<byte>
    requires flags <= 255
  {
    Field(MQTT_NAME) + [4, flags as byte] + U16Bytes(keepAlive)
  }

  function OptionalField(s: Option<seq<byte>>): seq<byte>
    requires s.Some? ==> |s.value| <= MAX_FIELD
  {
    if s.Some? then Field(s.value) else []
  }

  /** The body `build_connect` frames. */
  function ConnectBody(clientId: Text, username: Option<Text>, password: Option<seq<byte>>, keepAlive: U16,
                       cleanSession: bool)
    : Result<seq<byte>, ProtocolError>
  {
    if |clientId| > MAX_FIELD || (username.Some? && |username.value| > MAX_FIELD)
       || (password.Some? && |password.value| > MAX_FIELD)
    then Err(StringTooLong)
    else Ok(ConnectParts(ConnectFlags(username.Some?, password.Some?, cleanSession), keepAlive, clientId,
                         username, password))
  }

  /** `build_connect`. The keep-alive fits `to_bytes(2)`. */
  function BuildConnect(clientId: Text, username: Option<Text>, password: Option<seq<byte>>, keepAlive: U16,
                        cleanSession: bool)
    : Result<seq<byte>, ProtocolError>
  {
    var body :- ConnectBody(clientId, username, password, keepAlive, cleanSession);
    BuildPacket(CONNECT, 0, body)
  }

  lemma ConnectHeadDecodes(flags: nat, keepAlive: U16, tail: seq<byte>)
    requires flags <= 255
    ensures var body := ConnectHead(flags, keepAlive) + tail;
      && |ConnectHead(flags, keepAlive)| == 10
      && ReadString(body, 0) == Ok((MQTT_NAME, 6))
      && body[6] == 4 && body[7] as nat == flags && U16At(body, 8) == keepAlive
  {
    var body := ConnectHead(flags, keepAlive) + tail;
    assert FieldAt(body, 0, MQTT_NAME) by { assert body[0..6] == Field(MQTT_NAME); }
    AsciiIsUtf8(MQTT_NAME);
    ReadFieldAt(body, 0, MQTT_NAME);
    assert body[8..10] == U16Bytes(keepAlive);
    U16RoundTrip(body, 8, keepAlive);
  }

  lemma ConnectFlagBits(hasUsername: bool, hasPassword: bool, cleanSession: bool)
    ensures var f := ConnectFlags(hasUsername, hasPassword, cleanSession);
      && f <= 255 && f / 4 % 2 == 0
      && (f / 2 % 2 == 1 <==> cleanSession) && (f / 128 % 2 == 1 <==> hasUsername) && (f / 64 % 2 == 1 <==> hasPassword)
  {}

  lemma OptionalFieldReads(before: seq<byte>, s: Option<seq<byte>>, after: seq<byte>)
    requires s.Some? ==> |s.value| <= MAX_FIELD
    ensures var payload := before + OptionalField(s) + after;
      OptionalBytes(s.Some?, payload, |before|) == Ok((s, |before| + |OptionalField(s)|))
    ensures var payload := before + OptionalField(s) + after;
      (s.Some? ==> ValidUtf8(s.value)) ==>
        OptionalString(s.Some?, payload, |before|) == Ok((s, |before| + |OptionalField(s)|))
  {
    if s.Some? {
      FieldStands(before, s.value, after);
      ReadFieldAt(before + Field(s.value) + after, |before|, s.value);
    }
  }

  /** The four parts of a built CONNECT's body. */
  function ConnectParts(flags: nat, keepAlive: U16, clientId: Text, username: Option<Text>,
                        password: Option<seq<byte>>): seq<byte>
    requires flags <= 255 && |clientId| <= MAX_FIELD
    requires (username.Some? ==> |username.value| <= MAX_FIELD) && (password.Some? ==> |password.value| <= MAX_FIELD)
  {
    ConnectHead(flags, keepAlive) + Field(clientId) + OptionalField(username) + OptionalField(password)
  }

  lemma ConnectFixedReads(flags: nat, keepAlive: U16, clientId: Text, username: Option<Text>,
                          password: Option<seq<byte>>)
    requires flags <= 255 && |clientId| <= MAX_FIELD && ValidUtf8(clientId)
    requires (username.Some? ==> |username.value| <= MAX_FIELD) && (password.Some? ==> |password.value| <= MAX_FIELD)
    ensures var body := ConnectParts(flags, keepAlive, clientId, username, password);
      && |body| >= 10 && ReadString(body, 0) == Ok((MQTT_NAME, 6))
      && body[6] == 4 && body[7] as nat == flags && U16At(body, 8) == keepAlive
      && ReadString(body, 10) == Ok((clientId, 12 + |clientId|))
  {
    hide ReadString, ValidUtf8, U16At, ConnectHead, Field;
    var body := ConnectParts(flags, keepAlive, clientId, username, password);
    var head, id := ConnectHead(flags, keepAlive), Field(clientId);
    var rest := OptionalField(username) + OptionalField(password);
    assert body == head + id + rest;
    assert body == head + (id + rest);
    ConnectHeadDecodes(flags, keepAlive, id + rest);
    FieldStands(head, clientId, rest);
    ReadFieldAt(head + id + rest, 10, clientId);
  }

  lemma ConnectOptionalReads(flags: nat, keepAlive: U16, clientId: Text, username: Option<Text>,
                             password: Option<seq<byte>>)
    requires flags <= 255 && |clientId| <= MAX_FIELD
    requires (username.Some? ==> |username.value| <= MAX_FIELD && ValidUtf8(username.value))
    requires (password.Some? ==> |password.value| <= MAX_FIELD)
    ensures var body, afterId := ConnectParts(flags, keepAlive, clientId, username, password), 12 + |clientId|;
      && OptionalString(username.Some?, body, afterId) == Ok((username, afterId + |OptionalField(username)|))
      && OptionalBytes(password.Some?, body, afterId + |OptionalField(username)|) == Ok((password, |body|))
  {
    hide OptionalString, OptionalBytes, OptionalField, ValidUtf8;
    var body := ConnectParts(flags, keepAlive, clientId, username, password);
    var before := ConnectHead(flags, keepAlive) + Field(clientId);
    assert |before| == 12 + |clientId|;
    OptionalFieldReads(before, username, OptionalField(password));
    OptionalFieldReads(before + OptionalField(username), password, []);
    assert before + OptionalField(username) + OptionalField(password) + [] == body;
  }

  /** What `build_connect` frames decodes to the connection it was built from. */
  lemma ConnectRoundTrip(clientId: Text, username: Option<Text>, password: Option<seq<byte>>, keepAlive: U16,
                         cleanSession: bool, raw: seq<byte>)
    requires ValidUtf8(clientId) && |clientId| <= MAX_FIELD
    requires username.Some? ==> ValidUtf8(username.value) && |username.value| <= MAX_FIELD
    requires password.Some? ==> |password.value| <= MAX_FIELD
    ensures var body := ConnectBody(clientId, username, password, keepAlive, cleanSession);
      var flags := ConnectFlags(username.Some?, password.Some?, cleanSession);
      && body.Ok?
      && DecodeConnect(Packet(CONNECT, 0, body.value, raw))
         == Ok(ConnectPacket(MQTT_NAME, 4, flags, keepAlive, clientId, None, None, username, password))
      && (flags / 2 % 2 == 1 <==> cleanSession)
  {
    ConnectFlagBits(username.Some?, password.Some?, cleanSession);
    ConnectPartsDecode(ConnectFlags(username.Some?, password.Some?, cleanSession), keepAlive, clientId,
                       username, password, raw);
  }

  lemma ConnectPartsDecode(flags: nat, keepAlive: U16, clientId: Text, username: Option<Text>,
                           password: Option<seq<byte>>, raw: seq<byte>)
    requires flags <= 255 && |clientId| <= MAX_FIELD && ValidUtf8(clientId)
    requires (username.Some? ==> |username.value| <= MAX_FIELD && ValidUtf8(username.value))
    requires (password.Some? ==> |password.value| <= MAX_FIELD)
    requires flags / 4 % 2 == 0
    requires (flags / 128 % 2 == 1 <==> username.Some?) && (flags / 64 % 2 == 1 <==> password.Some?)
    ensures DecodeConnect(Packet(CONNECT, 0, ConnectParts(flags, keepAlive, clientId, username, password), raw))
         == Ok(ConnectPacket(MQTT_NAME, 4, flags, keepAlive, clientId, None, None, username, password))
  {
    hide ConnectParts, ReadString, OptionalString, OptionalBytes, DecodeConnect, U16At;
    ConnectFixedReads(flags, keepAlive, clientId, username, password);
    ConnectOptionalReads(flags, keepAlive, clientId, username, password);
    ConnectFromReads(ConnectParts(flags, keepAlive, clientId, username, password), flags, keepAlive, clientId, username,
                     12 + |clientId| + |OptionalField(username)|, password, raw);
  }

  lemma ConnectFromReads(payload: seq<byte>, flags: nat, keepAlive: U16, clientId: Text, username: Option<Text>,
                         afterUser: nat,
                         password: Option<seq<byte>>, raw: seq<byte>)
    requires |payload| >= 10 && flags <= 255 && flags / 4 % 2 == 0
    requires flags / 128 % 2 == 1 <==> username.Some?
    requires flags / 64 % 2 == 1 <==> password.Some?
    requires ReadString(payload, 0) == Ok((MQTT_NAME, 6))
    requires payload[6] == 4 && payload[7] as nat == flags && U16At(payload, 8) == keepAlive
    requires ReadString(payload, 10) == Ok((clientId, 12 + |clientId|))
    requires OptionalString(username.Some?, payload, 12 + |clientId|) == Ok((username, afterUser))
    requires var r := OptionalBytes(password.Some?, payload, afterUser); r.Ok? && r.value.0 == password
    ensures DecodeConnect(Packet(CONNECT, 0, payload, raw))
         == Ok(ConnectPacket(MQTT_NAME, 4, flags, keepAlive, clientId, None, None, username, password))
  {
    hide ReadString, ReadBytes, U16At, ValidUtf8;
    assert OptionalString(false, payload, 12 + |clientId|) == Ok((None, 12 + |clientId|));
    assert OptionalBytes(false, payload, 12 + |clientId|) == Ok((None, 12 + |clientId|));
  }

  // -- SUBSCRIBE ------------------------------------------------------------

  datatype SubscribePacket = SubscribePacket(packetId: U16, subscriptions: seq<(Text, nat)>)

  /** The entries from `offset` to the end of the payload. */
  function DecodeEntries(payload: seq<byte>, offset: nat): Result<seq<(Text, nat)>, ProtocolError>
    requires offset <= |payload|
    decreases |payload| - offset
  {
    if offset == |payload| then Ok([])
    else
      var (topic, next) :- ReadString(payload, offset);
      if next >= |payload| then Err(MissingQos)
      else
        var rest :- DecodeEntries(payload, next + 1);
        Ok([(topic, payload[next] as nat % 4)] + rest)
  }

  function SubscribeOf(payload: seq<byte>): Result<SubscribePacket, ProtocolError> {
    if |payload| < 2 then Err(TruncatedSubscribe)
    else
      var entries :- DecodeEntries(payload, 2);
      if entries == [] then Err(NoTopicFilter) else Ok(SubscribePacket(U16At(payload, 0), entries))
  }

  function Prepend(entries: seq<(Text, nat)>, rest: Result<seq<(Text, nat)>, ProtocolError>)
    : Result<seq<(Text, nat)>, ProtocolError>
  {
    if rest.Ok? && entries != [] then Ok(entries + rest.value) else rest
  }

  lemma PrependAssociates(entries: seq<(Text, nat)>, entry: (Text, nat), rest: Result<seq<(Text, nat)>, ProtocolError>)
    ensures Prepend(entries, Prepend([entry], rest)) == Prepend(entries + [entry], rest)
  {
    if rest.Ok? {
      assert entries + ([entry] + rest.value) == entries + [entry] + rest.value;
      assert entries == [] ==> entries + [entry] == [entry];
    }
  }

  /** The next entry of the payload, as far as it goes. */
  lemma NextEntry(payload: seq<byte>, offset: nat)
    requires offset <= |payload|
    ensures var rest, field := DecodeEntries(payload, offset), ReadString(payload, offset);
      if offset == |payload| then rest == Ok([])
      else if field.Err? then rest == Err(field.error)
      else if field.value.1 >= |payload| then rest == Err(MissingQos)
      else
        var next := field.value.1;
        rest == Prepend([(field.value.0, payload[next] as nat % 4)], DecodeEntries(payload, next + 1))
  {
    hide ReadString;
  }

  lemma PrependEnds(entries: seq<(Text, nat)>, rest: Result<seq<(Text, nat)>, ProtocolError>)
    ensures Prepend([], rest) == rest && Prepend(entries, Ok([])) == Ok(entries)
    ensures rest.Err? ==> Prepend(entries, rest) == rest
  {
    assert entries + [] == entries;
  }

  /** The loop of `decode_subscribe`. */
  method ReadEntries(payload: seq<byte>) returns (r: Result<seq<(Text, nat)>, ProtocolError>)
    requires |payload| >= 2
    ensures r == DecodeEntries(payload, 2)
  {
    hide DecodeEntries, ReadString, Prepend;
    var offset := 2;
    var subscriptions: seq<(Text, nat)> := [];
    PrependEnds([], DecodeEntries(payload, 2));
    while offset < |payload|
      invariant 2 <= offset <= |payload|
      invariant DecodeEntries(payload, 2) == Prepend(subscriptions, DecodeEntries(payload, offset))
    {
      NextEntry(payload, offset);
      PrependEnds(subscriptions, DecodeEntries(payload, offset));
      var field := ReadString(payload, offset);
      if field.Err? {
        return Err(field.error);
      }
      var next := field.value.1;
      if next >= |payload| {
        return Err(MissingQos);
      }
      var entry: (Text, nat) := (field.value.0, payload[next] as nat % 4);
      PrependAssociates(subscriptions, entry, DecodeEntries(payload, next + 1));
      subscriptions := subscriptions + [entry];
      offset := next + 1;
    }
    NextEntry(payload, offset);
    PrependEnds(subscriptions, DecodeEntries(payload, offset));
    r := Ok(subscriptions);
  }

  /** `decode_subscribe`. */
  method DecodeSubscribe(packet: Packet) returns (r: Result<SubscribePacket, ProtocolError>)
    ensures r == SubscribeOf(packet.payload)
  {
    if |packet.payload| < 2 {
      return Err(TruncatedSubscribe);
    }
    var entries := ReadEntries(packet.payload);
    if entries.Err? {
      return Err(entries.error);
    }
    if entries.value == [] {
      return Err(NoTopicFilter);
    }
    r := Ok(SubscribePacket(U16At(packet.payload, 0), entries.value));
  }

  /** What `decode_subscribe` can return for one entry. */
  predicate ValidEntry(entry: (Text, nat)) {
    ValidUtf8(entry.0) && |entry.0| <= MAX_FIELD && entry.1 <= 3
  }

  predicate ValidEntries(entries: seq<(Text, nat)>) {
    forall i | 0 <= i < |entries| :: ValidEntry(entries[i])
  }

  function EncodeEntry(entry: (Text, nat)): seq<byte>
    requires ValidEntry(entry)
  {
    Field(entry.0) + [entry.1 as byte]
  }

  function EncodeEntries(entries: seq<(Text, nat)>): seq<byte>
    requires ValidEntries(entries)
  {
    if entries == [] then [] else EncodeEntry(entries[0]) + EncodeEntries(entries[1..])
  }

  /** The body of a SUBSCRIBE for these entries. */
  function SubscribeBody(packetId: U16, entries: seq<(Text, nat)>): seq<byte>
    requires ValidEntries(entries)
  {
    U16Bytes(packetId) + EncodeEntries(entries)
  }

  lemma EntryReads(payload: seq<byte>, before: seq<byte>, entry: (Text, nat), rest: seq<byte>)
    requires ValidEntry(entry) && payload == before + EncodeEntry(entry) + rest
    ensures var next := |before| + 2 + |entry.0|;
      && ReadString(payload, |before|) == Ok((entry.0, next))
      && next < |payload| && payload[next] as nat == entry.1
  {
    var after := [entry.1 as byte] + rest;
    assert payload == before + Field(entry.0) + after;
    FieldStands(before, entry.0, after);
    ReadFieldAt(payload, |before|, entry.0);
    assert payload[|before| + |Field(entry.0)|] == after[0];
  }

  lemma EntryLength(entry: (Text, nat))
    requires ValidEntry(entry)
    ensures |EncodeEntry(entry)| == |entry.0| + 3
  {}

  lemma EntriesFromRead(payload: seq<byte>, offset: nat, entry: (Text, nat), next: nat, entries: seq<(Text, nat)>)
    requires offset < next < |payload| && ReadString(payload, offset) == Ok((entry.0, next))
    requires payload[next] as nat == entry.1 <= 3
    requires DecodeEntries(payload, next + 1) == Ok(entries)
    ensures DecodeEntries(payload, offset) == Ok([entry] + entries)
  {}

  lemma {:induction false} EntriesRoundTrip(before: seq<byte>, entries: seq<(Text, nat)>)
    requires ValidEntries(entries)
    ensures DecodeEntries(before + EncodeEntries(entries), |before|) == Ok(entries)
    decreases |entries|
  {
    hide ReadString, EncodeEntry, ValidUtf8;
    if entries == [] {
      assert before + [] == before;
    } else {
      var entry, rest := entries[0], EncodeEntries(entries[1..]);
      var grown, payload := before + EncodeEntry(entry), before + EncodeEntries(entries);
      assert payload == grown + rest;
      EntryReads(payload, before, entry, rest);
      assert |grown| == |before| + 3 + |entry.0| by { EntryLength(entry); }
      EntriesRoundTrip(grown, entries[1..]);
      EntriesFromRead(payload, |before|, entry, |grown| - 1, entries[1..]);
      assert entries == [entry] + entries[1..];
    }
  }

  /** Decoding a built SUBSCRIBE gives back its packet identifier and entries. */
  lemma SubscribeRoundTrip(packetId: U16, entries: seq<(Text, nat)>)
    requires ValidEntries(entries) && entries != []
    ensures SubscribeOf(SubscribeBody(packetId, entries)) == Ok(SubscribePacket(packetId, entries))
  {
    EntriesRoundTrip(U16Bytes(packetId), entries);
    U16RoundTrip(SubscribeBody(packetId, entries), 0, packetId);
  }

  /** Decoded entries are valid, and encoding any of them takes no more room than the payload they came from. */
  lemma {:induction false} DecodedEntries(payload: seq<byte>, offset: nat)
    requires offset <= |payload| && DecodeEntries(payload, offset).Ok?
    ensures var entries := DecodeEntries(payload, offset).value;
      ValidEntries(entries) && |EncodeEntries(entries)| == |payload| - offset
    decreases |payload| - offset
  {
    if offset < |payload| {
      var (topic, next) := ReadString(payload, offset).value;
      DecodedEntries(payload, next + 1);
    }
  }
}
