/** Framing control packets off a byte stream, and counting what is written (enforcement/mqtt_stream.py). */
module Stream {
  import opened Base
  import opened Codec

  /** What the next packet of a stream is. */
  datatype Frame = EndOfStream | Framed(packet: Packet, length: nat) | Bad(error: ProtocolError)

  function FrameOf(input: seq<byte>): (f: Frame)
    ensures f.Framed? ==> 0 < f.length <= |input|
    ensures f.EndOfStream? <==> input == []
  {
    if input == [] then EndOfStream
    else
      match DecodeFrom(input[1..], 0)
      case Truncated => Bad(TruncatedLength)
      case Malformed => Bad(MalformedLength)
      case Done(remaining, n) =>
        EncodingIsMinimal(input[1..], 0);
        var length := 1 + n + remaining;
        if length > |input| then Bad(IncompleteRead)
        else
          match TypeOf(input[0] as nat / 16)
          case None => Bad(UnknownType)
          case Some(t) => Framed(Packet(t, input[0] as nat % 16, input[1 + n..length], input[..length]), length)
  }

  class PacketReader {
    /** The bytes the underlying stream will still deliver. */
    var pending: seq<byte>
    var bytesRead: nat
    var packetsRead: nat

    constructor (input: seq<byte>)
      ensures pending == input && bytesRead == 0 && packetsRead == 0
    {
      pending, bytesRead, packetsRead := input, 0, 0;
    }

    /** `reader.read(1)`. */
    method ReadByte() returns (chunk: seq<byte>)
      modifies this`pending
      ensures chunk + pending == old(pending)
      ensures |chunk| == if old(pending) == [] then 0 else 1
    {
      if pending == [] {
        return [];
      }
      chunk, pending := pending[..1], pending[1..];
    }

    /** The `for _ in range(4)` loop of `read_packet`: the remaining length and its digits. */
    method ReadRemainingLength() returns (r: VarResult, digits: seq<byte>)
      modifies this`pending
      ensures r == DecodeFrom(old(pending), 0)
      ensures r.Done? ==> |digits| == r.consumed && old(pending) == digits + pending
    {
      ghost var input := pending;
      var multiplier, remaining, count := 1, 0, 0;
      digits := [];
      assert input[0..] == input;
      while count < 4
        invariant 0 <= count <= 4 && remaining >= 0 && multiplier > 0
        invariant Scanned(input, remaining, multiplier, count)
        invariant digits == input[..count] && pending == input[count..]
      {
        ScanStep(input, remaining, multiplier, count);
        var chunk := ReadByte();
        if |chunk| == 0 {
          return Truncated, digits;
        }
        assert chunk == [input[count]] && pending == input[count + 1..];
        digits := digits + chunk;
        var digit := chunk[0] as nat;
        remaining := remaining + (digit % 128) * multiplier;
        if digit < 128 {
          return Done(remaining, count + 1), digits;
        }
        multiplier := multiplier * 128;
        count := count + 1;
      }
      r := Malformed;
    }

    /** `read_packet`. */
    method ReadPacket() returns (r: Result<Option<Packet>, ProtocolError>)
      modifies this
      ensures match FrameOf(old(pending))
        case EndOfStream =>
          r == Ok(None) && pending == [] && bytesRead == old(bytesRead) && packetsRead == old(packetsRead)
        case Framed(packet, length) =>
          && r == Ok(Some(packet)) && pending == old(pending)[length..]
          && bytesRead == old(bytesRead) + length && packetsRead == old(packetsRead) + 1
        case Bad(error) => r == Err(error) && bytesRead == old(bytesRead) && packetsRead == old(packetsRead)
    {
      ghost var input := pending;
      var first := ReadByte();
      if |first| == 0 {
        return Ok(None);
      }
      assert input[1..] == pending && first == [input[0]];
      EncodingIsMinimal(pending, 0);
      var length, digits := ReadRemainingLength();
      if length.Truncated? {
        return Err(TruncatedLength);
      }
      if length.Malformed? {
        return Err(MalformedLength);
      }
      var remaining := length.value;
      if remaining > MAX_REMAINING_LENGTH {
        assert false; // four digits never exceed the limit
      }
      if remaining > |pending| {
        return Err(IncompleteRead);
      }
      var body := pending[..remaining];
      var raw := first + digits + body;
      RawIsSlice(input, first, digits, pending, remaining);
      pending := pending[remaining..];
      var header := first[0] as nat;
      var packetType := TypeOf(header / 16);
      if packetType.None? {
        return Err(UnknownType);
      }
      bytesRead := bytesRead + |raw|;
      packetsRead := packetsRead + 1;
      r := Ok(Some(Packet(packetType.value, header % 16, body, raw)));
    }
  }

  lemma RawIsSlice(input: seq<byte>, first: seq<byte>, digits: seq<byte>, rest: seq<byte>, n: nat)
    requires input == first + (digits + rest) && n <= |rest|
    ensures var start := |first| + |digits|;
      && input[..start + n] == first + digits + rest[..n]
      && input[start..start + n] == rest[..n] && input[start + n..] == rest[n..]
  {}

  /** `count` digits have been read, worth `value`, and none of them was the last. */
  ghost predicate Scanned(input: seq<byte>, value: nat, weight: nat, count: nat) {
    && count <= 4 && count <= |input| && weight == Weight(count)
    && DecodeFrom(input, 0) ==
       if count < 4 then Resume(value, weight, count, DecodeFrom(input[count..], count)) else Malformed
  }

  /** The reader's inlined length scan takes the same step as `decode_remaining_length`. */
  lemma ScanStep(input: seq<byte>, value: nat, weight: nat, count: nat)
    requires Scanned(input, value, weight, count) && count < 4
    ensures count == |input| ==> DecodeFrom(input, 0) == Truncated
    ensures count < |input| && input[count] < 128 ==>
      DecodeFrom(input, 0) == Done(value + (input[count] as nat % 128) * weight, count + 1)
    ensures count < |input| && input[count] >= 128 ==>
      Scanned(input, value + (input[count] as nat % 128) * weight, weight * 128, count + 1)
  {
    if count < |input| {
      ScanDigit(input[count..], value, weight, count);
      WeightGrows(count);
      assert input[count..][1..] == input[count + 1..];
    }
  }

  class CountingWriter {
    /** Everything written so far. */
    ghost var written: seq<byte>
    var bytesWritten: nat
    var packetsWritten: nat

    ghost predicate Valid()
      reads this
    {
      bytesWritten == |written|
    }

    constructor ()
      ensures Valid() && written == [] && packetsWritten == 0
    {
      written, bytesWritten, packetsWritten := [], 0, 0;
    }

    method Write(data: seq<byte>)
      requires Valid()
      modifies this
      ensures Valid() && written == old(written) + data && packetsWritten == old(packetsWritten) + 1
    {
      written := written + data;
      bytesWritten := bytesWritten + |data|;
      packetsWritten := packetsWritten + 1;
    }
  }

  // -- whole streams ----------------------------------------------------------

  /** The packets of a stream up to its end or its first malformed packet. */
  function Packets(input: seq<byte>): seq<Packet>
    decreases |input|
  {
    var f := FrameOf(input);
    if f.Framed? then [f.packet] + Packets(input[f.length..]) else []
  }

  /** How reading the stream to its end stops. */
  function Ending(input: seq<byte>): (f: Frame)
    ensures !f.Framed?
    decreases |input|
  {
    var f := FrameOf(input);
    if f.Framed? then Ending(input[f.length..]) else f
  }

  function RawBytes(packets: seq<Packet>): seq<byte> {
    if packets == [] then [] else packets[0].raw + RawBytes(packets[1..])
  }

  lemma {:induction false} RawBytesSnoc(packets: seq<Packet>, last: Packet)
    ensures RawBytes(packets + [last]) == RawBytes(packets) + last.raw
  {
    if packets != [] {
      RawBytesSnoc(packets[1..], last);
      assert (packets + [last])[1..] == packets[1..] + [last];
    }
  }

  /** What `build_packet` writes is read back as that packet, whatever follows it. */
  lemma BuiltPacketFrames(t: PacketType, flags: nat, payload: seq<byte>, rest: seq<byte>)
    requires |payload| <= MAX_REMAINING_LENGTH
    ensures var raw := BuildPacket(t, flags, payload).value;
      FrameOf(raw + rest) == Framed(Packet(t, flags % 16, payload, raw), |raw|)
  {
    hide DecodeFrom, VarInt;
    var raw := BuildPacket(t, flags, payload).value;
    var size := VarInt(|payload|);
    var header := t.Code() * 16 + flags % 16;
    assert raw == [header as byte] + size + payload;
    DecodeOfEncode(|payload|, 0, payload + rest);
    var input := raw + rest;
    assert input[1..] == size + (payload + rest);
    assert input[..|raw|] == raw;
    assert input[1 + |size|..|raw|] == payload;
    assert header / 16 == t.Code() && header % 16 == flags % 16;
    CodeIsInjective(t);
  }

  lemma CodeIsInjective(t: PacketType)
    ensures TypeOf(t.Code()) == Some(t)
  {}

  /** What `build_packet` is asked for. */
  datatype PacketSpec = PacketSpec(packetType: PacketType, flags: nat, payload: seq<byte>)

  ghost predicate Buildable(specs: seq<PacketSpec>) {
    forall i | 0 <= i < |specs| :: |specs[i].payload| <= MAX_REMAINING_LENGTH
  }

  function Built(spec: PacketSpec): Packet
    requires |spec.payload| <= MAX_REMAINING_LENGTH
  {
    Packet(spec.packetType, spec.flags % 16, spec.payload, BuildPacket(spec.packetType, spec.flags, spec.payload).value)
  }

  ghost function BuiltAll(specs: seq<PacketSpec>): seq<Packet>
    requires Buildable(specs)
  {
    seq(|specs|, i requires 0 <= i < |specs| => Built(specs[i]))
  }

  /** Reading the concatenation of built packets gives those packets, in order, and then the end of the stream. */
  lemma {:induction false} StreamRoundTrip(specs: seq<PacketSpec>)
    requires Buildable(specs)
    ensures Packets(RawBytes(BuiltAll(specs))) == BuiltAll(specs)
    ensures Ending(RawBytes(BuiltAll(specs))) == EndOfStream
  {
    hide FrameOf, BuildPacket;
    var packets := BuiltAll(specs);
    if specs != [] {
      var spec := specs[0];
      assert packets[1..] == BuiltAll(specs[1..]);
      var rest := RawBytes(packets[1..]);
      BuiltPacketFrames(spec.packetType, spec.flags, spec.payload, rest);
      var input := packets[0].raw + rest;
      assert input[|packets[0].raw|..] == rest;
      StreamRoundTrip(specs[1..]);
      assert packets == [packets[0]] + packets[1..];
    }
  }

  /** The packet's raw bytes are one whole frame, and it is the packet they hold. */
  ghost predicate SelfFraming(p: Packet) {
    FrameOf(p.raw) == Framed(p, |p.raw|)
  }

  /** For any bytes at all: the packets' raw bytes are the input up to where reading stops, all of it when the
      stream ends cleanly, and each packet's raw bytes frame to that packet again. */
  lemma {:induction false} RawIsThePrefix(input: seq<byte>)
    ensures RawBytes(Packets(input)) <= input
    ensures Ending(input) == EndOfStream ==> RawBytes(Packets(input)) == input
    ensures forall p | p in Packets(input) :: SelfFraming(p) && |p.payload| <= MAX_REMAINING_LENGTH
    decreases |input|
  {
    hide FrameOf, SelfFraming;
    var f := FrameOf(input);
    if f.Framed? {
      var rest := input[f.length..];
      RawIsThePrefix(rest);
      RawFramesItself(input);
      assert input == f.packet.raw + rest;
      PacketsAhead(input);
    }
  }

  lemma PacketsAhead(input: seq<byte>)
    requires FrameOf(input).Framed?
    ensures var f := FrameOf(input);
      var rest := input[f.length..];
      && RawBytes(Packets(input)) == f.packet.raw + RawBytes(Packets(rest))
      && Ending(input) == Ending(rest)
      && (forall p | p in Packets(input) :: p == f.packet || p in Packets(rest))
  {
    hide FrameOf;
    var f := FrameOf(input);
    assert Packets(input)[1..] == Packets(input[f.length..]);
  }

  lemma RawFramesItself(input: seq<byte>)
    requires FrameOf(input).Framed?
    ensures var f := FrameOf(input);
      SelfFraming(f.packet) && |f.packet.payload| <= MAX_REMAINING_LENGTH && f.packet.raw == input[..f.length]
  {
    var f := FrameOf(input);
    var raw := f.packet.raw;
    var n := f.length - 1;
    assert raw[1..] == input[1..][..n];
    EncodingIsMinimal(input[1..], 0);
    DecodeReadsAhead(input[1..], 0, n);
    var digits := DecodeFrom(input[1..], 0).consumed;
    assert raw[1 + digits..] == input[1 + digits..f.length];
    assert raw[..|raw|] == raw;
  }

  /** Bytes after a packet do not change how it frames. */
  lemma FrameIgnoresRest(p: Packet, rest: seq<byte>)
    requires SelfFraming(p)
    ensures FrameOf(p.raw + rest) == Framed(p, |p.raw|)
  {
    var input := p.raw + rest;
    EncodingIsMinimal(p.raw[1..], 0);
    assert input[1..] == p.raw[1..] + rest;
    assert input[1..][..|p.raw| - 1] == p.raw[1..];
    DecodeReadsAhead(input[1..], 0, |p.raw| - 1);
    assert input[..|p.raw|] == p.raw;
    var start := 1 + DecodeFrom(p.raw[1..], 0).consumed;
    assert input[start..|p.raw|] == p.raw[start..|p.raw|];
  }

  /** The length scan looks no further than the digits it consumes. */
  lemma {:induction false} DecodeReadsAhead(data: seq<byte>, depth: nat, n: nat)
    requires depth <= 3 && n <= |data|
    requires DecodeFrom(data[..n], depth).Done?
          || (DecodeFrom(data, depth).Done? && DecodeFrom(data, depth).consumed <= n)
    ensures DecodeFrom(data[..n], depth) == DecodeFrom(data, depth)
    decreases 3 - depth
  {
    assert data[..n][0] == data[0];
    if data[0] >= 128 {
      assert data[..n][1..] == data[1..][..n - 1];
      DecodeReadsAhead(data[1..], depth + 1, n - 1);
    }
  }
}
