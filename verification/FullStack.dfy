/** From a telegram to the bytes on the wire and back. */
module FullStack {
  import opened ByteOrder
  import opened Wrappers
  import Sci
  import MessageData
  import Sr = SrPackets
  import Red = RedundancyPackets

  /** The header fields of the packets around a telegram. */
  datatype Route = Route(
    receiver: nat, sender: nat, sequence: nat, confirmed: nat, timestamp: nat, confirmedTimestamp: nat,
    frameSequence: nat, retransmitted: bool)

  predicate Fits(r: Route) {
    && r.receiver < 0x1_0000_0000 && r.sender < 0x1_0000_0000
    && r.sequence < 0x1_0000_0000 && r.confirmed < 0x1_0000_0000
    && r.timestamp < 0x1_0000_0000 && r.confirmedTimestamp < 0x1_0000_0000
    && r.frameSequence < 0x1_0000_0000
  }

  /** initializePacket around a payload, with the 16-bit length. */
  function PacketAround(r: Route, data: seq<byte>, c: Sr.Context): Sr.Packet {
    Sr.Packet((28 + Sr.ChecksumLength(c) + |data|) % 0x1_0000,
              if r.retransmitted then Sr.TYPE_RETR_DATA else Sr.TYPE_DATA,
              r.receiver, r.sender, r.sequence, r.confirmed, r.timestamp, r.confirmedTimestamp, data, [], false)
  }

  function Send(messages: seq<seq<byte>>, r: Route, c: Sr.Context, k: Red.Check): seq<byte>
    requires Sr.Proper(c) && Red.Proper(k)
  {
    Red.Encode(Red.Create(r.frameSequence, PacketAround(r, MessageData.Pack(c.big, messages), c), k), c, k)
  }

  datatype Arrival = Arrival(frame: Red.Frame, messages: seq<seq<byte>>)

  predicate Readable(b: seq<byte>, c: Sr.Context, k: Red.Check)
    requires Sr.Proper(c) && Red.Proper(k)
  {
    Red.LengthFits(b, c, k) && MessageData.WellFormed(c.big, Red.Decode(b, c, k).inner.data)
  }

  function Receive(b: seq<byte>, c: Sr.Context, k: Red.Check): Arrival
    requires Sr.Proper(c) && Red.Proper(k) && Readable(b, c, k)
  {
    var f := Red.Decode(b, c, k);
    Arrival(f, MessageData.Unpack(c.big, f.inner.data))
  }

  function HeaderOf(f: Red.Frame): Route {
    Route(f.inner.receiver, f.inner.sender, f.inner.sequence, f.inner.confirmed, f.inner.timestamp,
          f.inner.confirmedTimestamp, f.sequence, f.inner.kind == Sr.TYPE_RETR_DATA)
  }

  lemma {:induction false} FrameArrives(data: seq<byte>, r: Route, c: Sr.Context, k: Red.Check)
    requires Sr.Proper(c) && Red.Proper(k) && Fits(r)
    requires 8 + Red.CheckLength(k) + 28 + Sr.ChecksumLength(c) + |data| < 0x1_0000
    ensures var b := Red.Encode(Red.Create(r.frameSequence, PacketAround(r, data, c), k), c, k);
            && Red.LengthFits(b, c, k)
            && var f := Red.Decode(b, c, k);
               && f.inner.data == data && HeaderOf(f) == r
               && f.checksumCorrect && f.inner.checksumCorrect && f.reserve == 0
  {
    var p := PacketAround(r, data, c);
    var f := Red.Create(r.frameSequence, p, k);
    assert Red.Built(f, c, k);
    hide Red.Encode, Red.Decode, Red.LengthFits, Red.Built;
    Red.DecodeEncode(f, c, k);
    var g := Red.Decode(Red.Encode(f, c, k), c, k);
    assert g.inner.kind == p.kind && g.inner.data == data && g.sequence == r.frameSequence;
  }

  /** Any list of messages that fits the 16-bit lengths arrives as it was sent,
      with its header fields and both checks right, for any hash and CRC. */
  lemma {:induction false} MessagesArrive(messages: seq<seq<byte>>, r: Route, c: Sr.Context, k: Red.Check)
    requires Sr.Proper(c) && Red.Proper(k) && Fits(r)
    requires MessageData.Fit(messages)
    requires 8 + Red.CheckLength(k) + 28 + Sr.ChecksumLength(c) + |MessageData.Pack(c.big, messages)| < 0x1_0000
    ensures Readable(Send(messages, r, c, k), c, k)
    ensures var a := Receive(Send(messages, r, c, k), c, k);
            && a.messages == messages && HeaderOf(a.frame) == r
            && a.frame.checksumCorrect && a.frame.inner.checksumCorrect && a.frame.reserve == 0
  {
    hide Red.Encode, Red.Decode, Red.LengthFits, Red.Create, PacketAround, HeaderOf;
    hide MessageData.Pack, MessageData.Unpack, MessageData.WellFormed, MessageData.Fit;
    FrameArrives(MessageData.Pack(c.big, messages), r, c, k);
    MessageData.UnpackPack(c.big, messages);
  }

  /** Any telegram with a known protocol and at most 85 bytes of payload. */
  lemma {:induction false} TelegramArrives(t: Sci.Telegram, r: Route, c: Sr.Context, k: Red.Check)
    requires Sr.Proper(c) && Red.Proper(k) && Fits(r) && Sci.Valid(t)
    ensures Readable(Send([Sci.Encode(t)], r, c, k), c, k)
    ensures var a := Receive(Send([Sci.Encode(t)], r, c, k), c, k);
            && |a.messages| == 1 && Sci.Decode(a.messages[0]) == Some(t) && HeaderOf(a.frame) == r
            && a.frame.checksumCorrect && a.frame.inner.checksumCorrect
  {
    var m := Sci.Encode(t);
    Sci.Layout(t);
    Sci.DecodeEncodeIff(t);
    MessageData.PackOne(c.big, m);
    hide Readable, Receive, Send, Sci.Encode, Sci.Decode, MessageData.Pack;
    MessagesArrive([m], r, c, k);
  }

  /** The bytes on the wire, on a host of either order: the frame's length,
      reserve and sequence number, the packet, the frame's check; in the packet
      its length, its type, receiver, sender, sequence number, confirmed number,
      time stamp and confirmed time stamp, the messages and the safety code. Data
      is of type 6240, resent data of type 6241. */
  lemma OnTheWire(messages: seq<seq<byte>>, r: Route, c: Sr.Context, k: Red.Check)
    requires Sr.Proper(c) && Red.Proper(k) && Fits(r)
    requires 8 + k.width / 8 + 28 + 8 * c.hashLength + |MessageData.Pack(c.big, messages)| < 0x1_0000
    ensures var b, data := Send(messages, r, c, k), MessageData.Pack(c.big, messages);
            && |b| == 36 + |data| + 8 * c.hashLength + k.width / 8
            && Value(c.big, b[0..2]) == |b| && Value(c.big, b[2..4]) == 0
            && Value(c.big, b[4..8]) == r.frameSequence
            && PacketOnTheWire(b[8..|b| - k.width / 8], data, r, c)
  {
    var data := MessageData.Pack(c.big, messages);
    FrameOnTheWire(data, r, c, k);
    PacketBytes(data, r, c);
    assert Send(messages, r, c, k) == Red.Encode(Red.Create(r.frameSequence, PacketAround(r, data, c), k), c, k);
    hide *;
  }

  lemma FrameOnTheWire(data: seq<byte>, r: Route, c: Sr.Context, k: Red.Check)
    requires Sr.Proper(c) && Red.Proper(k) && Fits(r)
    requires 8 + k.width / 8 + 28 + 8 * c.hashLength + |data| < 0x1_0000
    ensures var p := PacketAround(r, data, c);
            var b := Red.Encode(Red.Create(r.frameSequence, p, k), c, k);
            && |b| == 36 + |data| + 8 * c.hashLength + k.width / 8
            && Value(c.big, b[0..2]) == |b| && Value(c.big, b[2..4]) == 0
            && Value(c.big, b[4..8]) == r.frameSequence
            && b[8..|b| - k.width / 8] == Sr.Encode(p, c)
  {
    var p := PacketAround(r, data, c);
    var f := Red.Create(r.frameSequence, p, k);
    assert Red.Built(f, c, k) && f.length == 8 + p.length + k.width / 8 && f.reserve == 0 && f.inner == p;
    assert f.sequence == r.frameSequence && p.length == 28 + |data| + 8 * c.hashLength;
    hide *;
    Red.FieldsOnWire(f, c, k);
  }

  ghost predicate PacketOnTheWire(b: seq<byte>, data: seq<byte>, r: Route, c: Sr.Context)
    requires Sr.Proper(c)
  {
    && |b| == 28 + |data| + 8 * c.hashLength
    && Value(c.big, b[0..2]) == |b|
    && Value(c.big, b[2..4]) == (if r.retransmitted then 6241 else 6240)
    && Value(c.big, b[4..8]) == r.receiver && Value(c.big, b[8..12]) == r.sender
    && Value(c.big, b[12..16]) == r.sequence && Value(c.big, b[16..20]) == r.confirmed
    && Value(c.big, b[20..24]) == r.timestamp && Value(c.big, b[24..28]) == r.confirmedTimestamp
    && b[28..28 + |data|] == data
    && b[28 + |data|..] == c.hash(b[..28 + |data|])[..8 * c.hashLength]
  }

  lemma PacketBytes(data: seq<byte>, r: Route, c: Sr.Context)
    requires Sr.Proper(c) && Fits(r) && 28 + 8 * c.hashLength + |data| < 0x1_0000
    ensures PacketOnTheWire(Sr.Encode(PacketAround(r, data, c), c), data, r, c)
  {
    hide Value, Sr.Encode;
    Sr.FieldsOnWire(PacketAround(r, data, c), c);
  }
}
