/** Packets of the safety and retransmission layer as bytes: a header of 28
    bytes, the data, and 0, 8 or 16 bytes of a hash over both. */
module SrPackets {
  import opened ByteOrder

  datatype Packet = Packet(
    length: nat, kind: nat, receiver: nat, sender: nat, sequence: nat, confirmed: nat, timestamp: nat,
    confirmedTimestamp: nat, data: seq<byte>, checksum: seq<byte>, checksumCorrect: bool)

  const TYPE_DATA := 6240
  const TYPE_RETR_DATA := 6241

  /** Byte order of the host, number of 8-byte hash words, and the keyed hash. */
  datatype Context = Context(big: bool, hashLength: nat, hash: seq<byte> -> seq<byte>)

  ghost predicate Proper(c: Context) {
    c.hashLength <= 2 && forall s :: |c.hash(s)| == 16
  }

  function ChecksumLength(c: Context): nat {
    8 * c.hashLength
  }

  /** The packet's fields fit their widths and its length is that of its parts. */
  predicate Built(p: Packet, c: Context) {
    && p.kind < 0x1_0000
    && p.receiver < 0x1_0000_0000 && p.sender < 0x1_0000_0000
    && p.sequence < 0x1_0000_0000 && p.confirmed < 0x1_0000_0000
    && p.timestamp < 0x1_0000_0000 && p.confirmedTimestamp < 0x1_0000_0000
    && p.length == 28 + ChecksumLength(c) + |p.data| < 0x1_0000
  }

  function HeaderByte(big: bool, p: Packet, i: nat): byte
    requires i < 28
  {
    if i < 2 then ShortByte(big, p.length, i)
    else if i < 4 then ShortByte(big, p.kind, i - 2)
    else if i < 8 then LongByte(big, p.receiver, i - 4)
    else if i < 12 then LongByte(big, p.sender, i - 8)
    else if i < 16 then LongByte(big, p.sequence, i - 12)
    else if i < 20 then LongByte(big, p.confirmed, i - 16)
    else if i < 24 then LongByte(big, p.timestamp, i - 20)
    else LongByte(big, p.confirmedTimestamp, i - 24)
  }

  function Header(big: bool, p: Packet): (h: seq<byte>)
    ensures |h| == 28
  {
    seq(28, i requires 0 <= i < 28 => HeaderByte(big, p, i))
  }

  /** The first bytes of the hash of s. */
  function Safety(c: Context, s: seq<byte>): (h: seq<byte>)
    requires Proper(c)
    ensures |h| == ChecksumLength(c)
  {
    c.hash(s)[..ChecksumLength(c)]
  }

  function Encode(p: Packet, c: Context): seq<byte>
    requires Proper(c)
  {
    var covered := Header(c.big, p) + p.data;
    covered + Safety(c, covered)
  }

  /** Where the fields are: 16-bit length and type, then 32-bit receiver, sender,
      sequence number, confirmed sequence number, time stamp and confirmed time
      stamp, all in the order of the host; the data; and as many bytes as agreed
      on of the hash of everything before. */
  lemma FieldsOnWire(p: Packet, c: Context)
    requires Proper(c) && Built(p, c)
    ensures var b, end := Encode(p, c), 28 + |p.data|;
            && |b| == p.length == end + 8 * c.hashLength
            && Value(c.big, b[0..2]) == p.length && Value(c.big, b[2..4]) == p.kind
            && Value(c.big, b[4..8]) == p.receiver && Value(c.big, b[8..12]) == p.sender
            && Value(c.big, b[12..16]) == p.sequence && Value(c.big, b[16..20]) == p.confirmed
            && Value(c.big, b[20..24]) == p.timestamp && Value(c.big, b[24..28]) == p.confirmedTimestamp
            && b[28..end] == p.data && b[end..] == c.hash(b[..end])[..8 * c.hashLength]
  {
    var b, end := Encode(p, c), 28 + |p.data|;
    var h := Header(c.big, p);
    var covered := h + p.data;
    HeaderValues(c.big, p);
    assert Safety(c, covered) == c.hash(covered)[..8 * c.hashLength];
    hide Header, Value, Safety;
    assert b == covered + Safety(c, covered);
    assert b[..end] == covered && b[end..] == Safety(c, covered) && b[28..end] == p.data;
    assert b[..28] == h;
    forall i, j | 0 <= i <= j <= 28 ensures b[i..j] == h[i..j] {
    }
  }

  lemma HeaderValues(big: bool, p: Packet)
    requires p.length < 0x1_0000 && p.kind < 0x1_0000 && p.receiver < 0x1_0000_0000 && p.sender < 0x1_0000_0000
    requires p.sequence < 0x1_0000_0000 && p.confirmed < 0x1_0000_0000
    requires p.timestamp < 0x1_0000_0000 && p.confirmedTimestamp < 0x1_0000_0000
    ensures var h := Header(big, p);
            && Value(big, h[0..2]) == p.length && Value(big, h[2..4]) == p.kind
            && Value(big, h[4..8]) == p.receiver && Value(big, h[8..12]) == p.sender
            && Value(big, h[12..16]) == p.sequence && Value(big, h[16..20]) == p.confirmed
            && Value(big, h[20..24]) == p.timestamp && Value(big, h[24..28]) == p.confirmedTimestamp
  {
    var h := Header(big, p);
    assert forall i :: 0 <= i < 28 ==> h[i] == HeaderByte(big, p, i);
    hide Header, ShortByte, LongByte, Value;
    ShortAt(big, p.length, h, 0);
    ShortAt(big, p.kind, h, 2);
    LongAt(big, p.receiver, h, 4);
    LongAt(big, p.sender, h, 8);
    LongAt(big, p.sequence, h, 12);
    LongAt(big, p.confirmed, h, 16);
    LongAt(big, p.timestamp, h, 20);
    LongAt(big, p.confirmedTimestamp, h, 24);
  }

  /** The bytes are a packet as far as its length field goes. */
  predicate LengthFits(b: seq<byte>, c: Context) {
    && 28 + ChecksumLength(c) <= |b|
    && 28 + ChecksumLength(c) <= ShortOf(c.big, b[0], b[1]) <= |b|
  }

  function Long(big: bool, b: seq<byte>, at: nat): nat
    requires at + 4 <= |b|
  {
    LongOf(big, b[at], b[at + 1], b[at + 2], b[at + 3])
  }

  function Decode(b: seq<byte>, c: Context): Packet
    requires Proper(c) && LengthFits(b, c)
  {
    var length := ShortOf(c.big, b[0], b[1]);
    var end := length - ChecksumLength(c);
    Packet(length, ShortOf(c.big, b[2], b[3]), Long(c.big, b, 4), Long(c.big, b, 8), Long(c.big, b, 12),
           Long(c.big, b, 16), Long(c.big, b, 20), Long(c.big, b, 24),
           b[28..end], b[end..length], Safety(c, b[..end]) == b[end..length])
  }

  /* ----- round trips ----- */

  lemma {:induction false} HeaderFields(p: Packet, c: Context, rest: seq<byte>)
    requires Built(p, c)
    ensures var b := Header(c.big, p) + rest;
            && ShortOf(c.big, b[0], b[1]) == p.length && ShortOf(c.big, b[2], b[3]) == p.kind
            && Long(c.big, b, 4) == p.receiver && Long(c.big, b, 8) == p.sender
            && Long(c.big, b, 12) == p.sequence && Long(c.big, b, 16) == p.confirmed
            && Long(c.big, b, 20) == p.timestamp && Long(c.big, b, 24) == p.confirmedTimestamp
  {
    ShortBack(c.big, p.length);
    ShortBack(c.big, p.kind);
    LongBack(c.big, p.receiver);
    LongBack(c.big, p.sender);
    LongBack(c.big, p.sequence);
    LongBack(c.big, p.confirmed);
    LongBack(c.big, p.timestamp);
    LongBack(c.big, p.confirmedTimestamp);
    hide ShortByte, ShortOf, LongByte, LongOf;
  }

  /** Decoding undoes encoding and finds the checksum right, for any hash. */
  lemma {:induction false} DecodeEncode(p: Packet, c: Context)
    requires Proper(c) && Built(p, c)
    ensures LengthFits(Encode(p, c), c)
    ensures Decode(Encode(p, c), c)
         == p.(checksum := Safety(c, Header(c.big, p) + p.data), checksumCorrect := true)
  {
    var b := Encode(p, c);
    var covered := Header(c.big, p) + p.data;
    HeaderFields(p, c, p.data + Safety(c, covered));
    assert b == covered + Safety(c, covered);
    hide Encode, Header, Safety, Long, ShortOf;
    PartsOf(Header(c.big, p), p.data, Safety(c, covered));
  }

  lemma PartsOf(h: seq<byte>, data: seq<byte>, safety: seq<byte>)
    ensures var b := h + data + safety;
            && b == h + (data + safety) && b[..|h| + |data|] == h + data
            && b[|h|..|h| + |data|] == data && b[|h| + |data|..] == safety
            && b[|h| + |data|..|h| + |data| + |safety|] == safety
  {
  }

  lemma {:induction false} HeaderOfDecoded(b: seq<byte>, c: Context)
    requires Proper(c) && LengthFits(b, c)
    ensures Header(c.big, Decode(b, c)) == b[..28]
  {
    ShortForth(c.big, b[0], b[1]);
    ShortForth(c.big, b[2], b[3]);
    LongForth(c.big, b[4], b[5], b[6], b[7]);
    LongForth(c.big, b[8], b[9], b[10], b[11]);
    LongForth(c.big, b[12], b[13], b[14], b[15]);
    LongForth(c.big, b[16], b[17], b[18], b[19]);
    LongForth(c.big, b[20], b[21], b[22], b[23]);
    LongForth(c.big, b[24], b[25], b[26], b[27]);
    hide ShortByte, ShortOf, LongByte, LongOf;
    var h := Header(c.big, Decode(b, c));
    forall i | 0 <= i < 28 ensures h[i] == b[i] {
    }
  }

  lemma {:induction false} EncodeOfDecoded(b: seq<byte>, c: Context)
    requires Proper(c) && LengthFits(b, c) && ShortOf(c.big, b[0], b[1]) == |b|
    ensures var end := |b| - ChecksumLength(c);
            Encode(Decode(b, c), c) == b[..end] + Safety(c, b[..end])
  {
    HeaderOfDecoded(b, c);
    var end := |b| - ChecksumLength(c);
    assert Decode(b, c).data == b[28..end];
    hide *;
    assert b[..28] + b[28..end] == b[..end];
    EncodeIs(Decode(b, c), c);
  }

  lemma EncodeIs(p: Packet, c: Context)
    requires Proper(c)
    ensures Encode(p, c) == Header(c.big, p) + p.data + Safety(c, Header(c.big, p) + p.data)
  {
  }

  /** Encoding what was decoded gives the bytes back exactly when their checksum
      is right. */
  lemma {:induction false} EncodeDecodeIff(b: seq<byte>, c: Context)
    requires Proper(c) && LengthFits(b, c) && ShortOf(c.big, b[0], b[1]) == |b|
    ensures Encode(Decode(b, c), c) == b <==> Decode(b, c).checksumCorrect
  {
    var end := |b| - ChecksumLength(c);
    assert Decode(b, c).checksumCorrect == (Safety(c, b[..end]) == b[end..]);
    EncodeOfDecoded(b, c);
    hide *;
    CommonStart(b[..end], Safety(c, b[..end]), b[end..]);
    assert b == b[..end] + b[end..];
  }

  lemma CommonStart(a: seq<byte>, x: seq<byte>, y: seq<byte>)
    ensures a + x == a + y <==> x == y
  {
    if a + x == a + y {
      assert x == (a + x)[|a|..] && y == (a + y)[|a|..];
    }
  }

  /** The bytes with the checksum the packet carries, not a new one. */
  function EncodeUnchecked(p: Packet, c: Context): seq<byte> {
    Header(c.big, p) + p.data + p.checksum
  }

  /** A frame passed on at once keeps the bytes of its packet. */
  lemma {:induction false} DirectPathKeepsBytes(b: seq<byte>, c: Context)
    requires Proper(c) && LengthFits(b, c) && ShortOf(c.big, b[0], b[1]) == |b|
    ensures EncodeUnchecked(Decode(b, c), c) == b
  {
    var end := |b| - ChecksumLength(c);
    assert Decode(b, c).data == b[28..end] && Decode(b, c).checksum == b[end..] by {
      hide Header, ShortOf, Safety, Long;
    }
    hide Header, Decode, ShortOf;
    HeaderOfDecoded(b, c);
    ThreeParts(b, end);
  }

  lemma ThreeParts(b: seq<byte>, end: nat)
    requires 28 <= end <= |b|
    ensures b == b[..28] + b[28..end] + b[end..]
  {
  }

  /** A frame that waited in the defer queue leaves with a right checksum, even
      if its packet came with a wrong one. */
  lemma {:induction false} DeferredPathCertifies(b: seq<byte>, c: Context)
    requires Proper(c) && LengthFits(b, c) && ShortOf(c.big, b[0], b[1]) == |b|
    ensures LengthFits(Encode(Decode(b, c), c), c)
    ensures var p := Decode(Encode(Decode(b, c), c), c);
            p.checksumCorrect && p == Decode(b, c).(checksum := p.checksum, checksumCorrect := true)
  {
    assert Built(Decode(b, c), c);
    hide Decode, Encode, Built, LengthFits;
    DecodeEncode(Decode(b, c), c);
  }

  /* ----- how far decoding reads ----- */

  /** getDataLength: an unsigned difference. */
  function DataLength(length: nat, c: Context): nat
    requires length < 0x1_0000
  {
    (length - 28 - ChecksumLength(c)) % 0x1_0000_0000
  }

  /** The end of what bytesToRastaPacket reads: header, data and checksum. */
  function EndOfReads(b: seq<byte>, c: Context): nat
    requires |b| >= 28 + ChecksumLength(c)
  {
    28 + DataLength(ShortOf(c.big, b[0], b[1]), c) + ChecksumLength(c)
  }

  /** Decoding stays inside the bytes exactly when the length field covers
      header and checksum and does not exceed the bytes there are. */
  lemma ReadsInsideIff(b: seq<byte>, c: Context)
    requires c.hashLength <= 2 && 28 + ChecksumLength(c) <= |b| < 0x1_0000_0000
    ensures EndOfReads(b, c) <= |b| <==> LengthFits(b, c)
  {
    var d := ShortOf(c.big, b[0], b[1]) - 28 - ChecksumLength(c);
    if d < 0 {
      assert d % 0x1_0000_0000 == d + 0x1_0000_0000;
    } else {
      assert d % 0x1_0000_0000 == d;
    }
  }

  /* ----- the program ----- */

  /** rastamodule.c keeps the last error until someone asks for it. */
  class Module {
    var lastError: bool

    constructor ()
      ensures !lastError
    {
      lastError := false;
    }

    method GetLastError() returns (error: bool)
      modifies this
      ensures error == old(lastError) && !lastError
    {
      error := lastError;
      lastError := false;
    }

    method PackFields(big: bool, p: Packet, result: array<byte>)
      requires result.Length >= 28
      modifies result
      ensures forall i :: 0 <= i < 28 ==> result[i] == HeaderByte(big, p, i)
      ensures forall i :: 28 <= i < result.Length ==> result[i] == old(result[i])
    {
      hide ShortByte, LongByte;
      PutShort(big, p.length, result, 0);
      PutShort(big, p.kind, result, 2);
      PutLong(big, p.receiver, result, 4);
      PutLong(big, p.sender, result, 8);
      PutLong(big, p.sequence, result, 12);
      PutLong(big, p.confirmed, result, 16);
      PutLong(big, p.timestamp, result, 20);
      PutLong(big, p.confirmedTimestamp, result, 24);
    }

    /** rastaModuleToBytes. written is false when the buffer is left as it was
        allocated: the length is too small, or an earlier error is pending. */
    method ModuleToBytes(p: Packet, c: Context) returns (result: array<byte>, written: bool)
      requires Proper(c) && p.length < 0x1_0000
      requires p.length >= 28 + ChecksumLength(c) ==> |p.data| == p.length - 28 - ChecksumLength(c)
      modifies this
      ensures fresh(result) && result.Length == p.length
      ensures written <==> !old(lastError) && p.length >= 28 + ChecksumLength(c)
      ensures written ==> result[..] == Encode(p, c)
      ensures lastError <==> old(lastError) || p.length < 28 + ChecksumLength(c)
    {
      result := new byte[p.length];
      if p.length < 28 + ChecksumLength(c) {
        lastError := true;
      }
      if lastError {
        return result, false;
      }
      PackFields(c.big, p, result);
      PutBytes(p.data, result, 28);
      var end := p.length - ChecksumLength(c);
      assert result[..end] == Header(c.big, p) + p.data;
      var checksum := c.hash(result[..end])[..ChecksumLength(c)];
      PutBytes(checksum, result, end);
      assert result[..] == result[..end] + checksum;
      assert result[..end] == Header(c.big, p) + p.data;
      return result, true;
    }

    /** rastaModuleToBytesNoChecksum. */
    method ModuleToBytesNoChecksum(p: Packet, c: Context) returns (result: array<byte>, written: bool)
      requires p.length < 0x1_0000
      requires p.length >= 28 + ChecksumLength(c) ==>
                 |p.data| == p.length - 28 - ChecksumLength(c) && |p.checksum| == ChecksumLength(c)
      modifies this
      ensures fresh(result) && result.Length == p.length
      ensures written <==> !old(lastError) && p.length >= 28 + ChecksumLength(c)
      ensures written ==> result[..] == EncodeUnchecked(p, c)
      ensures lastError <==> old(lastError) || p.length < 28 + ChecksumLength(c)
    {
      result := new byte[p.length];
      if p.length < 28 + ChecksumLength(c) {
        lastError := true;
      }
      if lastError {
        return result, false;
      }
      PackFields(c.big, p, result);
      PutBytes(p.data, result, 28);
      PutBytes(p.checksum, result, 28 + |p.data|);
      assert result[..28] == Header(c.big, p);
      assert result[28..28 + |p.data|] == p.data;
      assert result[..] == result[..28] + result[28..28 + |p.data|] + p.checksum;
      return result, true;
    }

    /** bytesToRastaPacket. The source reads as many bytes as the length field
        says, so that field must not exceed the bytes there are. */
    method BytesToPacket(b: seq<byte>, c: Context) returns (ok: bool, p: Packet)
      requires Proper(c) && (|b| >= 28 + ChecksumLength(c) ==> LengthFits(b, c))
      modifies this
      ensures ok <==> |b| >= 28 + ChecksumLength(c)
      ensures ok ==> p == Decode(b, c) && lastError == old(lastError)
      ensures !ok ==> p.length == 0 && !p.checksumCorrect && lastError
    {
      p := Packet(0, 0, 0, 0, 0, 0, 0, 0, [], [], false);
      if |b| < 28 + ChecksumLength(c) {
        lastError := true;
        return false, p;
      }
      hide ShortOf, LongOf;
      var length := ShortOf(c.big, b[0], b[1]);
      var end := length - ChecksumLength(c);
      var data := new byte[end - 28];
      PutBytes(b[28..end], data, 0);
      assert data[..] == b[28..end];
      var checksum := c.hash(b[..end])[..ChecksumLength(c)];
      p := Packet(length, ShortOf(c.big, b[2], b[3]), Long(c.big, b, 4), Long(c.big, b, 8), Long(c.big, b, 12),
                  Long(c.big, b, 16), Long(c.big, b, 20), Long(c.big, b, 24),
                  data[..], b[end..length], checksum == b[end..length]);
      return true, p;
    }
  }
}
