/** Frames of the redundancy layer as bytes: a header of 8 bytes, an inner
    packet, and 0, 2 or 4 bytes of a CRC over both. */
module RedundancyPackets {
  import opened ByteOrder
  import Sr = SrPackets

  datatype Frame = Frame(length: nat, reserve: nat, sequence: nat, inner: Sr.Packet, checksumCorrect: bool)

  /** width is that of the CRC in bits, 0 when none is used. */
  datatype Check = Check(width: nat, crc: seq<byte> -> nat)

  ghost predicate Proper(k: Check) {
    && (k.width == 0 || k.width == 16 || k.width == 32)
    && forall s :: k.crc(s) < 0x1_0000_0000
  }

  function CheckLength(k: Check): nat {
    k.width / 8
  }

  /** createRedundancyPacket. */
  function Create(sequence: nat, inner: Sr.Packet, k: Check): Frame {
    Frame((8 + inner.length + CheckLength(k)) % 0x1_0000, 0, sequence, inner, true)
  }

  predicate Built(f: Frame, c: Sr.Context, k: Check) {
    && Sr.Built(f.inner, c)
    && f.reserve < 0x1_0000 && f.sequence < 0x1_0000_0000
    && f.length == 8 + f.inner.length + CheckLength(k) < 0x1_0000
  }

  function HeaderByte(big: bool, f: Frame, i: nat): byte
    requires i < 8
  {
    if i < 2 then ShortByte(big, f.length, i)
    else if i < 4 then ShortByte(big, f.reserve, i - 2)
    else LongByte(big, f.sequence, i - 4)
  }

  function Header(big: bool, f: Frame): (h: seq<byte>)
    ensures |h| == 8
  {
    seq(8, i requires 0 <= i < 8 => HeaderByte(big, f, i))
  }

  /** The first bytes of the CRC written as four bytes in host order. */
  function CheckBytes(big: bool, k: Check, s: seq<byte>): (b: seq<byte>)
    requires Proper(k)
    ensures |b| == CheckLength(k)
  {
    seq(CheckLength(k), i requires 0 <= i < CheckLength(k) => LongByte(big, k.crc(s), i))
  }

  function Encode(f: Frame, c: Sr.Context, k: Check): seq<byte>
    requires Sr.Proper(c) && Proper(k)
  {
    var covered := Header(c.big, f) + Sr.Encode(f.inner, c);
    covered + CheckBytes(c.big, k, covered)
  }

  /** Where the fields are: 16-bit length and reserve, the 32-bit sequence
      number, the packet inside, and the check over everything before it, the
      bytes of the 32-bit number that the width leaves. */
  lemma FieldsOnWire(f: Frame, c: Sr.Context, k: Check)
    requires Sr.Proper(c) && Proper(k) && Built(f, c, k)
    ensures var b, end := Encode(f, c, k), 8 + f.inner.length;
            && |b| == f.length == end + k.width / 8
            && Value(c.big, b[0..2]) == f.length && Value(c.big, b[2..4]) == f.reserve
            && Value(c.big, b[4..8]) == f.sequence
            && b[8..end] == Sr.Encode(f.inner, c)
            && forall i :: 0 <= i < k.width / 8 ==> b[end + i] == LongByte(c.big, k.crc(b[..end]), i)
  {
    var b, end := Encode(f, c, k), 8 + f.inner.length;
    var h, inner := Header(c.big, f), Sr.Encode(f.inner, c);
    Sr.FieldsOnWire(f.inner, c);
    HeaderValues(c.big, f);
    var check := CheckBytes(c.big, k, h + inner);
    assert forall i :: 0 <= i < k.width / 8 ==> check[i] == LongByte(c.big, k.crc(h + inner), i);
    hide Header, Value, CheckBytes, LongByte;
    assert b == h + inner + check;
    assert b[..end] == h + inner && b[8..end] == inner && b[..8] == h;
    assert b[0..2] == h[0..2] && b[2..4] == h[2..4] && b[4..8] == h[4..8];
  }

  lemma HeaderValues(big: bool, f: Frame)
    requires f.length < 0x1_0000 && f.reserve < 0x1_0000 && f.sequence < 0x1_0000_0000
    ensures var h := Header(big, f);
            Value(big, h[0..2]) == f.length && Value(big, h[2..4]) == f.reserve && Value(big, h[4..8]) == f.sequence
  {
    var h := Header(big, f);
    assert forall i :: 0 <= i < 8 ==> h[i] == HeaderByte(big, f, i);
    hide Header, ShortByte, LongByte, Value;
    ShortAt(big, f.length, h, 0);
    ShortAt(big, f.reserve, h, 2);
    LongAt(big, f.sequence, h, 4);
  }

  predicate LengthFits(b: seq<byte>, c: Sr.Context, k: Check) {
    8 + CheckLength(k) <= |b| && Sr.LengthFits(b[8..|b| - CheckLength(k)], c)
  }

  function Decode(b: seq<byte>, c: Sr.Context, k: Check): Frame
    requires Sr.Proper(c) && Proper(k) && LengthFits(b, c, k)
  {
    var end := |b| - CheckLength(k);
    Frame(ShortOf(c.big, b[0], b[1]), ShortOf(c.big, b[2], b[3]), Sr.Long(c.big, b, 4),
          Sr.Decode(b[8..end], c), CheckBytes(c.big, k, b[..end]) == b[end..])
  }

  lemma {:induction false} HeaderFields(f: Frame, c: Sr.Context, k: Check, rest: seq<byte>)
    requires Built(f, c, k)
    ensures var b := Header(c.big, f) + rest;
            && ShortOf(c.big, b[0], b[1]) == f.length && ShortOf(c.big, b[2], b[3]) == f.reserve
            && Sr.Long(c.big, b, 4) == f.sequence
  {
    ShortBack(c.big, f.length);
    ShortBack(c.big, f.reserve);
    LongBack(c.big, f.sequence);
    hide ShortByte, ShortOf, LongByte, LongOf;
  }

  /** Decoding undoes encoding with both checksums right, for any hash and CRC. */
  lemma {:induction false} DecodeEncode(f: Frame, c: Sr.Context, k: Check)
    requires Sr.Proper(c) && Proper(k) && Built(f, c, k)
    ensures LengthFits(Encode(f, c, k), c, k)
    ensures var d := Decode(Encode(f, c, k), c, k);
            && d == f.(inner := d.inner, checksumCorrect := true)
            && d.inner == f.inner.(checksum := d.inner.checksum, checksumCorrect := true)
  {
    var h, e := Header(c.big, f), Sr.Encode(f.inner, c);
    var crc := CheckBytes(c.big, k, h + e);
    var b := Encode(f, c, k);
    Sr.DecodeEncode(f.inner, c);
    HeaderFields(f, c, k, e + crc);
    assert |h| == 8 && |crc| == CheckLength(k) && |b| == f.length;
    hide Header, Sr.Encode, CheckBytes, Sr.Decode, Sr.Long, ShortOf, Sr.LengthFits, Sr.Built;
    assert b == h + e + crc == h + (e + crc);
    ThreeParts(h, e, crc);
  }

  lemma ThreeParts(h: seq<byte>, e: seq<byte>, crc: seq<byte>)
    ensures var b := h + e + crc;
            b[|h|..|b| - |crc|] == e && b[..|b| - |crc|] == h + e && b[|b| - |crc|..] == crc
  {
  }

  /* ----- the program ----- */

  /** rastaRedundancyPacketToBytes. */
  method ToBytes(m: Sr.Module, f: Frame, c: Sr.Context, k: Check) returns (result: array<byte>, written: bool)
    requires Sr.Proper(c) && Proper(k) && Built(f, c, k)
    modifies m
    ensures fresh(result) && result.Length == f.length
    ensures written <==> !old(m.lastError)
    ensures written ==> result[..] == Encode(f, c, k)
  {
    hide ShortByte, LongByte, Sr.Encode;
    result := new byte[f.length];
    PutShort(c.big, f.length, result, 0);
    PutShort(c.big, f.reserve, result, 2);
    PutLong(c.big, f.sequence, result, 4);
    var inner;
    inner, written := m.ModuleToBytes(f.inner, c);
    PutBytes(inner[..], result, 8);
    var end := f.length - CheckLength(k);
    assert result[..end] == Header(c.big, f) + inner[..];
    ghost var covered := result[..end];
    var crc := k.crc(result[..end]);
    var temp := new byte[4];
    PutLong(c.big, crc, temp, 0);
    PutBytes(temp[..CheckLength(k)], result, end);
    assert temp[..CheckLength(k)] == CheckBytes(c.big, k, covered);
    assert result[..end] == covered;
    assert result[..] == result[..end] + temp[..CheckLength(k)];
  }

  /** bytesToRastaRedundancyPacket. */
  method FromBytes(m: Sr.Module, b: seq<byte>, c: Sr.Context, k: Check) returns (f: Frame)
    requires Sr.Proper(c) && Proper(k) && |b| >= 8 + CheckLength(k)
    requires |b| >= 8 + CheckLength(k) + 28 + Sr.ChecksumLength(c) ==> LengthFits(b, c, k)
    modifies m
    ensures LengthFits(b, c, k) ==> f == Decode(b, c, k) && m.lastError == old(m.lastError)
    ensures !LengthFits(b, c, k) ==> f.inner.length == 0 && !f.inner.checksumCorrect && m.lastError
  {
    hide ShortOf, LongOf;
    var end := |b| - CheckLength(k);
    var ok, inner := m.BytesToPacket(b[8..end], c);
    var crc := k.crc(b[..end]);
    f := Frame(ShortOf(c.big, b[0], b[1]), ShortOf(c.big, b[2], b[3]), Sr.Long(c.big, b, 4), inner, true);
    if |b| == end {
      assert CheckBytes(c.big, k, b[..end]) == b[end..];
      return;
    }
    var temp := new byte[4];
    PutLong(c.big, crc, temp, 0);
    assert temp[..CheckLength(k)] == CheckBytes(c.big, k, b[..end]);
    f := f.(checksumCorrect := temp[..CheckLength(k)] == b[end..]);
  }
}
