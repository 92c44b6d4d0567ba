/** The checksum options at work on frames: what the receiver notices. */
module FrameDamage {
  import opened ByteOrder
  import Bits = CrcBits
  import Crc
  import CrcErrors
  import Sr = SrPackets
  import Red = RedundancyPackets

  /* ----- the CRC as a number ----- */

  function NumberOf(s: Bits.Bits): nat {
    if s == [] then 0 else 2 * NumberOf(s[..|s| - 1]) + if s[|s| - 1] then 1 else 0
  }

  function Power(n: nat): nat {
    if n == 0 then 1 else 2 * Power(n - 1)
  }

  lemma {:induction false} NumberBound(s: Bits.Bits)
    ensures NumberOf(s) < Power(|s|)
  {
    if s != [] {
      NumberBound(s[..|s| - 1]);
    }
  }

  lemma {:induction false} NumberDetermines(a: Bits.Bits, b: Bits.Bits)
    requires |a| == |b| && NumberOf(a) == NumberOf(b)
    ensures a == b
    decreases |a|
  {
    if a != [] {
      var n := |a| - 1;
      NumberDetermines(a[..n], b[..n]);
      assert a == a[..n] + [a[n]] && b == b[..n] + [b[n]];
    }
  }

  /** A byte as a bit vector. */
  function Vector(b: byte): bv8 {
    if b == 0 then 0 else Vector(b - 1) + 1
  }

  lemma {:induction false} VectorValue(b: byte)
    ensures Vector(b) as int == b
  {
    if b > 0 {
      VectorValue(b - 1);
    }
  }

  function Vectors(s: seq<byte>): (t: seq<bv8>)
    ensures |t| == |s|
  {
    seq(|s|, i requires 0 <= i < |s| => Vector(s[i]))
  }

  /** The check of a frame with one of the options B to E. */
  function CheckOf(kind: Crc.Kind): Red.Check
    requires Crc.Proper(kind)
  {
    Red.Check(kind.width, s => NumberOf(Crc.Checksum(kind, Vectors(s))))
  }

  lemma Powers()
    ensures Power(16) == 0x1_0000 && Power(32) == 0x1_0000_0000
  {
    assert Power(8) == 0x100;
    assert Power(16) == 0x1_0000;
    assert Power(24) == 0x100_0000;
  }

  lemma {:induction false} CheckIsProper(kind: Crc.Kind)
    requires Crc.Proper(kind)
    ensures Red.Proper(CheckOf(kind))
    ensures forall s :: kind.width == 16 ==> CheckOf(kind).crc(s) < 0x1_0000
  {
    Powers();
    forall s: seq<byte> ensures CheckOf(kind).crc(s) < Power(kind.width) {
      NumberBound(Crc.Checksum(kind, Vectors(s)));
    }
  }

  /* ----- damage ----- */

  lemma VectorsConcat(a: seq<byte>, b: seq<byte>)
    ensures Vectors(a + b) == Vectors(a) + Vectors(b)
  {
  }

  lemma VectorsDetermine(a: seq<byte>, b: seq<byte>)
    requires |a| == |b| && Vectors(a) == Vectors(b)
    ensures a == b
  {
    forall i | 0 <= i < |a| ensures a[i] == b[i] {
      assert Vectors(a)[i] == Vectors(b)[i];
      VectorValue(a[i]);
      VectorValue(b[i]);
    }
  }

  /** The CRCs of two byte strings that differ in width/8 consecutive bytes. */
  lemma {:induction false} CrcDiffers(kind: Crc.Kind, before: seq<byte>, d1: seq<byte>, d2: seq<byte>, after: seq<byte>)
    requires Crc.Offered(kind) && |d1| == |d2| && 8 * |d1| <= kind.width && d1 != d2
    ensures Crc.Proper(kind)
    ensures CheckOf(kind).crc(before + d1 + after) != CheckOf(kind).crc(before + d2 + after)
  {
    CrcErrors.OfferedIsProper(kind);
    hide Vectors, Crc.Checksum, NumberOf;
    VectorsConcat(before + d1, after);
    VectorsConcat(before + d2, after);
    VectorsConcat(before, d1);
    VectorsConcat(before, d2);
    if Vectors(d1) == Vectors(d2) {
      VectorsDetermine(d1, d2);
    }
    CrcErrors.DamagedBytesAreFound(kind, Vectors(before), Vectors(d1), Vectors(d2), Vectors(after));
    var x, y := Crc.Checksum(kind, Vectors(before + d1 + after)), Crc.Checksum(kind, Vectors(before + d2 + after));
    if NumberOf(x) == NumberOf(y) {
      NumberDetermines(x, y);
    }
  }

  /** The bytes sent tell all CRCs apart on hosts with the low byte first; with
      the high byte first only CRCs of 32 bits, of 16 bits none. */
  lemma {:induction false} CheckBytesTell(big: bool, kind: Crc.Kind, s: seq<byte>, t: seq<byte>)
    requires Crc.Proper(kind)
    ensures Red.Proper(CheckOf(kind))
    ensures !(big && kind.width == 16) ==>
              (Red.CheckBytes(big, CheckOf(kind), s) == Red.CheckBytes(big, CheckOf(kind), t)
               <==> CheckOf(kind).crc(s) == CheckOf(kind).crc(t))
    ensures big && kind.width == 16 ==> Red.CheckBytes(big, CheckOf(kind), s) == [0, 0]
  {
    CheckIsProper(kind);
    var k := CheckOf(kind);
    var x, y := k.crc(s), k.crc(t);
    hide CheckOf, LongByte, LongOf, ShortByte, ShortOf;
    if big && kind.width == 16 {
      HighBytesZero(x);
    } else if Red.CheckBytes(big, k, s) == Red.CheckBytes(big, k, t) {
      forall i | 0 <= i < Red.CheckLength(k) ensures LongByte(big, x, i) == LongByte(big, y, i) {
        assert Red.CheckBytes(big, k, s)[i] == Red.CheckBytes(big, k, t)[i];
      }
      if kind.width == 32 {
        LongBack(big, x);
        LongBack(big, y);
      } else {
        LowBytesTell(x, y);
      }
    }
  }

  lemma HighBytesZero(v: nat)
    requires v < 0x1_0000
    ensures LongByte(true, v, 0) == 0 && LongByte(true, v, 1) == 0
  {
  }

  lemma LowBytesTell(v: nat, w: nat)
    requires v < 0x1_0000 && w < 0x1_0000
    requires LongByte(false, v, 0) == LongByte(false, w, 0) && LongByte(false, v, 1) == LongByte(false, w, 1)
    ensures v == w
  {
  }

  /** The check bytes of a covered part and of a damaged one. */
  lemma {:induction false} CheckBytesDiffer(big: bool, kind: Crc.Kind, before: seq<byte>, d1: seq<byte>, d2: seq<byte>,
      after: seq<byte>)
    requires Crc.Offered(kind) && Crc.Proper(kind) && Red.Proper(CheckOf(kind))
    requires |d1| == |d2| && 8 * |d1| <= kind.width && d1 != d2
    ensures Red.CheckBytes(big, CheckOf(kind), before + d1 + after)
            != Red.CheckBytes(big, CheckOf(kind), before + d2 + after)
       <==> !(big && kind.width == 16)
  {
    hide CheckOf, Red.CheckBytes;
    CrcDiffers(kind, before, d1, d2, after);
    CheckBytesTell(big, kind, before + d1 + after, before + d2 + after);
    CheckBytesTell(big, kind, before + d2 + after, before + d1 + after);
  }

  lemma CheckOfConcat(a: seq<byte>, check: seq<byte>, c: Sr.Context, k: Red.Check)
    requires Sr.Proper(c) && Red.Proper(k) && Red.LengthFits(a + check, c, k) && |check| == Red.CheckLength(k)
    ensures Red.Decode(a + check, c, k).checksumCorrect == (Red.CheckBytes(c.big, k, a) == check)
  {
    CheckRead(a + check, c, k);
    assert (a + check)[..|a|] == a && (a + check)[|a|..] == check;
    hide Red.CheckBytes, Red.Decode;
  }

  /** A frame as sent is changed in width/8 consecutive bytes before its CRC.
      The receiver finds the CRC wrong, except on a host with the high byte
      first and a CRC of 16 bits, where the check bytes are always zero and it
      never does. */
  lemma {:induction false} DamageIsFoundIff(
    kind: Crc.Kind, c: Sr.Context, before: seq<byte>, d1: seq<byte>, d2: seq<byte>, after: seq<byte>, check: seq<byte>)
    requires Crc.Offered(kind) && Crc.Proper(kind) && Sr.Proper(c) && Red.Proper(CheckOf(kind))
    requires |d1| == |d2| && 8 * |d1| <= kind.width && d1 != d2 && |check| == Red.CheckLength(CheckOf(kind))
    requires Red.LengthFits(before + d1 + after + check, c, CheckOf(kind))
    requires Red.LengthFits(before + d2 + after + check, c, CheckOf(kind))
    requires Red.Decode(before + d1 + after + check, c, CheckOf(kind)).checksumCorrect
    ensures !Red.Decode(before + d2 + after + check, c, CheckOf(kind)).checksumCorrect <==> !(c.big && kind.width == 16)
  {
    hide CheckOf, Red.CheckBytes, Red.LengthFits, Red.Decode, Red.CheckLength;
    CheckOfConcat(before + d1 + after, check, c, CheckOf(kind));
    CheckOfConcat(before + d2 + after, check, c, CheckOf(kind));
    CheckBytesDiffer(c.big, kind, before, d1, d2, after);
  }

  lemma CheckRead(b: seq<byte>, c: Sr.Context, k: Red.Check)
    requires Sr.Proper(c) && Red.Proper(k) && Red.LengthFits(b, c, k)
    ensures var end := |b| - Red.CheckLength(k);
            Red.Decode(b, c, k).checksumCorrect == (Red.CheckBytes(c.big, k, b[..end]) == b[end..])
  {
  }
}
