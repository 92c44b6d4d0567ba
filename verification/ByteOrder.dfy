/** Numbers as bytes, in the order of the host: low byte first unless big. */
module ByteOrder {

  type byte = b: int | 0 <= b < 256

  function Zeros(n: nat): (z: seq<byte>)
    ensures |z| == n
  {
    seq(n, _ => 0)
  }

  /** The pieces of a message, put together. */
  function Joined(pieces: seq<seq<byte>>): seq<byte> {
    if pieces == [] then [] else Joined(pieces[..|pieces| - 1]) + pieces[|pieces| - 1]
  }

  function ShortByte(big: bool, v: nat, i: nat): byte
    requires i < 2
  {
    if (i == 0) == big then (v / 0x100) % 0x100 else v % 0x100
  }

  function ShortOf(big: bool, b0: byte, b1: byte): (v: nat)
    ensures v < 0x1_0000
  {
    if big then b0 * 0x100 + b1 else b1 * 0x100 + b0
  }

  /** Byte k of v, counted from the lowest. */
  function Digit(v: nat, k: nat): byte
    requires k < 4
  {
    if k == 0 then v % 0x100
    else if k == 1 then (v / 0x100) % 0x100
    else if k == 2 then (v / 0x1_0000) % 0x100
    else (v / 0x100_0000) % 0x100
  }

  function LongByte(big: bool, v: nat, i: nat): byte
    requires i < 4
  {
    Digit(v, if big then 3 - i else i)
  }

  function LongOf(big: bool, b0: byte, b1: byte, b2: byte, b3: byte): (v: nat)
    ensures v < 0x1_0000_0000
  {
    if big then b0 * 0x100_0000 + b1 * 0x1_0000 + b2 * 0x100 + b3
    else b3 * 0x100_0000 + b2 * 0x1_0000 + b1 * 0x100 + b0
  }

  lemma ShortBack(big: bool, v: nat)
    requires v < 0x1_0000
    ensures ShortOf(big, ShortByte(big, v, 0), ShortByte(big, v, 1)) == v
  {
  }

  lemma ShortForth(big: bool, b0: byte, b1: byte)
    ensures ShortByte(big, ShortOf(big, b0, b1), 0) == b0 && ShortByte(big, ShortOf(big, b0, b1), 1) == b1
  {
  }

  lemma {:induction false} LongBack(big: bool, v: nat)
    requires v < 0x1_0000_0000
    ensures LongOf(big, LongByte(big, v, 0), LongByte(big, v, 1), LongByte(big, v, 2), LongByte(big, v, 3)) == v
  {
    SumOfDigits(v);
    hide Digit;
  }

  lemma SumOfDigits(v: nat)
    requires v < 0x1_0000_0000
    ensures v == Digit(v, 3) * 0x100_0000 + Digit(v, 2) * 0x1_0000 + Digit(v, 1) * 0x100 + Digit(v, 0)
  {
    var a := v / 0x100;
    var b := a / 0x100;
    assert v / 0x1_0000 == b;
    assert v / 0x100_0000 == b / 0x100;
    assert v == 0x100 * a + v % 0x100 && a == 0x100 * b + a % 0x100 && b == 0x100 * (b / 0x100) + b % 0x100;
  }

  lemma {:induction false} LongForth(big: bool, b0: byte, b1: byte, b2: byte, b3: byte)
    ensures var v := LongOf(big, b0, b1, b2, b3);
            && LongByte(big, v, 0) == b0 && LongByte(big, v, 1) == b1
            && LongByte(big, v, 2) == b2 && LongByte(big, v, 3) == b3
  {
    if big {
      Digits(b0, b1, b2, b3);
    } else {
      Digits(b3, b2, b1, b0);
    }
  }

  lemma Digits(d: byte, c: byte, b: byte, a: byte)
    ensures var v := d * 0x100_0000 + c * 0x1_0000 + b * 0x100 + a;
            Digit(v, 0) == a && Digit(v, 1) == b && Digit(v, 2) == c && Digit(v, 3) == d
  {
    var v := d * 0x100_0000 + c * 0x1_0000 + b * 0x100 + a;
    assert v / 0x100 == d * 0x1_0000 + c * 0x100 + b;
    assert v / 0x1_0000 == d * 0x100 + c;
    assert v / 0x100_0000 == d;
  }

  /** Where the host puts the low byte: first unless it is big. */
  lemma HostBytes(big: bool, v: nat)
    requires v < 0x1_0000
    ensures 0x100 * ShortByte(big, v, if big then 0 else 1) + ShortByte(big, v, if big then 1 else 0) == v
    ensures v < 0x100 ==> ShortByte(false, v, 0) == v == ShortByte(true, v, 1)
    ensures v < 0x100 ==> ShortByte(false, v, 1) == 0 == ShortByte(true, v, 0)
  {
  }

  /** The same of four bytes: byte k from the low end weighs 256 to the k. */
  lemma HostLong(v: nat)
    requires v < 0x1_0000_0000
    ensures v == LongByte(false, v, 0) + 0x100 * LongByte(false, v, 1) + 0x1_0000 * LongByte(false, v, 2)
              + 0x100_0000 * LongByte(false, v, 3)
    ensures v == LongByte(true, v, 3) + 0x100 * LongByte(true, v, 2) + 0x1_0000 * LongByte(true, v, 1)
              + 0x100_0000 * LongByte(true, v, 0)
  {
    SumOfDigits(v);
    hide Digit;
  }

  /** The number these bytes stand for on the host. */
  function Value(big: bool, s: seq<byte>): nat {
    if s == [] then 0
    else if big then 0x100 * Value(big, s[..|s| - 1]) + s[|s| - 1]
    else s[0] + 0x100 * Value(big, s[1..])
  }

  lemma ValueLow(x: byte, s: seq<byte>)
    ensures Value(false, [x] + s) == x + 0x100 * Value(false, s)
  {
    assert ([x] + s)[1..] == s;
  }

  lemma ValueHigh(s: seq<byte>, x: byte)
    ensures Value(true, s + [x]) == 0x100 * Value(true, s) + x
  {
    assert (s + [x])[..|s|] == s;
  }

  lemma ValueOfTwo(big: bool, a: byte, b: byte)
    ensures Value(big, [a, b]) == if big then 0x100 * a + b else a + 0x100 * b
  {
    if big {
      ValueHigh([], a);
      ValueHigh([a], b);
      assert [] + [a] == [a] && [a] + [b] == [a, b];
    } else {
      ValueLow(b, []);
      ValueLow(a, [b]);
      assert [b] + [] == [b] && [a] + [b] == [a, b];
    }
  }

  lemma ValueOfFour(big: bool, a: byte, b: byte, c: byte, d: byte)
    ensures Value(big, [a, b, c, d])
         == if big then 0x100_0000 * a + 0x1_0000 * b + 0x100 * c + d
            else a + 0x100 * b + 0x1_0000 * c + 0x100_0000 * d
  {
    if big {
      ValueOfTwo(big, a, b);
      ValueHigh([a, b], c);
      ValueHigh([a, b, c], d);
      assert [a, b] + [c] == [a, b, c] && [a, b, c] + [d] == [a, b, c, d];
    } else {
      ValueOfTwo(big, c, d);
      ValueLow(b, [c, d]);
      ValueLow(a, [b, c, d]);
      assert [b] + [c, d] == [b, c, d] && [a] + [b, c, d] == [a, b, c, d];
    }
    hide Value;
  }

  /** A number written at some place is the number read there. */
  lemma ShortAt(big: bool, v: nat, s: seq<byte>, at: nat)
    requires v < 0x1_0000 && at + 2 <= |s|
    requires s[at] == ShortByte(big, v, 0) && s[at + 1] == ShortByte(big, v, 1)
    ensures Value(big, s[at..at + 2]) == v
  {
    HostBytes(big, v);
    ValueOfTwo(big, s[at], s[at + 1]);
    assert s[at..at + 2] == [s[at], s[at + 1]];
    hide Value, ShortByte;
  }

  lemma LongAt(big: bool, v: nat, s: seq<byte>, at: nat)
    requires v < 0x1_0000_0000 && at + 4 <= |s|
    requires forall k :: 0 <= k < 4 ==> s[at + k] == LongByte(big, v, k)
    ensures Value(big, s[at..at + 4]) == v
  {
    HostLong(v);
    ValueOfFour(big, LongByte(big, v, 0), LongByte(big, v, 1), LongByte(big, v, 2), LongByte(big, v, 3));
    hide Value, LongByte;
    assert s[at..at + 4] == [s[at + 0], s[at + 1], s[at + 2], s[at + 3]];
  }

  /** The order is that of the host: hosts of different order read a number
      right only if it reads the same both ways. */
  lemma MixedHostsAgreeIff(v: nat)
    requires v < 0x1_0000
    ensures ShortOf(true, ShortByte(false, v, 0), ShortByte(false, v, 1)) == v <==> v / 0x100 == v % 0x100
  {
  }

  method PutShort(big: bool, v: nat, result: array<byte>, at: nat)
    requires at + 2 <= result.Length
    modifies result
    ensures result[at] == ShortByte(big, v, 0) && result[at + 1] == ShortByte(big, v, 1)
    ensures forall i :: 0 <= i < result.Length && !(at <= i < at + 2) ==> result[i] == old(result[i])
  {
    if !big {
      result[at + 1] := (v / 0x100) % 0x100;
      result[at] := v % 0x100;
    } else {
      result[at] := (v / 0x100) % 0x100;
      result[at + 1] := v % 0x100;
    }
  }

  method PutLong(big: bool, v: nat, result: array<byte>, at: nat)
    requires at + 4 <= result.Length
    modifies result
    ensures forall k :: 0 <= k < 4 ==> result[at + k] == LongByte(big, v, k)
    ensures forall i :: 0 <= i < result.Length && !(at <= i < at + 4) ==> result[i] == old(result[i])
  {
    if !big {
      result[at + 3] := (v / 0x100_0000) % 0x100;
      result[at + 2] := (v / 0x1_0000) % 0x100;
      result[at + 1] := (v / 0x100) % 0x100;
      result[at] := v % 0x100;
    } else {
      result[at] := (v / 0x100_0000) % 0x100;
      result[at + 1] := (v / 0x1_0000) % 0x100;
      result[at + 2] := (v / 0x100) % 0x100;
      result[at + 3] := v % 0x100;
    }
  }

  /** A copy loop: bytes of a sequence into part of a buffer. */
  method PutBytes(s: seq<byte>, result: array<byte>, at: nat)
    requires at + |s| <= result.Length
    modifies result
    ensures forall k :: 0 <= k < |s| ==> result[at + k] == s[k]
    ensures forall i :: 0 <= i < result.Length && !(at <= i < at + |s|) ==> result[i] == old(result[i])
  {
    for j := 0 to |s|
      invariant forall k :: 0 <= k < j ==> result[at + k] == s[k]
      invariant forall i :: 0 <= i < result.Length && !(at <= i < at + j) ==> result[i] == old(result[i])
    {
      result[at + j] := s[j];
    }
  }
}
