/** What tells the offered options apart: start value, reflection, final xor. */
module CrcOptions {
  import opened CrcBits
  import opened CrcWords
  import opened CrcMirror
  import opened Crc
  import opened CrcErrors

  /* ----- eight steps on known words ----- */

  function Turn16(p: Word, r: Word): Word {
    if r & 0x8000 != 0 then ((r << 1) & 0xFFFF) ^ p else (r << 1) & 0xFFFF
  }

  function Turn32(p: Word, r: Word): Word {
    if r & 0x8000_0000 != 0 then ((r << 1) & 0xFFFF_FFFF) ^ p else (r << 1) & 0xFFFF_FFFF
  }

  function Turns16(p: Word, r: Word): Word {
    Turn16(p, Turn16(p, Turn16(p, Turn16(p, Turn16(p, Turn16(p, Turn16(p, Turn16(p, r))))))))
  }

  function Turns32(p: Word, r: Word): Word {
    Turn32(p, Turn32(p, Turn32(p, Turn32(p, Turn32(p, Turn32(p, Turn32(p, Turn32(p, r))))))))
  }

  lemma Shifted16(p: Word, r: Word)
    ensures Plus(Meet(Twice(r), 0xFFFF), p) == ((r << 1) & 0xFFFF) ^ p
    ensures Plus(Meet(Twice(r), 0xFFFF), 0) == (r << 1) & 0xFFFF
  {
    PlusLaws((r << 1) & 0xFFFF, 0, 0, 0);
  }

  lemma TurnIs16(p: Word, r: Word)
    ensures XTimes(16, p, r) == Turn16(p, r)
  {
    hide Plus, Meet, Twice;
    Shifted16(p, r);
  }

  lemma TurnsAre16(p: Word, r: Word)
    ensures XPower(16, p, r, 8) == Turns16(p, r)
  {
    hide Turn16, XTimes;
    forall x: Word ensures XTimes(16, p, x) == Turn16(p, x) {
      TurnIs16(p, x);
    }
    var half := Turn16(p, Turn16(p, Turn16(p, Turn16(p, r))));
    assert XPower(16, p, r, 8) == XPower(16, p, half, 4);
  }

  lemma Shifted32(p: Word, r: Word)
    ensures Plus(Meet(Twice(r), 0xFFFF_FFFF), p) == ((r << 1) & 0xFFFF_FFFF) ^ p
    ensures Plus(Meet(Twice(r), 0xFFFF_FFFF), 0) == (r << 1) & 0xFFFF_FFFF
  {
    PlusLaws((r << 1) & 0xFFFF_FFFF, 0, 0, 0);
  }

  lemma TurnIs32(p: Word, r: Word)
    ensures XTimes(32, p, r) == Turn32(p, r)
  {
    hide Plus, Meet, Twice;
    Shifted32(p, r);
  }

  lemma TurnsAre32(p: Word, r: Word)
    ensures XPower(32, p, r, 8) == Turns32(p, r)
  {
    hide Turn32, XTimes;
    forall x: Word ensures XTimes(32, p, x) == Turn32(p, x) {
      TurnIs32(p, x);
    }
    var half := Turn32(p, Turn32(p, Turn32(p, Turn32(p, r))));
    assert XPower(32, p, r, 8) == XPower(32, p, half, 4);
  }

  function Turns(w: nat, p: Word, r: Word): Word
    requires Width(w)
  {
    if w == 16 then Turns16(p, r) else Turns32(p, r)
  }

  lemma {:induction false} EnterByteIsTurns(w: nat, p: Word, r: Word, c: Word)
    requires Width(w) && Small(c)
    ensures EnterByte(w, p, r, c, 8) == Turns(w, p, Plus(r, Align(w, c)))
  {
    assert Align(w, 0) == 0;
    hide XPower, EnterByte, NextTimes, Turns16, Turns32, Align, Plus;
    EnterByteIsPower(w, p, r, c, 8);
    NextEight(c);
    PlusLaws(EnterByte(w, p, r, c, 8), 0, 0, 0);
    var x := Plus(r, Align(w, c));
    if w == 16 {
      TurnsAre16(p, x);
    } else {
      TurnsAre32(p, x);
    }
  }

  /* ----- a leading zero byte ----- */

  lemma ZeroEnters(refin: bool)
    ensures MessageBits(refin, [0]) == EntryOrder(refin, 0) == Zeros(8)
  {
    assert Wide(0) == 0;
    BitsZero(8);
    hide BitsOf, Wide;
    var m: seq<bv8> := [0];
    assert m[..|m| - 1] == [];
    assert Reverse(Zeros(8)) == Zeros(8);
  }

  /** From different registers the same message leaves different remainders. */
  lemma {:induction false} SameMessageTells(g: Bits, r: Bits, r2: Bits, m: Bits)
    requires |r| == |r2| == |g| > 0 && g[|g| - 1]
    ensures Divide(g, r, m) == Divide(g, r2, m) <==> r == r2
  {
    DivideXor(g, r, m, r2, m);
    assert Xor(m, m) == Zeros(|m|);
    XorZero(Divide(g, r, m), Divide(g, r2, m));
    XorZero(r, r2);
    if Divide(g, r, m) == Divide(g, r2, m) {
      ZerosKeepNonzero(g, Xor(r, r2), |m|);
    }
  }

  lemma OnesTurned()
    ensures Turns32(0x1EDC_6F41, 0xFFFF_FFFF) == 0x7535_41B5
    ensures Plus(0xFFFF_FFFF, Align(32, 0)) == 0xFFFF_FFFF && InByte(false, 0) == 0
  {
  }

  /** All ones in a register of 32 bits are moved by a zero byte. */
  lemma OnesMove()
    ensures Divide(BitsOf(0x1EDC_6F41, 32), BitsOf(0xFFFF_FFFF, 32), Zeros(8)) != BitsOf(0xFFFF_FFFF, 32)
  {
    OnesTurned();
    hide BitsOf, Divide, EnterByte, XPower, Reverse, Turns32, Plus, Align, InByte;
    ByteEnters(32, 0x1EDC_6F41, 0xFFFF_FFFF, false, 0);
    ZeroEnters(false);
    EnterByteIsTurns(32, 0x1EDC_6F41, 0xFFFF_FFFF, 0);
    if BitsOf(0x7535_41B5, 32) == BitsOf(0xFFFF_FFFF, 32) {
      BitsInjective(32, 0x7535_41B5, 0xFFFF_FFFF);
    }
  }

  /** Eight zero bits move the start value of option C only. */
  lemma StartMovesIff(k: Kind)
    requires Offered(k)
    ensures Proper(k)
    ensures Divide(Divisor(k), BitsOf(k.initial, k.width), Zeros(8)) == BitsOf(k.initial, k.width) <==> k != OPTION_C
  {
    hide BitsOf, Divide;
    if k == OPTION_C {
      OnesMove();
    } else {
      BitsZero(k.width);
      DivideZeros(Divisor(k), 8);
    }
  }

  /** A zero byte in front is noticed by option C alone, which starts at all ones. */
  lemma LeadingZeroIff(k: Kind, m: seq<bv8>)
    requires Offered(k)
    ensures Proper(k) && (Checksum(k, [0] + m) == Checksum(k, m) <==> k != OPTION_C)
  {
    hide Divide, Xor, Zeros, Reverse, BitsOf, MessageBits;
    DivisorEndsInOne(k);
    StartMovesIff(k);
    var g, r, bits := Divisor(k), BitsOf(k.initial, k.width), MessageBits(k.refin, m);
    BitsConcat(k.refin, [0], m);
    ZeroEnters(k.refin);
    DivideAppend(g, r, Zeros(8), bits);
    SameMessageTells(g, Divide(g, r, Zeros(8)), r, bits);
    SameFinish(k, Divide(g, Divide(g, r, Zeros(8)), bits), Divide(g, r, bits));
  }

  /** Reflection and final xor keep remainders apart. */
  lemma SameFinish(k: Kind, r1: Bits, r2: Bits)
    requires Proper(k) && |r1| == |r2| == k.width
    ensures var x := BitsOf(k.finalXor, k.width);
            Xor(if k.refout then Reverse(r1) else r1, x) == Xor(if k.refout then Reverse(r2) else r2, x) <==> r1 == r2
  {
    hide Xor, Reverse, BitsOf;
    ReverseCancel(r1, r2);
    XorCancel(if k.refout then Reverse(r1) else r1, if k.refout then Reverse(r2) else r2, BitsOf(k.finalXor, k.width));
  }

  /* ----- a message with its own checksum ----- */

  function Byte(x: Word): bv8 {
    (x & 0xFF) as bv8
  }

  /** The bytes of a checksum, high byte first. */
  function HighFirst(w: nat, r: Word): seq<bv8>
    requires Width(w)
  {
    if w == 16 then [Byte(B1(r))] + [Byte(B0(r))]
    else [Byte(B3(r))] + [Byte(B2(r))] + [Byte(B1(r))] + [Byte(B0(r))]
  }

  function LowFirst(w: nat, r: Word): seq<bv8>
    requires Width(w)
  {
    if w == 16 then [Byte(B0(r))] + [Byte(B1(r))]
    else [Byte(B0(r))] + [Byte(B1(r))] + [Byte(B2(r))] + [Byte(B3(r))]
  }

  lemma ByteWide(x: Word)
    requires x <= 0xFF
    ensures Wide(Byte(x)) == x
  {
  }

  lemma BytesSmall(r: Word)
    ensures B0(r) <= 0xFF && B1(r) <= 0xFF && B2(r) <= 0xFF && B3(r) <= 0xFF
  {
  }

  lemma ByteEntry(refin: bool, x: Word)
    requires x <= 0xFF
    ensures MessageBits(refin, [Byte(x)]) == if refin then Reverse(BitsOf(x, 8)) else BitsOf(x, 8)
  {
    hide Wide, Byte, BitsOf, Reverse;
    ByteWide(x);
    var m := [Byte(x)];
    assert m[..|m| - 1] == [];
  }

  lemma FourConcat(refin: bool, a: seq<bv8>, b: seq<bv8>, c: seq<bv8>, d: seq<bv8>)
    ensures MessageBits(refin, a + b + c + d)
         == MessageBits(refin, a) + MessageBits(refin, b) + MessageBits(refin, c) + MessageBits(refin, d)
  {
    hide MessageBits;
    BitsConcat(refin, a, b);
    BitsConcat(refin, a + b, c);
    BitsConcat(refin, a + b + c, d);
  }

  lemma HighFirstBits(w: nat, r: Word)
    requires Width(w)
    ensures MessageBits(false, HighFirst(w, r)) == BitsOf(r, w)
  {
    hide MessageBits, BitsOf, Byte, B0, B1, B2, B3;
    BytesSmall(r);
    ByteEntry(false, B0(r));
    ByteEntry(false, B1(r));
    if w == 16 {
      BitsConcat(false, [Byte(B1(r))], [Byte(B0(r))]);
      SplitBits16(r);
    } else {
      ByteEntry(false, B2(r));
      ByteEntry(false, B3(r));
      FourConcat(false, [Byte(B3(r))], [Byte(B2(r))], [Byte(B1(r))], [Byte(B0(r))]);
      SplitBits32(r);
    }
  }

  lemma LowFirstBits(w: nat, r: Word)
    requires Width(w)
    ensures MessageBits(true, LowFirst(w, r)) == Reverse(BitsOf(r, w))
  {
    hide MessageBits, BitsOf, Byte, B0, B1, B2, B3, Reverse;
    BytesSmall(r);
    ByteEntry(true, B0(r));
    ByteEntry(true, B1(r));
    if w == 16 {
      BitsConcat(true, [Byte(B0(r))], [Byte(B1(r))]);
      SplitBits16(r);
      ReverseConcat(BitsOf(B1(r), 8), BitsOf(B0(r), 8));
    } else {
      ByteEntry(true, B2(r));
      ByteEntry(true, B3(r));
      FourConcat(true, [Byte(B0(r))], [Byte(B1(r))], [Byte(B2(r))], [Byte(B3(r))]);
      SplitBits32(r);
      ReverseFour(BitsOf(B3(r), 8), BitsOf(B2(r), 8), BitsOf(B1(r), 8), BitsOf(B0(r), 8));
    }
  }

  /** The checksum of a message as its trailer: low byte first if reflected. */
  function Trailer(k: Kind, msg: seq<bv8>): seq<bv8>
    requires Proper(k)
  {
    if k.refout then LowFirst(k.width, Result(k, msg)) else HighFirst(k.width, Result(k, msg))
  }

  lemma TrailerBits(k: Kind, msg: seq<bv8>)
    requires Offered(k)
    ensures Proper(k)
    ensures MessageBits(k.refin, Trailer(k, msg)) == Xor(Remainder(k, msg), BitsOf(k.finalXor, k.width))
  {
    hide MessageBits, BitsOf, Reverse, Result, Remainder, LowFirst, HighFirst, Xor;
    var c := Result(k, msg);
    ResultBits(k, msg);
    if k.refout {
      LowFirstBits(k.width, c);
      ReverseXored(k, Remainder(k, msg));
    } else {
      HighFirstBits(k.width, c);
    }
  }

  lemma ReverseXored(k: Kind, r: Bits)
    requires Offered(k) && |r| == k.width && k.refout
    ensures Reverse(Xor(Reverse(r), BitsOf(k.finalXor, k.width))) == Xor(r, BitsOf(k.finalXor, k.width))
  {
    FinalIsPalindrome(k);
    hide BitsOf;
    var x := BitsOf(k.finalXor, k.width);
    assert forall i :: 0 <= i < k.width ==> Reverse(x)[i] == x[i];
  }

  /** The final xor is all zeros or all ones. */
  lemma FinalIsPalindrome(k: Kind)
    requires Offered(k)
    ensures var x := BitsOf(k.finalXor, k.width);
            Reverse(x) == x && (k != OPTION_C ==> x == Zeros(k.width))
  {
    hide BitsOf;
    if k == OPTION_C {
      forall i: nat ensures Bit(0xFFFF_FFFF, i) == (i < 32) {
        OnesBits(0xFFFF_FFFF, 32, i);
      }
      OnesPalindrome();
    } else {
      BitsZero(k.width);
    }
  }

  lemma OnesPalindrome()
    requires forall i: nat :: Bit(0xFFFF_FFFF, i) == (i < 32)
    ensures Reverse(BitsOf(0xFFFF_FFFF, 32)) == BitsOf(0xFFFF_FFFF, 32)
  {
    hide Bit;
  }

  lemma XorZeros(a: Bits)
    ensures Xor(a, Zeros(|a|)) == a && Xor(Zeros(|a|), a) == a
  {
  }

  /** The remainder that the trailer leaves does not depend on the message. */
  lemma {:induction false} TrailerLeaves(g: Bits, r: Bits, x: Bits)
    requires |r| == |x| == |g| > 0
    ensures Divide(g, r, Xor(r, x)) == Divide(g, Zeros(|g|), x)
  {
    OwnBitsCancel(g, r, |g|);
    assert r[..|g|] == r && r[|g|..] + Zeros(|g|) == Zeros(|g|);
    XorZeros(r);
    DivideXor(g, r, r, Zeros(|g|), x);
    XorZeros(Divide(g, Zeros(|g|), x));
  }

  lemma MessageWithTrailer(k: Kind, msg: seq<bv8>)
    requires Offered(k)
    ensures Proper(k)
    ensures Remainder(k, msg + Trailer(k, msg)) == Divide(Divisor(k), Zeros(k.width), BitsOf(k.finalXor, k.width))
  {
    OfferedIsProper(k);
    hide MessageBits, BitsOf, Trailer, Divide, Xor;
    var g, r := Divisor(k), BitsOf(k.initial, k.width);
    var bits := MessageBits(k.refin, msg);
    BitsConcat(k.refin, msg, Trailer(k, msg));
    TrailerBits(k, msg);
    DivideAppend(g, r, bits, MessageBits(k.refin, Trailer(k, msg)));
    TrailerLeaves(g, Divide(g, r, bits), BitsOf(k.finalXor, k.width));
  }

  /** What four bytes of ones leave in option C. */
  lemma OnesLeave()
    ensures Divide(BitsOf(0x1EDC_6F41, 32), Zeros(32), BitsOf(0xFFFF_FFFF, 32)) == BitsOf(0x1C2D_19ED, 32)
  {
    var k := Kind(32, 0x1EDC_6F41, 0, false, false, 0);
    hide BitsOf, Register, MessageBits, Divide, HighFirst, Zeros, Remainder, EntryOrder;
    assert Remainder(k, OnesBytes())
        == Divide(BitsOf(k.polynom, 32), BitsOf(0, 32), MessageBits(false, OnesBytes())) by {
      RemainderOf(k, OnesBytes());
    }
    OnesRegister(k);
    OnesAreBytes();
    HighFirstBits(32, 0xFFFF_FFFF);
    BitsZero(32);
    RegisterIsRemainder(k, OnesBytes());
  }

  function OnesBytes(): seq<bv8> {
    [0xFF] + [0xFF] + [0xFF] + [0xFF]
  }

  lemma OnesAreBytes()
    ensures HighFirst(32, 0xFFFF_FFFF) == OnesBytes()
  {
  }

  lemma RemainderOf(k: Kind, msg: seq<bv8>)
    requires Proper(k)
    ensures Remainder(k, msg)
         == Divide(BitsOf(k.polynom, k.width), BitsOf(k.initial, k.width), MessageBits(k.refin, msg))
  {
  }

  lemma OnesTurn()
    ensures Turns32(0x1EDC_6F41, 0xFF00_0000) == 0x8ACA_BEB5 && Turns32(0x1EDC_6F41, 0x75CA_BEB5) == 0x4BEE_7970
    ensures Turns32(0x1EDC_6F41, 0xB4EE_7970) == 0x5E3A_D9F9 && Turns32(0x1EDC_6F41, 0xA13A_D9F9) == 0x1C2D_19ED
  {
  }

  lemma OneMore(k: Kind, m: seq<bv8>, r: Word)
    requires k == Kind(32, 0x1EDC_6F41, 0, false, false, 0) && Register(k, m) == r
    ensures Register(k, m + [0xFF]) == Turns32(0x1EDC_6F41, r ^ 0xFF00_0000)
  {
    var m2: seq<bv8> := m + [0xFF];
    assert m2[..|m2| - 1] == m;
    assert InByte(false, 0xFF) == 0xFF && Align(32, 0xFF) == 0xFF00_0000;
    hide EnterByte, Turns32;
    EnterByteIsTurns(32, 0x1EDC_6F41, r, 0xFF);
  }

  lemma OnesRegister(k: Kind)
    requires k == Kind(32, 0x1EDC_6F41, 0, false, false, 0)
    ensures Register(k, OnesBytes()) == 0x1C2D_19ED
  {
    OnesTurn();
    hide Turns32;
    RegisterStart(k);
    var none: seq<bv8> := [];
    assert none + [0xFF] == [0xFF];
    hide Register;
    OneMore(k, none, 0);
    OneMore(k, [0xFF], 0x8ACA_BEB5);
    OneMore(k, [0xFF] + [0xFF], 0x4BEE_7970);
    OneMore(k, [0xFF] + [0xFF] + [0xFF], 0x5E3A_D9F9);
  }

  /** A message followed by its own checksum has checksum 0 with options B, D
      and E, and one fixed other value with option C; that of nothing is 0. */
  lemma OwnChecksum(k: Kind, msg: seq<bv8>)
    requires Offered(k)
    ensures Proper(k)
    ensures Checksum(k, msg + Trailer(k, msg)) == if k == OPTION_C then BitsOf(0x4867_4BC7, 32) else Zeros(k.width)
    ensures Checksum(k, []) == Zeros(k.width)
  {
    OfferedIsProper(k);
    hide Remainder, BitsOf, Trailer, Divide, Reverse, Xor, Zeros;
    MessageWithTrailer(k, msg);
    FinalIsPalindrome(k);
    var x := BitsOf(k.finalXor, k.width);
    EmptyIsStart(k);
    XorSelf(x);
    if k == OPTION_C {
      OnesLeave();
      FixedValue();
    } else {
      DivideZeros(Divisor(k), k.width);
      BitsZero(k.width);
      ZerosReverse(k.width);
      XorZeros(Zeros(k.width));
    }
  }

  lemma EmptyIsStart(k: Kind)
    requires Proper(k)
    ensures Remainder(k, []) == BitsOf(k.initial, k.width)
  {
  }

  lemma XorSelf(x: Bits)
    ensures Xor(x, x) == Zeros(|x|)
  {
  }

  lemma ZerosReverse(n: nat)
    ensures Reverse(Zeros(n)) == Zeros(n)
  {
  }

  lemma FixedValue()
    ensures Xor(Reverse(BitsOf(0x1C2D_19ED, 32)), BitsOf(0xFFFF_FFFF, 32)) == BitsOf(0x4867_4BC7, 32)
  {
    assert Rev8(0x1C) == 0x38 && Rev8(0x2D) == 0xB4 && Rev8(0x19) == 0x98 && Rev8(0xED) == 0xB7;
    hide Rev8, BitsOf;
    assert Rev32(0x1C2D_19ED) == 0xB798_B438;
    assert Plus(0xB798_B438, 0xFFFF_FFFF) == 0x4867_4BC7;
    hide Rev32, Plus, Reverse, Xor;
    Rev32Bits(0x1C2D_19ED);
    BitsPlus(0xB798_B438, 0xFFFF_FFFF, 32);
  }

  /* ----- the digits 1 to 9 ----- */

  const DIGITS: seq<bv8> := [0x31, 0x32, 0x33, 0x34, 0x35, 0x36, 0x37, 0x38, 0x39]
  const PLAIN: seq<Word> := [0x31, 0x32, 0x33, 0x34, 0x35, 0x36, 0x37, 0x38, 0x39]
  const MIRRORED: seq<Word> := [0x8C, 0x4C, 0xCC, 0x2C, 0xAC, 0x6C, 0xEC, 0x1C, 0x9C]

  lemma DigitsEnter(i: nat)
    requires i < 9
    ensures InByte(false, DIGITS[i]) == PLAIN[i] && InByte(true, DIGITS[i]) == MIRRORED[i]
    ensures PLAIN[i] <= 0xFF && MIRRORED[i] <= 0xFF
  {
  }

  /** Digit i takes the register from r to r2; x is the register with it added. */
  lemma DigitTakes(k: Kind, i: nat, r: Word, x: Word, r2: Word)
    requires Proper(k) && i < 9 && Register(k, DIGITS[..i]) == r
    requires x == Plus(r, Align(k.width, if k.refin then MIRRORED[i] else PLAIN[i]))
    requires Turns(k.width, k.polynom, x) == r2
    ensures Register(k, DIGITS[..i + 1]) == r2
  {
    hide EnterByte, Turns, Plus, Align, InByte, Register;
    RegisterStep(k, DIGITS, i);
    DigitsEnter(i);
    EnterByteIsTurns(k.width, k.polynom, r, if k.refin then MIRRORED[i] else PLAIN[i]);
  }

  lemma DigitsStart(k: Kind)
    requires Proper(k)
    ensures Register(k, DIGITS[..0]) == k.initial && DIGITS[..9] == DIGITS
  {
  }

  lemma DigitsB()
    ensures Register(OPTION_B, DIGITS) == 0x0E7C_650A
  {
    hide Register;
    DigitsStart(OPTION_B);
    DigitTakes(OPTION_B, 0, 0x0000_0000, 0x3100_0000, 0x6504_CDB2);
    DigitTakes(OPTION_B, 1, 0x6504_CDB2, 0x5704_CDB2, 0xCE1B_6AD8);
    DigitTakes(OPTION_B, 2, 0xCE1B_6AD8, 0xFD1B_6AD8, 0xCF91_7D9B);
    DigitTakes(OPTION_B, 3, 0xCF91_7D9B, 0xFB91_7D9B, 0x12B0_7792);
    DigitTakes(OPTION_B, 4, 0x12B0_7792, 0x27B0_7792, 0xFB70_6C7E);
    DigitTakes(OPTION_B, 5, 0xFB70_6C7E, 0xCD70_6C7E, 0x2FC8_54D4);
    DigitTakes(OPTION_B, 6, 0x2FC8_54D4, 0x18C8_54D4, 0x7AD6_B2D9);
    DigitTakes(OPTION_B, 7, 0x7AD6_B2D9, 0x42D6_B2D9, 0xEED1_B7EE);
    DigitTakes(OPTION_B, 8, 0xEED1_B7EE, 0xD7D1_B7EE, 0x0E7C_650A);
  }

  lemma DigitsC()
    ensures Register(OPTION_C, DIGITS) == 0x3EB6_9F38
  {
    hide Register;
    DigitsStart(OPTION_C);
    DigitTakes(OPTION_C, 0, 0xFFFF_FFFF, 0x73FF_FFFF, 0x3866_50F6);
    DigitTakes(OPTION_C, 1, 0x3866_50F6, 0x7466_50F6, 0xF9DC_5531);
    DigitTakes(OPTION_C, 2, 0xF9DC_5531, 0x35DC_5531, 0xB20B_21F7);
    DigitTakes(OPTION_C, 3, 0xB20B_21F7, 0x9E0B_21F7, 0x88D0_A390);
    DigitTakes(OPTION_C, 4, 0x88D0_A390, 0x24D0_A390, 0x533B_74E7);
    DigitTakes(OPTION_C, 5, 0x533B_74E7, 0x3F3B_74E7, 0x9E71_537D);
    DigitTakes(OPTION_C, 6, 0x9E71_537D, 0x7271_537D, 0xA816_BDB7);
    DigitTakes(OPTION_C, 7, 0xA816_BDB7, 0xB416_BDB7, 0xA6FE_1EF9);
    DigitTakes(OPTION_C, 8, 0xA6FE_1EF9, 0x3AFE_1EF9, 0x3EB6_9F38);
  }

  lemma DigitsD()
    ensures Register(OPTION_D, DIGITS) == 0x9184
  {
    hide Register;
    DigitsStart(OPTION_D);
    DigitTakes(OPTION_D, 0, 0x0000, 0x8C00, 0x5004);
    DigitTakes(OPTION_D, 1, 0x5004, 0x1C04, 0xD7BD);
    DigitTakes(OPTION_D, 2, 0xD7BD, 0x1BBD, 0x1E5A);
    DigitTakes(OPTION_D, 3, 0x1E5A, 0x325A, 0x4C11);
    DigitTakes(OPTION_D, 4, 0x4C11, 0xE011, 0xEC2E);
    DigitTakes(OPTION_D, 5, 0xEC2E, 0x802E, 0xBF88);
    DigitTakes(OPTION_D, 6, 0xBF88, 0x5388, 0xE296);
    DigitTakes(OPTION_D, 7, 0xE296, 0xFE96, 0x98D1);
    DigitTakes(OPTION_D, 8, 0x98D1, 0x04D1, 0x9184);
  }

  lemma DigitsE()
    ensures Register(OPTION_E, DIGITS) == 0xBCDD
  {
    hide Register;
    DigitsStart(OPTION_E);
    DigitTakes(OPTION_E, 0, 0x0000, 0x8C00, 0x832B);
    DigitTakes(OPTION_E, 1, 0x832B, 0xCF2B, 0x29A2);
    DigitTakes(OPTION_E, 2, 0x29A2, 0xE5A2, 0x205D);
    DigitTakes(OPTION_E, 3, 0x205D, 0x0C5D, 0x5D28);
    DigitTakes(OPTION_E, 4, 0x5D28, 0xF128, 0xAA25);
    DigitTakes(OPTION_E, 5, 0xAA25, 0xC625, 0x2794);
    DigitTakes(OPTION_E, 6, 0x2794, 0xCB94, 0x16B9);
    DigitTakes(OPTION_E, 7, 0x16B9, 0x0AB9, 0xB93C);
    DigitTakes(OPTION_E, 8, 0xB93C, 0x253C, 0xBCDD);
  }

  lemma MirroredResults()
    ensures Rev32(0x3EB6_9F38) == 0x1CF9_6D7C && Rev16(0x9184) == 0x2189 && Rev16(0xBCDD) == 0xBB3D
  {
    assert Rev8(0x3E) == 0x7C && Rev8(0xB6) == 0x6D && Rev8(0x9F) == 0xF9 && Rev8(0x38) == 0x1C;
    assert Rev8(0x91) == 0x89 && Rev8(0x84) == 0x21 && Rev8(0xBC) == 0x3D && Rev8(0xDD) == 0xBB;
    hide Rev8;
  }

  /** The check values published for the four parameter sets. */
  lemma CheckValues()
    ensures Checksum(OPTION_B, DIGITS) == BitsOf(0x0E7C_650A, 32)
    ensures Checksum(OPTION_C, DIGITS) == BitsOf(0xE306_9283, 32)
    ensures Checksum(OPTION_D, DIGITS) == BitsOf(0x2189, 16)
    ensures Checksum(OPTION_E, DIGITS) == BitsOf(0xBB3D, 16)
  {
    hide Register, BitsOf, Checksum, Rev16, Rev32;
    DigitsB();
    DigitsC();
    DigitsD();
    DigitsE();
    MirroredResults();
    ResultBits(OPTION_B, DIGITS);
    ResultBits(OPTION_C, DIGITS);
    ResultBits(OPTION_D, DIGITS);
    ResultBits(OPTION_E, DIGITS);
  }
}
