/** The CRC register as a machine word, for widths 16 and 32.

  A word stands for the list of its low bits. One step of the word is one step
  of the bit-serial division; eight steps are one table lookup.
*/
module CrcWords {
  import opened CrcBits

  type Word = bv64

  predicate Width(w: nat) {
    w == 16 || w == 32
  }

  /** crc_mask and crc_high_bit. */
  function Mask(w: nat): Word
    requires Width(w)
  {
    if w == 16 then 0xFFFF else 0xFFFF_FFFF
  }

  predicate Fits(w: nat, r: Word)
    requires Width(w)
  {
    r <= Mask(w)
  }

  predicate Small(c: Word) {
    c <= 0xFF
  }

  function HighBit(w: nat): Word
    requires Width(w)
  {
    if w == 16 then 0x8000 else 0x8000_0000
  }

  /** A byte moved to the top of the register, and the top byte of it. */
  function Align(w: nat, c: Word): Word
    requires Width(w)
  {
    if w == 16 then c << 8 else c << 24
  }

  function TopByte(w: nat, r: Word): Word
    requires Width(w)
  {
    if w == 16 then (r >> 8) & 0xFF else (r >> 24) & 0xFF
  }

  /* ----- words as lists of bits ----- */

  function Half(r: Word): Word {
    r >> 1
  }

  function Odd(r: Word): bool {
    r & 1 == 1
  }

  function Plus(a: Word, b: Word): Word {
    a ^ b
  }

  function Meet(a: Word, b: Word): Word {
    a & b
  }

  /** Half taken k times. */
  function Halves(r: Word, k: nat): Word {
    if k == 0 then r else Half(Halves(r, k - 1))
  }

  /** The bit of weight 2^k. */
  function Bit(r: Word, k: nat): bool {
    Odd(Halves(r, k))
  }

  /** The low n bits of r, highest first. */
  function BitsOf(r: Word, n: nat): (s: Bits)
    ensures |s| == n
  {
    seq(n, i requires 0 <= i < n => Bit(r, n - 1 - i))
  }

  lemma HalfPlus(a: Word, b: Word)
    ensures Half(Plus(a, b)) == Plus(Half(a), Half(b))
  {
  }

  lemma HalfMeet(a: Word, b: Word)
    ensures Half(Meet(a, b)) == Meet(Half(a), Half(b))
  {
  }

  lemma OddPlus(a: Word, b: Word)
    ensures Odd(Plus(a, b)) == (Odd(a) != Odd(b))
  {
  }

  lemma OddMeet(a: Word, b: Word)
    ensures Odd(Meet(a, b)) == (Odd(a) && Odd(b))
  {
  }

  lemma {:induction false} HalvesOf(a: Word, b: Word, k: nat)
    ensures Halves(Plus(a, b), k) == Plus(Halves(a, k), Halves(b, k))
    ensures Halves(Meet(a, b), k) == Meet(Halves(a, k), Halves(b, k))
  {
    hide Half, Plus, Meet;
    if k > 0 {
      HalvesOf(a, b, k - 1);
      HalfPlus(Halves(a, k - 1), Halves(b, k - 1));
      HalfMeet(Halves(a, k - 1), Halves(b, k - 1));
    }
  }

  lemma BitOf(a: Word, b: Word, k: nat)
    ensures Bit(Plus(a, b), k) == (Bit(a, k) != Bit(b, k))
    ensures Bit(Meet(a, b), k) == (Bit(a, k) && Bit(b, k))
  {
    hide Half, Odd, Plus, Meet, Halves;
    HalvesOf(a, b, k);
    OddPlus(Halves(a, k), Halves(b, k));
    OddMeet(Halves(a, k), Halves(b, k));
  }

  lemma BitsPlus(a: Word, b: Word, n: nat)
    ensures BitsOf(Plus(a, b), n) == Xor(BitsOf(a, n), BitsOf(b, n))
  {
    hide Plus, Bit;
    forall k: nat ensures Bit(Plus(a, b), k) == (Bit(a, k) != Bit(b, k)) {
      BitOf(a, b, k);
    }
  }

  lemma {:induction false} HalvesAdd(r: Word, j: nat, k: nat)
    ensures Halves(Halves(r, j), k) == Halves(r, j + k)
  {
    hide Half;
    if k > 0 {
      HalvesAdd(r, j, k - 1);
    }
  }

  lemma HalvesByte(r: Word)
    ensures Halves(r, 0) == r && Halves(r, 1) == r >> 1 && Halves(r, 2) == r >> 2 && Halves(r, 3) == r >> 3
    ensures Halves(r, 4) == r >> 4 && Halves(r, 5) == r >> 5 && Halves(r, 6) == r >> 6 && Halves(r, 7) == r >> 7
    ensures Halves(r, 8) == r >> 8
  {
    assert Halves(r, 1) == r >> 1;
    assert Halves(r, 2) == r >> 2;
    assert Halves(r, 3) == r >> 3;
    assert Halves(r, 4) == r >> 4;
    assert Halves(r, 5) == r >> 5;
    assert Halves(r, 6) == r >> 6;
    assert Halves(r, 7) == r >> 7;
  }

  lemma BitsTail(r: Word, n: nat)
    ensures BitsOf(r, n + 8) == BitsOf(r >> 8, n) + BitsOf(r, 8)
  {
    HalvesByte(r);
    var up := r >> 8;
    assert up == Halves(r, 8);
    hide Odd, Halves;
    forall k | 0 <= k < n ensures Bit(up, k) == Bit(r, 8 + k) {
      HalvesAdd(r, 8, k);
    }
  }

  lemma {:induction false} BitsZero(n: nat)
    ensures BitsOf(0, n) == Zeros(n)
  {
    forall k: nat ensures !Bit(0, k) {
      HalvesZero(k);
    }
  }

  lemma {:induction false} HalvesZero(k: nat)
    ensures Halves(0, k) == 0
  {
    if k > 0 {
      HalvesZero(k - 1);
    }
  }

  predicate Ones(m: Word, n: nat) {
    || (n == 0 && m == 0) || (n == 8 && m == 0xFF) || (n == 16 && m == 0xFFFF)
    || (n == 24 && m == 0xFF_FFFF) || (n == 32 && m == 0xFFFF_FFFF)
  }

  lemma {:induction false} OnesBits(m: Word, n: nat, k: nat)
    requires Ones(m, n)
    ensures Bit(m, k) == (k < n)
  {
    if n == 0 {
      HalvesZero(k);
    } else {
      HalvesByte(m);
      if k >= 8 {
        HalvesAdd(m, 8, k - 8);
        OnesBits(m >> 8, n - 8, k - 8);
      }
    }
  }

  /** Only the low bits count. */
  lemma BitsMasked(r: Word, m: Word, n: nat)
    requires Ones(m, n)
    ensures BitsOf(Meet(r, m), n) == BitsOf(r, n)
  {
    hide Meet, Bit, Ones;
    forall k | 0 <= k < n ensures Bit(Meet(r, m), k) == Bit(r, k) {
      BitOf(r, m, k);
      OnesBits(m, n, k);
    }
  }

  lemma HalfDetermines(a: Word, b: Word)
    requires Half(a) == Half(b) && Odd(a) == Odd(b)
    ensures a == b
  {
  }

  lemma {:induction false} BitsDetermine(a: Word, b: Word, k: nat)
    requires Halves(a, k) == Halves(b, k) && forall i :: 0 <= i < k ==> Bit(a, i) == Bit(b, i)
    ensures a == b
  {
    hide Half, Odd;
    if k > 0 {
      assert Bit(a, k - 1) == Bit(b, k - 1);
      HalfDetermines(Halves(a, k - 1), Halves(b, k - 1));
      BitsDetermine(a, b, k - 1);
    }
  }

  lemma OnesShift(r: Word, m: Word, n: nat)
    requires Ones(m, n) && n > 0 && r <= m
    ensures n >= 8 && Ones(m >> 8, n - 8) && r >> 8 <= m >> 8
  {
  }

  lemma HalvesEight(r: Word)
    ensures Halves(r, 8) == r >> 8
  {
    HalvesByte(r);
  }

  lemma {:induction false} HalvesOnes(r: Word, m: Word, n: nat)
    requires Ones(m, n) && r <= m
    ensures Halves(r, n) == 0
    decreases n
  {
    if n > 0 {
      OnesShift(r, m, n);
      HalvesEight(r);
      HalvesAdd(r, 8, n - 8);
      hide Half, Ones, Halves;
      HalvesOnes(r >> 8, m >> 8, n - 8);
    }
  }

  lemma HalvesMask(w: nat, r: Word)
    requires Width(w) && r <= Mask(w)
    ensures Halves(r, w) == 0
  {
    HalvesOnes(r, Mask(w), w);
  }

  /** A word of at most w bits is determined by them. */
  lemma BitsInjective(w: nat, a: Word, b: Word)
    requires Width(w) && a <= Mask(w) && b <= Mask(w) && BitsOf(a, w) == BitsOf(b, w)
    ensures a == b
  {
    HalvesMask(w, a);
    HalvesMask(w, b);
    forall i | 0 <= i < w ensures Bit(a, i) == Bit(b, i) {
      assert BitsOf(a, w)[w - 1 - i] == BitsOf(b, w)[w - 1 - i];
    }
    BitsDetermine(a, b, w);
  }

  lemma ByteInjective(a: Word, b: Word)
    requires a <= 0xFF && b <= 0xFF && BitsOf(a, 8) == BitsOf(b, 8)
    ensures a == b
  {
    HalvesByte(a);
    HalvesByte(b);
    forall i | 0 <= i < 8 ensures Bit(a, i) == Bit(b, i) {
      assert BitsOf(a, 8)[7 - i] == BitsOf(b, 8)[7 - i];
    }
    BitsDetermine(a, b, 8);
  }

  /* ----- one step ----- */

  function Masked(w: nat, r: Word): Word
    requires Width(w)
  {
    Meet(r, Mask(w))
  }

  function Twice(crc: Word): Word {
    crc << 1
  }

  function Double(w: nat, r: Word): Word
    requires Width(w)
  {
    Meet(Twice(r), Mask(w))
  }

  function Top(w: nat, r: Word): bool
    requires Width(w)
  {
    r & HighBit(w) != 0
  }

  function Choose(t: bool, p: Word): Word {
    if t then p else 0
  }

  /** A message bit enters the register. */
  function Enter(w: nat, p: Word, r: Word, b: bool): Word
    requires Width(w)
  {
    Plus(Double(w, r), Choose(Top(w, r) != b, p))
  }

  lemma PlusLaws(a: Word, b: Word, c: Word, d: Word)
    ensures Plus(Plus(a, b), Plus(c, d)) == Plus(Plus(a, c), Plus(b, d))
    ensures Plus(a, 0) == a && Plus(a, a) == 0 && Plus(a, b) == Plus(b, a)
  {
  }

  lemma {:induction false} ChoosePlus(s: bool, t: bool, p: Word)
    ensures Plus(Choose(s, p), Choose(t, p)) == Choose(s != t, p)
  {
    PlusLaws(p, 0, 0, 0);
    PlusLaws(0, p, 0, 0);
    hide Plus;
  }

  function Down16(r: Word): Word {
    r >> 16
  }

  lemma HalvesDown(r: Word, k: nat)
    ensures Halves(r, 16 + k) == Halves(Down16(r), k)
  {
    HalvesSixteen(r);
    HalvesAdd(r, 16, k);
    hide Halves;
  }

  lemma HalvesAll(r: Word)
    ensures Halves(r, 64) == 0
  {
    assert Down16(Down16(Down16(Down16(r)))) == 0;
    hide Down16;
    HalvesDown(r, 48);
    HalvesDown(Down16(r), 32);
    HalvesDown(Down16(Down16(r)), 16);
    HalvesDown(Down16(Down16(Down16(r))), 0);
  }

  lemma {:induction false} MeetPlus(a: Word, b: Word, m: Word)
    ensures Meet(Plus(a, b), m) == Plus(Meet(a, m), Meet(b, m))
  {
    var l, r := Meet(Plus(a, b), m), Plus(Meet(a, m), Meet(b, m));
    hide Meet, Plus, Bit, Halves;
    HalvesAll(l);
    HalvesAll(r);
    forall i: nat ensures Bit(l, i) == Bit(r, i) {
      BitOf(a, b, i);
      BitOf(a, m, i);
      BitOf(b, m, i);
      BitOf(Plus(a, b), m, i);
      BitOf(Meet(a, m), Meet(b, m), i);
    }
    BitsDetermine(l, r, 64);
  }

  lemma TwicePlus(a: Word, b: Word)
    ensures Twice(Plus(a, b)) == Plus(Twice(a), Twice(b))
  {
  }

  lemma DoublePlus(w: nat, a: Word, b: Word)
    requires Width(w)
    ensures Double(w, Plus(a, b)) == Plus(Double(w, a), Double(w, b))
  {
    hide Plus, Meet, Twice, Mask;
    TwicePlus(a, b);
    MeetPlus(Twice(a), Twice(b), Mask(w));
  }

  lemma TopPlus(w: nat, a: Word, b: Word)
    requires Width(w)
    ensures Top(w, Plus(a, b)) == (Top(w, a) != Top(w, b))
  {
    hide Plus, Top, Bit;
    TopBit(w, a);
    TopBit(w, b);
    TopBit(w, Plus(a, b));
    BitOf(a, b, w - 1);
  }

  /** The step is linear. */
  lemma {:induction false} EnterPlus(w: nat, p: Word, a: Word, s: bool, b: Word, t: bool)
    requires Width(w)
    ensures Enter(w, p, Plus(a, b), s != t) == Plus(Enter(w, p, a, s), Enter(w, p, b, t))
  {
    hide Double, Top, Choose, Plus;
    DoublePlus(w, a, b);
    TopPlus(w, a, b);
    ChoosePlus(Top(w, a) != s, Top(w, b) != t, p);
    PlusLaws(Double(w, a), Double(w, b), Choose(Top(w, a) != s, p), Choose(Top(w, b) != t, p));
  }

  lemma DoubleHalf(w: nat, r: Word)
    requires Width(w)
    ensures !Odd(Double(w, r)) && Half(Double(w, r)) == Meet(r, Half(Mask(w)))
  {
  }

  lemma HalfBits(m: Word, k: nat)
    ensures Bit(Half(m), k) == Bit(m, k + 1)
  {
    hide Half, Odd;
    HalvesAdd(m, 1, k);
    assert Halves(m, 0) == m;
    assert Halves(m, 1) == Half(m);
  }

  lemma MaskHalfBits(w: nat, k: nat)
    requires Width(w) && k < w - 1
    ensures Bit(Half(Mask(w)), k)
  {
    HalfBits(Mask(w), k);
    OnesBits(Mask(w), w, k + 1);
  }

  lemma DoubleLowest(w: nat, r: Word)
    requires Width(w)
    ensures !Bit(Double(w, r), 0)
  {
    hide Double, Odd, Half;
    DoubleHalf(w, r);
    assert Halves(Double(w, r), 0) == Double(w, r);
  }

  lemma DoubleBits(w: nat, r: Word)
    requires Width(w)
    ensures BitsOf(Double(w, r), w) == BitsOf(r, w)[1..] + [false]
  {
    hide Bit, Double, Half, Odd, Halves, Meet, Mask;
    var d := Double(w, r);
    DoubleHalf(w, r);
    DoubleLowest(w, r);
    forall k | 0 < k < w ensures Bit(d, k) == Bit(r, k - 1) {
      HalfBits(d, k - 1);
      BitOf(r, Half(Mask(w)), k - 1);
      MaskHalfBits(w, k - 1);
    }
  }

  lemma TopBit(w: nat, r: Word)
    requires Width(w)
    ensures BitsOf(r, w)[0] == Top(w, r)
  {
    var x := if w == 16 then r >> 8 else r >> 24;
    HalvesByte(x);
    TopByteHalves(w, r);
    HalvesAdd(r, w - 8, 7);
    assert BitsOf(r, w)[0] == Bit(r, w - 1) == Odd(x >> 7);
    hide Halves;
    if w == 16 {
      assert ((r >> 8) >> 7) & 1 == 1 <==> r & 0x8000 != 0;
    } else {
      assert ((r >> 24) >> 7) & 1 == 1 <==> r & 0x8000_0000 != 0;
    }
  }

  lemma ShiftTwice(r: Word)
    ensures (r >> 8) >> 8 == r >> 16 && (r >> 16) >> 8 == r >> 24
  {
  }

  lemma HalvesSixteen(r: Word)
    ensures Halves(r, 16) == r >> 16
  {
    var up := r >> 8;
    HalvesEight(r);
    HalvesEight(up);
    ShiftTwice(r);
    hide Half, Halves;
    HalvesAdd(r, 8, 8);
  }

  lemma TopByteHalves(w: nat, r: Word)
    requires Width(w)
    ensures Halves(r, w - 8) == if w == 16 then r >> 8 else r >> 24
  {
    hide Half, Halves;
    HalvesEight(r);
    if w == 32 {
      HalvesSixteen(r);
      HalvesAdd(r, 16, 8);
      var up := r >> 16;
      HalvesEight(up);
      ShiftTwice(r);
    }
  }

  lemma ChooseBits(t: bool, p: Word, w: nat)
    ensures BitsOf(Choose(t, p), w) == if t then BitsOf(p, w) else Zeros(w)
  {
    BitsZero(w);
  }

  lemma EnterBits(w: nat, p: Word, r: Word, b: bool)
    requires Width(w)
    ensures BitsOf(Enter(w, p, r, b), w) == Shift(BitsOf(p, w), BitsOf(r, w), b)
  {
    hide BitsOf, Xor, Zeros, Double, Top, Choose, Plus;
    TopBit(w, r);
    DoubleBits(w, r);
    var t := Top(w, r) != b;
    BitsPlus(Double(w, r), Choose(t, p), w);
    ChooseBits(t, p, w);
  }

  /* ----- eight steps ----- */

  function XTimes(w: nat, p: Word, r: Word): Word
    requires Width(w)
  {
    Enter(w, p, r, false)
  }

  function XPower(w: nat, p: Word, r: Word, k: nat): Word
    requires Width(w)
    decreases k
  {
    if k == 0 then r else XPower(w, p, XTimes(w, p, r), k - 1)
  }

  function Next(c: Word): Word {
    (c << 1) & 0xFF
  }

  function First(c: Word): bool {
    c & 0x80 != 0
  }

  /** The n highest bits of the byte c enter, highest first. */
  function EnterByte(w: nat, p: Word, r: Word, c: Word, n: nat): Word
    requires Width(w)
    decreases n
  {
    if n == 0 then r else EnterByte(w, p, Enter(w, p, r, First(c)), Next(c), n - 1)
  }

  function Tops(c: Word, n: nat): Bits
    decreases n
  {
    if n == 0 then [] else [First(c)] + Tops(Next(c), n - 1)
  }

  function NextTimes(c: Word, n: nat): Word
    decreases n
  {
    if n == 0 then c else NextTimes(Next(c), n - 1)
  }

  lemma {:induction false} EnterByteBits(w: nat, p: Word, r: Word, c: Word, n: nat)
    requires Width(w)
    ensures BitsOf(EnterByte(w, p, r, c, n), w) == Divide(BitsOf(p, w), BitsOf(r, w), Tops(c, n))
    decreases n
  {
    hide BitsOf, Enter, First, Next, Shift;
    if n > 0 {
      var r1 := Enter(w, p, r, First(c));
      EnterByteBits(w, p, r1, Next(c), n - 1);
      EnterBits(w, p, r, First(c));
      DivideAppend(BitsOf(p, w), BitsOf(r, w), [First(c)], Tops(Next(c), n - 1));
      var m := [First(c)];
      assert m[..|m| - 1] == [];
      assert Divide(BitsOf(p, w), BitsOf(r, w), m) == BitsOf(r1, w);
    }
  }

  lemma TopsFour(c: Word)
    ensures Tops(c, 4) == [c & 0x80 != 0, c & 0x40 != 0, c & 0x20 != 0, c & 0x10 != 0]
  {
    assert First(c) == (c & 0x80 != 0);
    assert First(Next(c)) == (c & 0x40 != 0);
    assert First(Next(Next(c))) == (c & 0x20 != 0);
    assert First(Next(Next(Next(c)))) == (c & 0x10 != 0);
    hide First, Next;
    assert Tops(Next(Next(Next(c))), 1) == [First(Next(Next(Next(c))))];
    assert Tops(Next(Next(c)), 2) == [First(Next(Next(c)))] + Tops(Next(Next(Next(c))), 1);
    assert Tops(Next(c), 3) == [First(Next(c))] + Tops(Next(Next(c)), 2);
  }

  function NextNibble(c: Word): Word {
    (c << 4) & 0xFF
  }

  lemma NextFour(c: Word)
    ensures NextTimes(c, 4) == NextNibble(c)
  {
    assert Next(Next(Next(Next(c)))) == NextNibble(c);
    hide Next;
    assert NextTimes(Next(Next(c)), 2) == Next(Next(Next(Next(c))));
  }

  lemma {:induction false} TopsSplit(c: Word, m: nat, n: nat)
    ensures Tops(c, m + n) == Tops(c, m) + Tops(NextTimes(c, m), n)
    decreases m
  {
    hide First, Next;
    if m > 0 {
      TopsSplit(Next(c), m - 1, n);
    }
  }

  lemma ByteMasks(c: Word)
    ensures Odd(c >> 7) == (c & 0x80 != 0) && Odd(c >> 6) == (c & 0x40 != 0)
    ensures Odd(c >> 5) == (c & 0x20 != 0) && Odd(c >> 4) == (c & 0x10 != 0)
    ensures Odd(c >> 3) == (c & 0x08 != 0) && Odd(c >> 2) == (c & 0x04 != 0)
    ensures Odd(c >> 1) == (c & 0x02 != 0) && Odd(c) == (c & 0x01 != 0)
  {
  }

  lemma ByteList(c: Word)
    ensures BitsOf(c, 8) == [Bit(c, 7), Bit(c, 6), Bit(c, 5), Bit(c, 4), Bit(c, 3), Bit(c, 2), Bit(c, 1), Bit(c, 0)]
  {
    hide Bit;
  }

  lemma ByteTests(c: Word)
    ensures Bit(c, 7) == (c & 0x80 != 0) && Bit(c, 6) == (c & 0x40 != 0)
    ensures Bit(c, 5) == (c & 0x20 != 0) && Bit(c, 4) == (c & 0x10 != 0)
    ensures Bit(c, 3) == (c & 0x08 != 0) && Bit(c, 2) == (c & 0x04 != 0)
    ensures Bit(c, 1) == (c & 0x02 != 0) && Bit(c, 0) == (c & 0x01 != 0)
  {
    HalvesByte(c);
    ByteMasks(c);
    hide Halves, Odd;
  }

  lemma ByteBits(c: Word)
    ensures BitsOf(c, 8) == [c & 0x80 != 0, c & 0x40 != 0, c & 0x20 != 0, c & 0x10 != 0,
                             c & 0x08 != 0, c & 0x04 != 0, c & 0x02 != 0, c & 0x01 != 0]
  {
    hide Bit, BitsOf;
    ByteList(c);
    ByteTests(c);
  }

  lemma LowNibble(c: Word)
    ensures NextNibble(c) & 0x80 != 0 <==> c & 0x08 != 0
    ensures NextNibble(c) & 0x40 != 0 <==> c & 0x04 != 0
    ensures NextNibble(c) & 0x20 != 0 <==> c & 0x02 != 0
    ensures NextNibble(c) & 0x10 != 0 <==> c & 0x01 != 0
  {
  }

  lemma TopsAreBits(c: Word)
    ensures Tops(c, 8) == BitsOf(c, 8)
  {
    hide Tops, BitsOf, NextNibble;
    TopsFour(c);
    TopsFour(NextNibble(c));
    NextFour(c);
    TopsSplit(c, 4, 4);
    ByteBits(c);
    LowNibble(c);
  }

  lemma AlignNext(w: nat, c: Word)
    requires Width(w) && Small(c)
    ensures Double(w, Align(w, c)) == Align(w, Next(c)) && Top(w, Align(w, c)) == First(c)
    ensures Small(Next(c))
  {
    if w == 16 {
      assert ((c << 8) << 1) & 0xFFFF == ((c << 1) & 0xFF) << 8;
    } else {
      assert ((c << 24) << 1) & 0xFFFF_FFFF == ((c << 1) & 0xFF) << 24;
    }
  }

  lemma {:induction false} EnterIsX(w: nat, p: Word, r: Word, c: Word)
    requires Width(w) && Small(c)
    ensures XTimes(w, p, Plus(r, Align(w, c))) == Plus(Enter(w, p, r, First(c)), Align(w, Next(c)))
    ensures Small(Next(c))
  {
    AlignNext(w, c);
    hide Double, Top, Align, Next, First;
    EnterPlus(w, p, r, First(c), Align(w, c), First(c));
    assert Enter(w, p, Align(w, c), First(c)) == Align(w, Next(c)) by {
      hide Plus;
      PlusLaws(Align(w, Next(c)), 0, 0, 0);
    }
  }

  /** Feeding bits one by one is adding them to the top and stepping. */
  lemma {:induction false} EnterByteIsPower(w: nat, p: Word, r: Word, c: Word, n: nat)
    requires Width(w) && Small(c)
    ensures XPower(w, p, Plus(r, Align(w, c)), n) == Plus(EnterByte(w, p, r, c, n), Align(w, NextTimes(c, n)))
    decreases n
  {
    hide XTimes, Enter, First, Next, Align, Plus;
    if n > 0 {
      EnterIsX(w, p, r, c);
      EnterByteIsPower(w, p, Enter(w, p, r, First(c)), Next(c), n - 1);
    }
  }

  lemma NextEight(c: Word)
    ensures NextTimes(c, 8) == 0
  {
    var d := Next(Next(Next(Next(c))));
    assert Next(Next(Next(Next(d)))) == 0;
    hide Next;
    assert NextTimes(d, 4) == NextTimes(Next(Next(d)), 2) == 0;
    assert NextTimes(Next(Next(c)), 6) == NextTimes(d, 4);
  }

  lemma {:induction false} XTimesPlus(w: nat, p: Word, a: Word, b: Word)
    requires Width(w)
    ensures XTimes(w, p, Plus(a, b)) == Plus(XTimes(w, p, a), XTimes(w, p, b))
  {
    EnterPlus(w, p, a, false, b, false);
  }

  lemma {:induction false} XPowerPlus(w: nat, p: Word, a: Word, b: Word, k: nat)
    requires Width(w)
    ensures XPower(w, p, Plus(a, b), k) == Plus(XPower(w, p, a, k), XPower(w, p, b, k))
    decreases k
  {
    hide XTimes, Plus;
    if k > 0 {
      XTimesPlus(w, p, a, b);
      XPowerPlus(w, p, XTimes(w, p, a), XTimes(w, p, b), k - 1);
    }
  }

  function Left(r: Word): Word {
    r << 8
  }

  /** The register moved up by a byte. */
  function Up(w: nat, r: Word): Word
    requires Width(w)
  {
    Meet(Left(r), Mask(w))
  }

  /** The part of the register below the top byte. */
  function Rest(w: nat, r: Word): Word
    requires Width(w)
  {
    r & (Mask(w) >> 8)
  }

  lemma DoubleLow(w: nat, r: Word)
    requires Width(w) && r <= Mask(w) >> 1
    ensures Double(w, r) == r << 1
  {
  }

  lemma TopLow(w: nat, r: Word)
    requires Width(w) && r <= Mask(w) >> 1
    ensures !Top(w, r)
  {
  }

  lemma {:induction false} XTimesLow(w: nat, p: Word, r: Word)
    requires Width(w) && r <= Mask(w) >> 1
    ensures XTimes(w, p, r) == r << 1
  {
    TopLow(w, r);
    DoubleLow(w, r);
    PlusLaws(r << 1, 0, 0, 0);
    hide Double, Top, Plus;
  }

  /** While the register has room at the top, k steps move it up. */
  lemma {:induction false} XPowerLow(w: nat, p: Word, r: Word, k: nat)
    requires Width(w) && k <= 8 && Room(w, r, k)
    ensures XPower(w, p, r, k) == UpSteps(r, k)
    decreases k
  {
    if k > 0 {
      RoomStep(w, r, k);
      XTimesLow(w, p, r);
      hide XTimes, Room;
      XPowerLow(w, p, r << 1, k - 1);
    }
  }

  function UpSteps(r: Word, k: nat): Word
    decreases k
  {
    if k == 0 then r else UpSteps(r << 1, k - 1)
  }

  predicate Room(w: nat, r: Word, k: nat)
    requires Width(w)
    decreases k
  {
    k == 0 || (r <= Mask(w) >> 1 && Room(w, r << 1, k - 1))
  }

  lemma RoomStep(w: nat, r: Word, k: nat)
    requires Width(w) && k > 0 && Room(w, r, k)
    ensures r <= Mask(w) >> 1 && Room(w, r << 1, k - 1)
  {
  }

  lemma UpEight(r: Word)
    ensures UpSteps(r, 8) == UpByte(r)
  {
    assert UpSteps(r << 6, 2) == UpByte(r);
    assert UpSteps(r << 4, 4) == UpSteps(r << 6, 2);
    assert UpSteps(r << 2, 6) == UpSteps(r << 4, 4);
  }

  predicate Low(w: nat, r: Word)
    requires Width(w)
  {
    r <= Mask(w) >> 8
  }

  lemma RestLow(w: nat, r: Word)
    requires Width(w)
    ensures Low(w, Rest(w, r))
  {
    if w == 16 {
      assert r & 0xFF <= 0xFF;
    } else {
      assert r & 0xFF_FFFF <= 0xFF_FFFF;
    }
  }

  lemma RoomEight(w: nat, r: Word)
    requires Width(w) && Low(w, r)
    ensures Room(w, r, 8)
  {
    assert r << 7 <= Mask(w) >> 1 && r << 6 <= Mask(w) >> 1 && r << 5 <= Mask(w) >> 1 && r << 4 <= Mask(w) >> 1;
    assert r << 3 <= Mask(w) >> 1 && r << 2 <= Mask(w) >> 1 && r << 1 <= Mask(w) >> 1;
    assert Room(w, r << 6, 2);
    assert Room(w, r << 4, 4);
    assert Room(w, r << 2, 6);
  }

  function UpByte(r: Word): Word {
    r << 8
  }

  lemma RestUp(w: nat, r: Word)
    requires Width(w)
    ensures UpByte(Rest(w, r)) == Up(w, r)
  {
  }

  lemma {:induction false} XPowerRest(w: nat, p: Word, r: Word)
    requires Width(w)
    ensures XPower(w, p, Rest(w, r), 8) == Up(w, r)
  {
    hide Rest, Mask, Room, XPower, UpSteps, UpByte, Up, Low;
    RestUp(w, r);
    RestLow(w, r);
    RoomEight(w, Rest(w, r));
    UpEight(Rest(w, r));
    XPowerLow(w, p, Rest(w, r), 8);
  }

  lemma {:induction false} SplitRegister(w: nat, r: Word, c: Word)
    requires Width(w) && Fits(w, r) && Small(c)
    ensures Plus(r, Align(w, c)) == Plus(Rest(w, r), Align(w, Plus(TopByte(w, r), c)))
    ensures Align(w, 0) == 0
  {
    if w == 16 {
      assert r ^ (c << 8) == (r & 0xFF) ^ ((((r >> 8) & 0xFF) ^ c) << 8);
    } else {
      assert r ^ (c << 24) == (r & 0xFF_FFFF) ^ ((((r >> 24) & 0xFF) ^ c) << 24);
    }
  }

  /** The table lookup replaces eight steps. */
  lemma {:induction false} TableStep(w: nat, p: Word, r: Word, c: Word)
    requires Width(w) && Fits(w, r) && Small(c)
    ensures EnterByte(w, p, r, c, 8)
         == Plus(Up(w, r), XPower(w, p, Align(w, Plus(TopByte(w, r), c)), 8))
  {
    hide XPower, EnterByte, Align, TopByte, Rest, Plus, Up, Fits, Small;
    var i := Plus(TopByte(w, r), c);
    EnterByteIsPower(w, p, r, c, 8);
    NextEight(c);
    SplitRegister(w, r, c);
    XPowerPlus(w, p, Rest(w, r), Align(w, i), 8);
    XPowerRest(w, p, r);
    PlusLaws(EnterByte(w, p, r, c, 8), 0, 0, 0);
  }
}
