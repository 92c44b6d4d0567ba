/** Words read backwards: the mirror image of the low 8, 16 or 32 bits. */
module CrcMirror {
  import opened CrcBits
  import opened CrcWords

  function Reverse(s: Bits): (t: Bits)
    ensures |t| == |s|
  {
    seq(|s|, i requires 0 <= i < |s| => s[|s| - 1 - i])
  }

  function Rev8(c: Word): Word {
    ((c & 1) << 7) | ((c & 2) << 5) | ((c & 4) << 3) | ((c & 8) << 1)
    | ((c >> 1) & 8) | ((c >> 3) & 4) | ((c >> 5) & 2) | ((c >> 7) & 1)
  }

  /** Byte k of a word, byte 0 the lowest, and the word with given bytes. */
  function B0(r: Word): Word { r & 0xFF }
  function B1(r: Word): Word { (r >> 8) & 0xFF }
  function B2(r: Word): Word { (r >> 16) & 0xFF }
  function B3(r: Word): Word { (r >> 24) & 0xFF }

  function Join(d: Word, c: Word, b: Word, a: Word): Word {
    (d << 24) | (c << 16) | (b << 8) | a
  }

  function Rev16(r: Word): Word {
    Join(0, 0, Rev8(B0(r)), Rev8(B1(r)))
  }

  function Rev32(r: Word): Word {
    Join(Rev8(B0(r)), Rev8(B1(r)), Rev8(B2(r)), Rev8(B3(r)))
  }

  function Mirror(w: nat, r: Word): Word
    requires Width(w)
  {
    if w == 16 then Rev16(r) else Rev32(r)
  }

  lemma Rev8Masks(c: Word)
    ensures (Rev8(c) & 0x80 != 0) == (c & 0x01 != 0) && (Rev8(c) & 0x40 != 0) == (c & 0x02 != 0)
    ensures (Rev8(c) & 0x20 != 0) == (c & 0x04 != 0) && (Rev8(c) & 0x10 != 0) == (c & 0x08 != 0)
    ensures (Rev8(c) & 0x08 != 0) == (c & 0x10 != 0) && (Rev8(c) & 0x04 != 0) == (c & 0x20 != 0)
    ensures (Rev8(c) & 0x02 != 0) == (c & 0x40 != 0) && (Rev8(c) & 0x01 != 0) == (c & 0x80 != 0)
  {
  }

  lemma Rev8Bits(c: Word)
    ensures BitsOf(Rev8(c), 8) == Reverse(BitsOf(c, 8))
  {
    hide Rev8, BitsOf, Reverse;
    ByteBits(c);
    ByteBits(Rev8(c));
    Rev8Masks(c);
    var b := BitsOf(c, 8);
    ReverseEight(b[0], b[1], b[2], b[3], b[4], b[5], b[6], b[7]);
  }

  lemma ReverseEight(a: bool, b: bool, c: bool, d: bool, e: bool, f: bool, g: bool, h: bool)
    ensures Reverse([a, b, c, d, e, f, g, h]) == [h, g, f, e, d, c, b, a]
  {
  }

  lemma Rev8Laws(a: Word, b: Word)
    ensures Rev8(0) == 0
    ensures Rev8(a) <= 0xFF
    ensures Rev8(a ^ b) == Rev8(a) ^ Rev8(b)
    ensures a <= 0xFF ==> Rev8(Rev8(a)) == a
  {
  }

  lemma JoinBytes(d: Word, c: Word, b: Word, a: Word)
    requires d <= 0xFF && c <= 0xFF && b <= 0xFF && a <= 0xFF
    ensures B0(Join(d, c, b, a)) == a && B1(Join(d, c, b, a)) == b
    ensures B2(Join(d, c, b, a)) == c && B3(Join(d, c, b, a)) == d
  {
    assert Join(d, c, b, a) & 0xFF == a;
    assert (Join(d, c, b, a) >> 8) & 0xFF == b;
    assert (Join(d, c, b, a) >> 16) & 0xFF == c;
    assert (Join(d, c, b, a) >> 24) & 0xFF == d;
  }

  lemma JoinBound(d: Word, c: Word, b: Word, a: Word)
    requires d <= 0xFF && c <= 0xFF && b <= 0xFF && a <= 0xFF
    ensures Join(d, c, b, a) <= 0xFFFF_FFFF
    ensures d == 0 && c == 0 ==> Join(d, c, b, a) <= 0xFFFF
  {
  }

  lemma JoinDown(d: Word, c: Word, b: Word, a: Word)
    requires d <= 0xFF && c <= 0xFF && b <= 0xFF && a <= 0xFF
    ensures Join(d, c, b, a) >> 8 == Join(0, d, c, b)
  {
  }

  function Down(r: Word): Word {
    r >> 8
  }

  lemma DownBytes(r: Word)
    ensures B0(Down(r)) == B1(r) && B1(Down(r)) == B2(r) && B2(Down(r)) == B3(r)
  {
    ShiftTwice(r);
  }

  lemma BitsLowest(r: Word)
    ensures BitsOf(B0(r), 8) == BitsOf(r, 8)
  {
    BitsMasked(r, 0xFF, 8);
    assert B0(r) == Meet(r, 0xFF);
    hide BitsOf;
  }

  lemma BitsDown(r: Word, n: nat)
    ensures BitsOf(r, n + 8) == BitsOf(Down(r), n) + BitsOf(B0(r), 8)
  {
    BitsTail(r, n);
    BitsLowest(r);
    hide BitsOf;
  }

  lemma SplitBits16(r: Word)
    ensures BitsOf(r, 16) == BitsOf(B1(r), 8) + BitsOf(B0(r), 8)
  {
    hide BitsOf, B0, B1, B2, B3, Down;
    BitsDown(r, 8);
    BitsLowest(Down(r));
    DownBytes(r);
  }

  lemma SplitBits32(r: Word)
    ensures BitsOf(r, 32) == BitsOf(B3(r), 8) + BitsOf(B2(r), 8) + BitsOf(B1(r), 8) + BitsOf(B0(r), 8)
  {
    hide BitsOf, B0, B1, B2, B3, Down;
    BitsDown(r, 24);
    BitsDown(Down(r), 16);
    DownBytes(r);
    DownBytes(Down(r));
    SplitBits16(Down(Down(r)));
  }

  lemma ReverseConcat(a: Bits, b: Bits)
    ensures Reverse(a + b) == Reverse(b) + Reverse(a)
  {
  }

  lemma RevBytes(r: Word)
    ensures Rev8(B0(r)) <= 0xFF && Rev8(B1(r)) <= 0xFF && Rev8(B2(r)) <= 0xFF && Rev8(B3(r)) <= 0xFF
  {
    Rev8Laws(B0(r), 0);
    Rev8Laws(B1(r), 0);
    Rev8Laws(B2(r), 0);
    Rev8Laws(B3(r), 0);
  }

  lemma Rev16Bits(r: Word)
    ensures Rev16(r) <= 0xFFFF
    ensures BitsOf(Rev16(r), 16) == Reverse(BitsOf(r, 16))
  {
    hide BitsOf, Rev8, Join, B0, B1, B2, B3;
    RevBytes(r);
    JoinBytes(0, 0, Rev8(B0(r)), Rev8(B1(r)));
    JoinBound(0, 0, Rev8(B0(r)), Rev8(B1(r)));
    SplitBits16(r);
    SplitBits16(Rev16(r));
    Rev8Bits(B0(r));
    Rev8Bits(B1(r));
    ReverseConcat(BitsOf(B1(r), 8), BitsOf(B0(r), 8));
  }

  lemma ReverseFour(a: Bits, b: Bits, c: Bits, d: Bits)
    ensures Reverse(a + b + c + d) == Reverse(d) + Reverse(c) + Reverse(b) + Reverse(a)
  {
    ReverseConcat(a, b);
    ReverseConcat(a + b, c);
    ReverseConcat(a + b + c, d);
    hide Reverse;
  }

  lemma Rev32Bits(r: Word)
    ensures Rev32(r) <= 0xFFFF_FFFF
    ensures BitsOf(Rev32(r), 32) == Reverse(BitsOf(r, 32))
  {
    hide BitsOf, Rev8, Join, B0, B1, B2, B3, Reverse;
    RevBytes(r);
    JoinBytes(Rev8(B0(r)), Rev8(B1(r)), Rev8(B2(r)), Rev8(B3(r)));
    JoinBound(Rev8(B0(r)), Rev8(B1(r)), Rev8(B2(r)), Rev8(B3(r)));
    SplitBits32(r);
    SplitBits32(Rev32(r));
    Rev8Bits(B0(r));
    Rev8Bits(B1(r));
    Rev8Bits(B2(r));
    Rev8Bits(B3(r));
    ReverseFour(BitsOf(B3(r), 8), BitsOf(B2(r), 8), BitsOf(B1(r), 8), BitsOf(B0(r), 8));
  }

  lemma MirrorBits(w: nat, r: Word)
    requires Width(w)
    ensures Mirror(w, r) <= Mask(w)
    ensures BitsOf(Mirror(w, r), w) == Reverse(BitsOf(r, w))
  {
    hide Rev16, Rev32, BitsOf;
    Rev16Bits(r);
    Rev32Bits(r);
  }

  /** A mirror image is the only word with those bits. */
  lemma MirrorUnique(w: nat, r: Word, m: Word)
    requires Width(w) && m <= Mask(w) && BitsOf(m, w) == Reverse(BitsOf(r, w))
    ensures m == Mirror(w, r)
  {
    MirrorBits(w, r);
    BitsInjective(w, m, Mirror(w, r));
  }

  lemma {:induction false} MirrorTwice(w: nat, r: Word)
    requires Width(w) && r <= Mask(w)
    ensures Mirror(w, Mirror(w, r)) == r
  {
    MirrorBits(w, r);
    assert Reverse(Reverse(BitsOf(r, w))) == BitsOf(r, w);
    MirrorUnique(w, Mirror(w, r), r);
  }

  lemma PlusBelow(w: nat, a: Word, b: Word)
    requires Width(w) && Fits(w, a) && Fits(w, b)
    ensures Fits(w, Plus(a, b))
  {
  }

  lemma ReverseXor(a: Bits, b: Bits)
    requires |a| == |b|
    ensures Reverse(Xor(a, b)) == Xor(Reverse(a), Reverse(b))
  {
  }

  lemma ImagesPlus(w: nat, a: Word, b: Word, ma: Word, mb: Word)
    requires BitsOf(ma, w) == Reverse(BitsOf(a, w)) && BitsOf(mb, w) == Reverse(BitsOf(b, w))
    ensures BitsOf(Plus(ma, mb), w) == Reverse(BitsOf(Plus(a, b), w))
  {
    BitsPlus(a, b, w);
    BitsPlus(ma, mb, w);
    ReverseXor(BitsOf(a, w), BitsOf(b, w));
    hide BitsOf, Reverse, Xor, Plus;
  }

  ghost predicate IsMirror(w: nat, r: Word, m: Word)
    requires Width(w)
  {
    m <= Mask(w) && BitsOf(m, w) == Reverse(BitsOf(r, w))
  }

  lemma IsMirrorPlus(w: nat, a: Word, b: Word, ma: Word, mb: Word)
    requires Width(w) && IsMirror(w, a, ma) && IsMirror(w, b, mb)
    ensures IsMirror(w, Plus(a, b), Plus(ma, mb))
  {
    PlusBelow(w, ma, mb);
    ImagesPlus(w, a, b, ma, mb);
    hide Plus, BitsOf, Mask, Reverse;
  }

  lemma {:induction false} MirrorPlus(w: nat, a: Word, b: Word)
    requires Width(w)
    ensures Mirror(w, Plus(a, b)) == Plus(Mirror(w, a), Mirror(w, b))
  {
    hide IsMirror, Plus, Mirror;
    MirrorIs(w, a);
    MirrorIs(w, b);
    IsMirrorPlus(w, a, b, Mirror(w, a), Mirror(w, b));
    MirrorOnly(w, Plus(a, b), Plus(Mirror(w, a), Mirror(w, b)));
  }

  lemma MirrorIs(w: nat, r: Word)
    requires Width(w)
    ensures IsMirror(w, r, Mirror(w, r))
  {
    MirrorBits(w, r);
  }

  lemma MirrorOnly(w: nat, r: Word, m: Word)
    requires Width(w) && IsMirror(w, r, m)
    ensures m == Mirror(w, r)
  {
    MirrorUnique(w, r, m);
  }

  lemma {:induction false} MirrorMasked(w: nat, r: Word)
    requires Width(w)
    ensures Mirror(w, Masked(w, r)) == Mirror(w, r)
  {
    assert Ones(Mask(w), w);
    hide Mirror, Mask, BitsOf, Reverse, Meet, Ones;
    BitsMasked(r, Mask(w), w);
    MirrorIs(w, r);
    MirrorOnly(w, Masked(w, r), Mirror(w, r));
  }

  lemma UpBytes16(r: Word)
    ensures B0(Up(16, r)) == 0 && B1(Up(16, r)) == B0(r)
  {
    assert ((r << 8) & 0xFFFF) & 0xFF == 0;
    assert (((r << 8) & 0xFFFF) >> 8) & 0xFF == r & 0xFF;
  }

  lemma UpBytes32(r: Word)
    ensures B0(Up(32, r)) == 0 && B1(Up(32, r)) == B0(r) && B2(Up(32, r)) == B1(r) && B3(Up(32, r)) == B2(r)
  {
    assert ((r << 8) & 0xFFFF_FFFF) & 0xFF == 0;
    assert (((r << 8) & 0xFFFF_FFFF) >> 8) & 0xFF == r & 0xFF;
    assert (((r << 8) & 0xFFFF_FFFF) >> 16) & 0xFF == (r >> 8) & 0xFF;
    assert (((r << 8) & 0xFFFF_FFFF) >> 24) & 0xFF == (r >> 16) & 0xFF;
  }

  /** Moving up by a byte is moving the mirror image down. */
  lemma {:induction false} MirrorUp(w: nat, r: Word)
    requires Width(w)
    ensures Mirror(w, Up(w, r)) == Mirror(w, r) >> 8
  {
    hide Rev16, Rev32, Up;
    if w == 16 {
      MirrorUp16(r);
    } else {
      MirrorUp32(r);
    }
  }

  lemma MirrorUp16(r: Word)
    ensures Rev16(Up(16, r)) == Rev16(r) >> 8
  {
    hide Rev8, Join, B0, B1, B2, B3, Up;
    Rev8Laws(0, 0);
    RevBytes(r);
    UpBytes16(r);
    JoinDown(0, 0, Rev8(B0(r)), Rev8(B1(r)));
  }

  lemma MirrorUp32(r: Word)
    ensures Rev32(Up(32, r)) == Rev32(r) >> 8
  {
    hide Rev8, Join, B0, B1, B2, B3, Up;
    Rev8Laws(0, 0);
    RevBytes(r);
    UpBytes32(r);
    JoinDown(Rev8(B0(r)), Rev8(B1(r)), Rev8(B2(r)), Rev8(B3(r)));
  }

  /** The lowest byte of the mirror image is the top byte read backwards. */
  lemma {:induction false} MirrorLow(w: nat, r: Word)
    requires Width(w)
    ensures Mirror(w, r) & 0xFF == Rev8(TopByte(w, r))
  {
    assert TopByte(w, r) == if w == 16 then B1(r) else B3(r);
    assert Mirror(w, r) & 0xFF == B0(Mirror(w, r));
    hide Rev8, Join, B0, B1, B2, B3, TopByte;
    RevBytes(r);
    Rev8Laws(0, 0);
    JoinBytes(0, 0, Rev8(B0(r)), Rev8(B1(r)));
    JoinBytes(Rev8(B0(r)), Rev8(B1(r)), Rev8(B2(r)), Rev8(B3(r)));
  }

  /* ----- the reflecting loop ----- */

  /** A word with one bit set. */
  predicate Single(p: Word) {
    p != 0 && p & (p - 1) == 0
  }

  function Either(a: Word, b: Word): Word {
    a | b
  }

  function Hits(x: Word, p: Word): bool {
    x & p != 0
  }

  lemma SingleHalf(p: Word)
    requires Single(p) && p != 1
    ensures Single(Half(p)) && !Odd(p)
  {
  }

  lemma HitsHalf(p: Word, x: Word)
    requires !Odd(p)
    ensures Hits(x, p) == Hits(Half(x), Half(p))
  {
  }

  lemma HitsOne(x: Word)
    ensures Hits(x, 1) == Odd(x)
  {
  }

  lemma {:induction false} SingleHits(x: Word, p: Word, m: nat)
    requires Single(p) && Halves(p, m) == 1
    ensures Hits(x, p) == Bit(x, m)
    decreases m
  {
    hide Half, Odd, Hits, Single;
    if m == 0 {
      HitsOne(x);
    } else {
      SingleBelow(p, m);
      SingleHalf(p);
      HitsHalf(p, x);
      HalvesBelow(p, m - 1);
      HalvesBelow(x, m - 1);
      SingleHits(Half(x), Half(p), m - 1);
    }
  }

  lemma HalvesBelow(r: Word, k: nat)
    ensures Halves(Half(r), k) == Halves(r, k + 1)
  {
    HalvesAdd(r, 1, k);
    assert Halves(r, 0) == r;
    assert Halves(r, 1) == Half(r);
    hide Half;
  }

  lemma SingleBelow(p: Word, m: nat)
    requires Halves(p, m) == 1 && m > 0
    ensures p != 1
  {
    if p == 1 {
      HalvesBelow(p, m - 1);
      assert Half(1) == 0;
      HalvesZero(m - 1);
    }
  }

  lemma {:induction false} SingleBits(p: Word, m: nat, k: nat)
    requires Single(p) && Halves(p, m) == 1
    ensures Bit(p, k) == (k == m)
    decreases m
  {
    if m == 0 {
      OneBits(k);
    } else {
      SingleBelow(p, m);
      SingleHalf(p);
      HalvesBelow(p, m - 1);
      hide Half, Odd, Single;
      if k > 0 {
        HalvesBelow(p, k - 1);
        SingleBits(Half(p), m - 1, k - 1);
      }
    }
  }

  lemma OneBits(k: nat)
    ensures Bit(1, k) == (k == 0)
  {
    if k > 0 {
      HalvesBelow(1, k - 1);
      assert Half(1) == 0;
      HalvesZero(k - 1);
    }
  }

  lemma HalfEither(a: Word, b: Word)
    ensures Half(Either(a, b)) == Either(Half(a), Half(b))
  {
  }

  lemma OddEither(a: Word, b: Word)
    ensures Odd(Either(a, b)) == (Odd(a) || Odd(b))
  {
  }

  lemma {:induction false} HalvesEither(a: Word, b: Word, k: nat)
    ensures Halves(Either(a, b), k) == Either(Halves(a, k), Halves(b, k))
  {
    hide Half, Either;
    if k > 0 {
      HalvesEither(a, b, k - 1);
      HalfEither(Halves(a, k - 1), Halves(b, k - 1));
    }
  }

  lemma BitEither(a: Word, b: Word, k: nat)
    ensures Bit(Either(a, b), k) == (Bit(a, k) || Bit(b, k))
  {
    HalvesEither(a, b, k);
    OddEither(Halves(a, k), Halves(b, k));
    hide Half, Odd, Either, Halves;
  }

  lemma SingleInside(p: Word)
    requires Single(p) && Hits(0xFFFF_FFFF, p)
    ensures p <= 0xFFFF_FFFF
  {
  }

  lemma DoubleUp(p: Word)
    requires Single(p) && p <= 0xFFFF_FFFF
    ensures Single(p << 1) && Half(p << 1) == p
  {
  }

  lemma SingleDouble(p: Word, m: nat)
    requires Single(p) && Halves(p, m) == 1 && m < 32
    ensures Single(p << 1) && Halves(p << 1, m + 1) == 1
  {
    SingleHits(0xFFFF_FFFF, p, m);
    OnesBits(0xFFFF_FFFF, 32, m);
    SingleInside(p);
    DoubleUp(p);
    hide Single, Half, Hits, Halves;
    HalvesBelow(p << 1, m);
  }

  lemma HighSingle(n: nat, i: Word)
    requires (n == 8 && i == 0x80) || (n == 16 && i == 0x8000) || (n == 32 && i == 0x8000_0000)
    ensures Single(i) && Halves(i, n - 1) == 1
  {
    HalvesByte(0x80);
    if n == 16 {
      HalvesEight(i);
      HalvesAdd(i, 8, 7);
    } else if n == 32 {
      HalvesSixteen(i);
      HalvesAdd(i, 16, 8);
      HalvesEight(0x8000);
      HalvesAdd(i, 24, 7);
    }
  }

  lemma SingleNext(p: Word, m: nat)
    requires Single(p) && Halves(p, m) == 1
    ensures if m == 0 then p >> 1 == 0 else Single(p >> 1) && Halves(p >> 1, m - 1) == 1
  {
    if m > 0 {
      SingleBelow(p, m);
      SingleHalf(p);
      HalvesBelow(p, m - 1);
    }
  }

  /** The first k steps of the loop have copied the highest k of n bits. */
  ghost predicate Copied(x: Word, out: Word, n: nat, k: nat) {
    forall m: nat :: Bit(out, m) == (m < k && m < n && Bit(x, n - 1 - m))
  }

  lemma CopyStep(x: Word, out: Word, n: nat, k: nat, i: Word, j: Word)
    requires k < n && Copied(x, out, n, k)
    requires Single(i) && Halves(i, n - 1 - k) == 1 && Single(j) && Halves(j, k) == 1
    ensures Copied(x, if Hits(x, i) then Either(out, j) else out, n, k + 1)
  {
    SingleHits(x, i, n - 1 - k);
    var next := if Hits(x, i) then Either(out, j) else out;
    hide Bit, Hits, Either, Single, Halves;
    forall m: nat ensures Bit(next, m) == (m < k + 1 && m < n && Bit(x, n - 1 - m)) {
      BitEither(out, j, m);
      SingleBits(j, k, m);
    }
  }

  /** The lower n bits of crcIn, reversed. */
  method Reflect(crcIn: Word, n: nat) returns (crcOut: Word)
    requires n == 8 || n == 16 || n == 32
    ensures Copied(crcIn, crcOut, n, n)
  {
    var j: Word := 1;
    crcOut := 0;
    var i: Word := if n == 8 then 0x80 else if n == 16 then 0x8000 else 0x8000_0000;
    ghost var k := 0;
    HighSingle(n, i);
    assert Single(1) && Halves(1, 0) == 1;
    forall m: nat ensures !Bit(0, m) {
      HalvesZero(m);
    }
    hide Bit, Single, Halves;
    while i != 0
      invariant k <= n && Copied(crcIn, crcOut, n, k)
      invariant if k == n then i == 0 else Single(i) && Halves(i, n - 1 - k) == 1
      invariant k < n ==> Single(j) && Halves(j, k) == 1
      decreases n - k
    {
      CopyStep(crcIn, crcOut, n, k, i, j);
      SingleDouble(j, k);
      SingleNext(i, n - 1 - k);
      if crcIn & i != 0 {
        crcOut := crcOut | j;
      }
      j := j << 1;
      i := i >> 1;
      k := k + 1;
    }
  }
}
