/** CRC with a lookup table, against bit-serial division. */
module Crc {
  import opened CrcBits
  import opened CrcWords
  import opened CrcMirror

  /** crc_options without its table: initial is the initial_optimized field. */
  datatype Kind = Kind(width: nat, polynom: Word, initial: Word, refin: bool, refout: bool, finalXor: Word)

  const OPTION_B := Kind(32, 0xEE5B_42FD, 0, false, false, 0)
  const OPTION_C := Kind(32, 0x1EDC_6F41, 0xFFFF_FFFF, true, true, 0xFFFF_FFFF)
  const OPTION_D := Kind(16, 0x1021, 0, true, true, 0)
  const OPTION_E := Kind(16, 0x8005, 0, true, true, 0)

  predicate Proper(k: Kind) {
    && Width(k.width)
    && Fits(k.width, k.polynom) && Fits(k.width, k.initial) && Fits(k.width, k.finalXor)
  }

  predicate Offered(k: Kind) {
    k == OPTION_B || k == OPTION_C || k == OPTION_D || k == OPTION_E
  }

  /* ----- the checksum by bit-serial division ----- */

  /** The bits of a byte in the order in which they enter the division. */
  function EntryOrder(refin: bool, c: bv8): Bits {
    if refin then Reverse(BitsOf(Wide(c), 8)) else BitsOf(Wide(c), 8)
  }

  function MessageBits(refin: bool, msg: seq<bv8>): (s: Bits)
    ensures |s| == 8 * |msg|
    decreases |msg|
  {
    if msg == [] then [] else MessageBits(refin, msg[..|msg| - 1]) + EntryOrder(refin, msg[|msg| - 1])
  }

  function Divisor(k: Kind): Bits {
    BitsOf(k.polynom, k.width)
  }

  function Remainder(k: Kind, msg: seq<bv8>): Bits
    requires Proper(k)
  {
    Divide(Divisor(k), BitsOf(k.initial, k.width), MessageBits(k.refin, msg))
  }

  function Checksum(k: Kind, msg: seq<bv8>): Bits
    requires Proper(k)
  {
    var rem := Remainder(k, msg);
    Xor(if k.refout then Reverse(rem) else rem, BitsOf(k.finalXor, k.width))
  }

  /* ----- the register as a word ----- */

  function Wide(c: bv8): Word {
    c as Word
  }

  function InByte(refin: bool, c: bv8): Word {
    if refin then Rev8(Wide(c)) else Wide(c)
  }

  lemma WideSmall(c: bv8)
    ensures Wide(c) <= 0xFF
  {
  }

  lemma InByteBits(refin: bool, c: bv8)
    ensures InByte(refin, c) <= 0xFF
    ensures BitsOf(InByte(refin, c), 8) == EntryOrder(refin, c)
  {
    WideSmall(c);
    hide Rev8, Wide, BitsOf;
    Rev8Laws(Wide(c), 0);
    Rev8Bits(Wide(c));
  }

  lemma DoubleFits(w: nat, r: Word)
    requires Width(w)
    ensures Fits(w, Double(w, r))
  {
  }

  lemma ChooseFits(w: nat, t: bool, p: Word)
    requires Width(w) && Fits(w, p)
    ensures Fits(w, Choose(t, p))
  {
  }

  lemma EnterFits(w: nat, p: Word, r: Word, b: bool)
    requires Width(w) && Fits(w, p)
    ensures Fits(w, Enter(w, p, r, b))
  {
    hide Double, Choose, Fits, Plus, Top;
    DoubleFits(w, r);
    ChooseFits(w, Top(w, r) != b, p);
    PlusBelow(w, Double(w, r), Choose(Top(w, r) != b, p));
  }

  lemma {:induction false} EnterByteFits(w: nat, p: Word, r: Word, c: Word, n: nat)
    requires Width(w) && Fits(w, p) && Fits(w, r)
    ensures Fits(w, EnterByte(w, p, r, c, n))
    decreases n
  {
    hide Enter, First, Next, Fits;
    if n > 0 {
      EnterFits(w, p, r, First(c));
      EnterByteFits(w, p, Enter(w, p, r, First(c)), Next(c), n - 1);
    }
  }

  /** The left-shifting register after the message. */
  function Register(k: Kind, msg: seq<bv8>): Word
    requires Proper(k)
    decreases |msg|
  {
    if msg == [] then k.initial
    else EnterByte(k.width, k.polynom, Register(k, msg[..|msg| - 1]), InByte(k.refin, msg[|msg| - 1]), 8)
  }

  lemma {:induction false} RegisterFits(k: Kind, msg: seq<bv8>)
    requires Proper(k)
    ensures Fits(k.width, Register(k, msg))
    decreases |msg|
  {
    hide EnterByte, InByte, Fits, Width;
    if msg != [] {
      var m := msg[..|msg| - 1];
      RegisterFits(k, m);
      EnterByteFits(k.width, k.polynom, Register(k, m), InByte(k.refin, msg[|msg| - 1]), 8);
    }
  }

  lemma ByteEnters(w: nat, p: Word, r: Word, refin: bool, c: bv8)
    requires Width(w)
    ensures BitsOf(EnterByte(w, p, r, InByte(refin, c), 8), w)
         == Divide(BitsOf(p, w), BitsOf(r, w), EntryOrder(refin, c))
  {
    hide *;
    InByteBits(refin, c);
    EnterByteBits(w, p, r, InByte(refin, c), 8);
    TopsAreBits(InByte(refin, c));
  }

  /** The register is the remainder of the polynomial division. */
  lemma {:induction false} RegisterIsRemainder(k: Kind, msg: seq<bv8>)
    requires Proper(k)
    ensures BitsOf(Register(k, msg), k.width) == Remainder(k, msg)
    decreases |msg|
  {
    hide BitsOf, EnterByte, EntryOrder, InByte, Fits, Divide;
    if msg == [] {
      DivideNothing(Divisor(k), BitsOf(k.initial, k.width));
    } else {
      var m := msg[..|msg| - 1];
      RegisterIsRemainder(k, m);
      ByteEnters(k.width, k.polynom, Register(k, m), k.refin, msg[|msg| - 1]);
      DivideAppend(Divisor(k), BitsOf(k.initial, k.width), MessageBits(k.refin, m),
        EntryOrder(k.refin, msg[|msg| - 1]));
    }
  }

  lemma DivideNothing(g: Bits, r: Bits)
    requires |r| == |g| > 0
    ensures Divide(g, r, []) == r
  {
  }

  /* ----- the table ----- */

  function TableEntry(k: Kind, i: Word): Word
    requires Width(k.width)
  {
    if k.refin then Mirror(k.width, XPower(k.width, k.polynom, Align(k.width, Rev8(i)), 8))
    else XPower(k.width, k.polynom, Align(k.width, i), 8)
  }

  /** One turn of the left-shifting loop, whose register is not masked. */
  function Forward(k: Kind, crc: Word, c: bv8): Word
    requires Width(k.width)
  {
    Plus(Left(crc), TableEntry(k, Plus(TopByte(k.width, crc), Wide(c))))
  }

  lemma MaskedBytes(x: Word)
    ensures ((x & 0xFFFF) >> 8) & 0xFF == (x >> 8) & 0xFF
    ensures ((x & 0xFFFF_FFFF) >> 24) & 0xFF == (x >> 24) & 0xFF
  {
  }

  lemma MaskedShift(x: Word)
    ensures ((x & 0xFFFF) << 8) & 0xFFFF == (x << 8) & 0xFFFF
    ensures ((x & 0xFFFF_FFFF) << 8) & 0xFFFF_FFFF == (x << 8) & 0xFFFF_FFFF
  {
  }

  lemma MaskedTop(w: nat, crc: Word)
    requires Width(w)
    ensures TopByte(w, Masked(w, crc)) == TopByte(w, crc)
  {
    MaskedBytes(crc);
  }

  lemma MaskedUp(w: nat, crc: Word)
    requires Width(w)
    ensures Up(w, Masked(w, crc)) == Up(w, crc)
  {
    MaskedShift(crc);
  }

  lemma MaskedFits(w: nat, crc: Word)
    requires Width(w)
    ensures Fits(w, Masked(w, crc))
    ensures Fits(w, crc) ==> Masked(w, crc) == crc
  {
  }

  lemma {:induction false} MaskedPlus(w: nat, a: Word, b: Word)
    requires Width(w) && Fits(w, b)
    ensures Masked(w, Plus(a, b)) == Plus(Masked(w, a), b)
  {
    hide Mask, Meet, Plus, Fits;
    MaskedFits(w, b);
    MeetPlus(a, b, Mask(w));
  }

  lemma {:induction false} XPowerFits(w: nat, p: Word, r: Word, n: nat)
    requires Width(w) && Fits(w, p) && Fits(w, r)
    ensures Fits(w, XPower(w, p, r, n))
    decreases n
  {
    hide Enter, Fits;
    if n > 0 {
      EnterFits(w, p, r, false);
      XPowerFits(w, p, XTimes(w, p, r), n - 1);
    }
  }

  lemma AlignFits(w: nat, i: Word)
    requires Width(w) && Small(i)
    ensures Fits(w, Align(w, i))
  {
  }

  lemma PlusSmall(a: Word, b: Word)
    requires Small(a) && Small(b)
    ensures Small(Plus(a, b))
  {
  }

  lemma TopByteSmall(w: nat, r: Word, c: bv8)
    requires Width(w)
    ensures Small(TopByte(w, r)) && Small(Wide(c)) && Small(Plus(TopByte(w, r), Wide(c)))
  {
    assert Small(TopByte(w, r)) && Small(Wide(c));
    hide Small, TopByte, Wide, Plus;
    PlusSmall(TopByte(w, r), Wide(c));
  }

  lemma {:induction false} TableEntryFits(k: Kind, i: Word)
    requires Proper(k) && Small(i)
    ensures Fits(k.width, TableEntry(k, i))
  {
    hide Mirror, XPower, Align, Rev8;
    var w := k.width;
    var j := if k.refin then Rev8(i) else i;
    Rev8Laws(i, 0);
    AlignFits(w, j);
    XPowerFits(w, k.polynom, Align(w, j), 8);
    MirrorBits(w, XPower(w, k.polynom, Align(w, Rev8(i)), 8));
  }

  lemma MaskedLeft(w: nat, crc: Word)
    requires Width(w)
    ensures Masked(w, Left(crc)) == Up(w, crc)
  {
    hide Meet, Left, Mask;
  }

  lemma {:induction false} ForwardMasked(k: Kind, crc: Word, c: bv8)
    requires Proper(k)
    ensures Masked(k.width, Forward(k, crc, c))
         == Plus(Up(k.width, crc), TableEntry(k, Plus(TopByte(k.width, crc), Wide(c))))
  {
    hide Fits, TopByte, Plus, Masked, Up, TableEntry, Left, Wide;
    TopByteSmall(k.width, crc, c);
    MaskedLeft(k.width, crc);
    var i := Plus(TopByte(k.width, crc), Wide(c));
    TableEntryFits(k, i);
    MaskedPlus(k.width, Left(crc), TableEntry(k, i));
  }

  /** The left-shifting loop follows the register. */
  lemma {:induction false} StepForward(k: Kind, crc: Word, c: bv8)
    requires Proper(k) && !k.refin
    ensures Masked(k.width, Forward(k, crc, c))
         == EnterByte(k.width, k.polynom, Masked(k.width, crc), InByte(k.refin, c), 8)
  {
    hide Fits, TopByte, Plus, Masked, Up, Forward, XPower, EnterByte, Align, Wide;
    var w := k.width;
    ForwardMasked(k, crc, c);
    TopByteSmall(w, crc, c);
    MaskedTop(w, crc);
    MaskedUp(w, crc);
    MaskedFits(w, crc);
    TableStep(w, k.polynom, Masked(w, crc), Wide(c));
  }

  /** One turn of the right-shifting loop. */
  function Backward(k: Kind, crc: Word, c: bv8): Word
    requires Width(k.width)
  {
    Plus(Down(crc), TableEntry(k, Plus(B0(crc), Wide(c))))
  }

  lemma Rev8Plus(a: Word, b: Word)
    ensures Rev8(Plus(a, b)) == Plus(Rev8(a), Rev8(b))
  {
    Rev8Laws(a, b);
    hide Rev8;
  }

  lemma Rev8Small(a: Word)
    ensures Small(Rev8(a))
    ensures Small(a) ==> Rev8(Rev8(a)) == a
  {
    Rev8Laws(a, 0);
  }

  lemma {:induction false} MirrorBytes(w: nat, r: Word)
    requires Width(w)
    ensures B0(Mirror(w, r)) == Rev8(TopByte(w, r))
    ensures Down(Mirror(w, r)) == Mirror(w, Up(w, r))
  {
    hide Mirror, Rev8, TopByte, Up;
    MirrorLow(w, r);
    MirrorUp(w, r);
  }

  /** The right-shifting loop follows the mirror image of the register. */
  lemma {:induction false} StepBackward(k: Kind, r: Word, c: bv8)
    requires Proper(k) && k.refin && Fits(k.width, r)
    ensures Backward(k, Mirror(k.width, r), c)
         == Mirror(k.width, EnterByte(k.width, k.polynom, r, InByte(k.refin, c), 8))
  {
    hide Fits, TopByte, Plus, Up, XPower, EnterByte, Align, Mirror, Rev8, B0, Down, Wide, Small;
    var w, d := k.width, Wide(c);
    var t := TopByte(w, r);
    MirrorBytes(w, r);
    TopByteSmall(w, r, c);
    Rev8Plus(Rev8(t), d);
    Rev8Small(t);
    Rev8Small(d);
    TableStep(w, k.polynom, r, Rev8(d));
    MirrorPlus(w, Up(w, r), XPower(w, k.polynom, Align(w, Plus(t, Rev8(d))), 8));
  }

  /* ----- the program ----- */

  /** A turn of the table generator, whose register is not masked. */
  function Turn(w: nat, p: Word, crc: Word): Word
    requires Width(w)
  {
    if Top(w, crc) then Plus(Twice(crc), p) else Twice(crc)
  }

  lemma TwiceMasked(x: Word)
    ensures (x << 1) & 0xFFFF == ((x & 0xFFFF) << 1) & 0xFFFF
    ensures (x << 1) & 0xFFFF_FFFF == ((x & 0xFFFF_FFFF) << 1) & 0xFFFF_FFFF
  {
  }

  lemma MaskedDouble(w: nat, crc: Word)
    requires Width(w)
    ensures Masked(w, Twice(crc)) == Double(w, Masked(w, crc))
  {
    TwiceMasked(crc);
  }

  lemma MaskedHigh(w: nat, crc: Word)
    requires Width(w)
    ensures Top(w, crc) == Top(w, Masked(w, crc))
  {
  }

  lemma {:induction false} TurnIsX(w: nat, p: Word, crc: Word)
    requires Width(w) && Fits(w, p)
    ensures Masked(w, Turn(w, p, crc)) == XTimes(w, p, Masked(w, crc))
  {
    hide Masked, Top, Double, Plus, Fits, Twice;
    MaskedDouble(w, crc);
    MaskedHigh(w, crc);
    PlusLaws(Double(w, Masked(w, crc)), 0, 0, 0);
    MaskedPlus(w, Twice(crc), p);
  }

  lemma BitsOutside(w: nat, r: Word)
    requires Width(w) && forall m: nat :: m >= w ==> !Bit(r, m)
    ensures Fits(w, r)
  {
    var low := Meet(r, Mask(w));
    MaskedFits(w, r);
    assert low == Masked(w, r);
    HalvesAll(r);
    HalvesAll(low);
    hide Halves, Meet, Bit, Mask, Fits;
    forall i: nat ensures Bit(low, i) == Bit(r, i) {
      BitOf(r, Mask(w), i);
      OnesBits(Mask(w), w, i);
    }
    BitsDetermine(low, r, 64);
  }

  lemma CopiedIsMirror(w: nat, x: Word, out: Word)
    requires Width(w) && Copied(x, out, w, w)
    ensures out == Mirror(w, x)
  {
    hide Bit, Mask, Fits, Mirror;
    BitsOutside(w, out);
    assert BitsOf(out, w) == Reverse(BitsOf(x, w));
    hide Copied, BitsOf, Reverse;
    FitsMask(w, out);
    MirrorUnique(w, x, out);
  }

  lemma FitsMask(w: nat, r: Word)
    requires Width(w) && Fits(w, r)
    ensures r <= Mask(w)
  {
  }

  lemma CopiedIsRev8(x: Word, out: Word)
    requires Copied(x, out, 8, 8)
    ensures out == Rev8(x) && Small(out)
  {
    Rev8Bits(x);
    Rev8Laws(x, 0);
    assert BitsOf(out, 8) == Reverse(BitsOf(x, 8));
    BitsOutside8(out);
    ByteInjective(out, Rev8(x));
  }

  lemma BitsOutside8(r: Word)
    requires forall m: nat :: m >= 8 ==> !Bit(r, m)
    ensures Small(r)
  {
    BitsOutside(16, r);
    assert forall m: nat :: m >= 8 ==> !Bit(r, m);
    HalvesEight(r);
    assert Small(r) by {
      var low := Meet(r, 0xFF);
      HalvesAll(r);
      HalvesAll(low);
      assert Small(low);
      hide Halves, Meet, Bit;
      forall i: nat ensures Bit(low, i) == Bit(r, i) {
        BitOf(r, 0xFF, i);
        OnesBits(0xFF, 8, i);
      }
      BitsDetermine(low, r, 64);
    }
  }

  lemma {:induction false} MirrorOfMasked(w: nat, crc: Word)
    requires Width(w)
    ensures Mirror(w, Masked(w, crc)) == Mirror(w, crc)
    ensures Fits(w, Mirror(w, crc))
  {
    hide Mirror, Mask, BitsOf;
    MirrorMasked(w, crc);
    MirrorIs(w, crc);
  }

  lemma IndexIsWord(a: Word, b: Word)
    requires a as int == b as int
    ensures a == b
  {
    assert (a as int) as Word == a && (b as int) as Word == b;
  }

  lemma SmallIndex(i: Word)
    requires Small(i)
    ensures 0 <= i as int < 256
  {
  }

  lemma LowByteSmall(r: Word, c: bv8)
    ensures Small(Plus(B0(r), Wide(c)))
  {
    assert Small(B0(r)) && Small(Wide(c));
    hide Small, B0, Wide, Plus;
    PlusSmall(B0(r), Wide(c));
  }

  function Result(k: Kind, msg: seq<bv8>): Word
    requires Proper(k)
  {
    Plus(if k.refout then Mirror(k.width, Register(k, msg)) else Register(k, msg), k.finalXor)
  }

  lemma ResultBits(k: Kind, msg: seq<bv8>)
    requires Proper(k)
    ensures Fits(k.width, Result(k, msg)) && BitsOf(Result(k, msg), k.width) == Checksum(k, msg)
  {
    hide Register, Mirror, Fits, Plus, BitsOf, Reverse, Xor, Remainder, Mask;
    var w := k.width;
    var r := Register(k, msg);
    RegisterFits(k, msg);
    RegisterIsRemainder(k, msg);
    MirrorOfMasked(w, r);
    MirrorIs(w, r);
    var last := if k.refout then Mirror(w, r) else r;
    PlusBelow(w, last, k.finalXor);
    BitsPlus(last, k.finalXor, w);
  }

  /** The register before the final xor, whichever loop computed it. */
  lemma {:induction false} Finish(k: Kind, msg: seq<bv8>, crc: Word)
    requires Proper(k)
    requires if k.refin then crc == Mirror(k.width, Register(k, msg)) else Masked(k.width, crc) == Register(k, msg)
    ensures Masked(k.width, Plus(if k.refin != k.refout then Mirror(k.width, crc) else crc, k.finalXor))
            == Result(k, msg)
  {
    hide Register, Mirror, Fits, Plus, Masked;
    var w := k.width;
    var r := Register(k, msg);
    RegisterFits(k, msg);
    MirrorOfMasked(w, r);
    MirrorOfMasked(w, crc);
    MirrorBack(w, r);
    var last := if k.refin != k.refout then Mirror(w, crc) else crc;
    MaskedPlus(w, last, k.finalXor);
    MaskedFits(w, last);
    MaskedFits(w, r);
  }

  lemma RegisterStart(k: Kind)
    requires Proper(k)
    ensures Register(k, []) == k.initial
  {
  }

  lemma {:induction false} RegisterStep(k: Kind, msg: seq<bv8>, n: nat)
    requires Proper(k) && n < |msg|
    ensures Register(k, msg[..n + 1])
         == EnterByte(k.width, k.polynom, Register(k, msg[..n]), InByte(k.refin, msg[n]), 8)
  {
    hide EnterByte, InByte;
    assert msg[..n + 1][..n] == msg[..n];
  }

  lemma {:induction false} MirrorBack(w: nat, r: Word)
    requires Width(w) && Fits(w, r)
    ensures Mirror(w, Mirror(w, r)) == r
  {
    hide Mirror, Mask;
    MirrorTwice(w, r);
  }

  lemma IndexBelow(b: Word, i: Word)
    requires Small(b) && Small(i) && b as int < (i + 1) as int
    ensures b as int < i as int || b == i
  {
    assert (i + 1) as int == i as int + 1;
    if b as int == i as int {
      IndexIsWord(b, i);
    }
  }

  /** crc_options with its lazily filled table. */
  class Options {
    const kind: Kind
    var isTableGenerated: bool
    const table: array<Word>

    ghost predicate Valid()
      reads this, table
    {
      && Proper(kind) && table.Length == 256
      && (isTableGenerated ==> Filled(256))
    }

    ghost predicate Filled(n: nat)
      requires Width(kind.width) && n <= table.Length == 256
      reads table
    {
      forall b: Word :: Small(b) && b as int < n ==> table[b as int] == TableEntry(kind, b)
    }

    constructor (kind: Kind)
      requires Proper(kind)
      ensures Valid() && this.kind == kind && !isTableGenerated && fresh(table)
    {
      this.kind := kind;
      isTableGenerated := false;
      table := new Word[256];
    }

    /** One entry of crc_generate_table. */
    method Entry(i: Word) returns (crc: Word)
      requires Proper(kind) && Small(i)
      ensures crc == TableEntry(kind, i)
    {
      hide Top, Twice, Plus, Masked, Fits, Align, Rev8, Mirror, XPower, Small;
      crc := i;
      if kind.refin {
        crc := Reflect(crc, 8);
        CopiedIsRev8(i, crc);
      }
      AlignFits(kind.width, crc);
      crc := Align(kind.width, crc);
      ghost var start := crc;
      crc := Advance(crc);
      if kind.refin {
        ghost var turned := crc;
        crc := Reflect(crc, kind.width);
        CopiedIsMirror(kind.width, turned, crc);
        MirrorOfMasked(kind.width, turned);
      }
      MaskedFits(kind.width, crc);
      crc := Masked(kind.width, crc);
    }

    /** Eight turns without a table. */
    method Advance(start: Word) returns (crc: Word)
      requires Proper(kind) && Fits(kind.width, start)
      ensures Masked(kind.width, crc) == XPower(kind.width, kind.polynom, start, 8)
    {
      hide Top, Twice, Plus, Masked, Fits, XTimes;
      crc := start;
      MaskedFits(kind.width, crc);
      var j := 0;
      while j < 8
        invariant 0 <= j <= 8
        invariant XPower(kind.width, kind.polynom, Masked(kind.width, crc), 8 - j)
               == XPower(kind.width, kind.polynom, start, 8)
      {
        TurnIsX(kind.width, kind.polynom, crc);
        var bit := Top(kind.width, crc);
        crc := Twice(crc);
        if bit {
          crc := Plus(crc, kind.polynom);
        }
        j := j + 1;
      }
    }
  
    method GenerateTable()
      requires Valid()
      modifies this`isTableGenerated, table
      ensures Valid() && isTableGenerated
    {
      hide TableEntry;
      var i: Word := 0;
      while i <= 0xFF
        invariant i <= 0x100 && Filled(i as int)
        decreases 0x100 - i
      {
        SmallIndex(i);
        var crc := Entry(i);
        table[i as int] := crc;
        forall b: Word | Small(b) && b as int < (i + 1) as int
          ensures table[b as int] == TableEntry(kind, b)
        {
          IndexBelow(b, i);
        }
        i := i + 1;
      }
      isTableGenerated := true;
    }

    /** One turn of the left-shifting loop. */
    method LookupForward(crc: Word, c: bv8) returns (next: Word)
      requires Valid() && isTableGenerated
      ensures next == Forward(kind, crc, c)
    {
      hide TopByte, Wide, Plus, Left, TableEntry;
      TopByteSmall(kind.width, crc, c);
      var i := Plus(TopByte(kind.width, crc), Wide(c));
      SmallIndex(i);
      next := Plus(Left(crc), table[i as int]);
    }

    /** One turn of the right-shifting loop. */
    method LookupBackward(crc: Word, c: bv8) returns (next: Word)
      requires Valid() && isTableGenerated
      ensures next == Backward(kind, crc, c)
    {
      LowByteSmall(crc, c);
      hide B0, Wide, Plus, Down, TableEntry;
      var i := Plus(B0(crc), Wide(c));
      SmallIndex(i);
      next := Plus(Down(crc), table[i as int]);
    }

    method LookupAllForward(data: seq<bv8>) returns (crc: Word)
      requires Valid() && isTableGenerated && !kind.refin
      ensures Masked(kind.width, crc) == Register(kind, data)
    {
      hide Masked, Fits, Register, TableEntry, Forward, EnterByte, InByte;
      crc := kind.initial;
      MaskedFits(kind.width, crc);
      RegisterStart(kind);
      assert data[..0] == [];
      var n := 0;
      while n < |data|
        invariant n <= |data| && Masked(kind.width, crc) == Register(kind, data[..n])
      {
        StepForward(kind, crc, data[n]);
        RegisterStep(kind, data, n);
        crc := LookupForward(crc, data[n]);
        n := n + 1;
      }
      assert data[..n] == data;
    }

    method LookupAllBackward(data: seq<bv8>) returns (crc: Word)
      requires Valid() && isTableGenerated && kind.refin
      ensures crc == Mirror(kind.width, Register(kind, data))
    {
      hide Mirror, Fits, Register, TableEntry, Backward, EnterByte, InByte;
      crc := Reflect(kind.initial, kind.width);
      CopiedIsMirror(kind.width, kind.initial, crc);
      RegisterStart(kind);
      assert data[..0] == [];
      var n := 0;
      while n < |data|
        invariant n <= |data| && crc == Mirror(kind.width, Register(kind, data[..n]))
      {
        RegisterFits(kind, data[..n]);
        StepBackward(kind, Register(kind, data[..n]), data[n]);
        RegisterStep(kind, data, n);
        crc := LookupBackward(crc, data[n]);
        n := n + 1;
      }
      assert data[..n] == data;
    }

    /** crc_calculate. */
    method Calculate(data: seq<bv8>) returns (crc: Word)
      requires Valid()
      modifies this`isTableGenerated, table
      ensures Valid() && isTableGenerated
      ensures Fits(kind.width, crc) && BitsOf(crc, kind.width) == Checksum(kind, data)
    {
      hide Masked, Mirror, Fits, Plus, Register, TableEntry, BitsOf, Checksum;
      if !isTableGenerated {
        GenerateTable();
      }
      if !kind.refin {
        crc := LookupAllForward(data);
      } else {
        crc := LookupAllBackward(data);
      }
      Finish(kind, data, crc);
      ResultBits(kind, data);
      if kind.refout != kind.refin {
        ghost var turned := crc;
        crc := Reflect(crc, kind.width);
        CopiedIsMirror(kind.width, turned, crc);
      }
      crc := Plus(crc, kind.finalXor);
      crc := Masked(kind.width, crc);
    }
  }
}
