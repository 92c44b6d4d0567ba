/** MD4 fed in pieces, against the padded message of RFC 1320, sections 3.1 and
    3.2. The function of one block is any function. */
module Md4 {
  import opened ByteOrder

  const BLOCK_SIZE := 64
  const COUNT_29 := 0x2000_0000
  const COUNT_32 := 0x1_0000_0000
  const COUNT_61 := 0x2000_0000_0000_0000
  const COUNT_64 := 0x1_0000_0000_0000_0000

  /** The chaining value after one block, and the 16 bytes of its four words. */
  datatype Function<!S> = Function(block: (S, seq<byte>) -> S, bytes: S -> seq<byte>)

  /* ----- the definition ----- */

  /** The fold over the complete blocks of b. */
  function Fold<S>(f: Function<S>, s: S, b: seq<byte>): S
    decreases |b|
  {
    if |b| < BLOCK_SIZE then s else Fold(f, f.block(s, b[..BLOCK_SIZE]), b[BLOCK_SIZE..])
  }

  /** Zero bytes between the 0x80 and the length. */
  function Gap(n: nat): (g: nat)
    ensures (n + 1 + g + 8) % BLOCK_SIZE == 0 && g < BLOCK_SIZE
  {
    (BLOCK_SIZE + 55 - n % BLOCK_SIZE) % BLOCK_SIZE
  }

  /** Eight bytes, the low word first and low bytes first. */
  function LengthBytes(n: nat): (b: seq<byte>)
    ensures |b| == 8
  {
    var bits := (8 * n) % COUNT_64;
    seq(8, i requires 0 <= i < 8 => LongByte(false, if i < 4 then bits % COUNT_32 else bits / COUNT_32, i % 4))
  }

  function Padding(n: nat): (p: seq<byte>)
    ensures (n + |p|) % BLOCK_SIZE == 0
  {
    [0x80] + Zeros(Gap(n)) + LengthBytes(n)
  }

  function Digest<S>(f: Function<S>, iv: S, message: seq<byte>): seq<byte> {
    f.bytes(Fold(f, iv, message + Padding(|message|)))
  }

  lemma {:induction false} FoldAppend<S>(f: Function<S>, s: S, a: seq<byte>, b: seq<byte>)
    requires |a| % BLOCK_SIZE == 0
    ensures Fold(f, s, a + b) == Fold(f, Fold(f, s, a), b)
    decreases |a|
  {
    if a == [] {
      assert a + b == b;
    } else {
      assert (a + b)[..BLOCK_SIZE] == a[..BLOCK_SIZE];
      assert (a + b)[BLOCK_SIZE..] == a[BLOCK_SIZE..] + b;
      FoldAppend(f, f.block(s, a[..BLOCK_SIZE]), a[BLOCK_SIZE..], b);
    }
  }

  /** What was folded already, and what is still to come of m. */
  function Whole(m: seq<byte>): seq<byte> {
    m[..|m| - |m| % BLOCK_SIZE]
  }

  function Tail(m: seq<byte>): seq<byte> {
    m[|m| - |m| % BLOCK_SIZE..]
  }

  lemma WholeAfter(a: seq<byte>, b: seq<byte>)
    requires |a| % BLOCK_SIZE == 0
    ensures Whole(a + b) == a + Whole(b) && Tail(a + b) == Tail(b)
  {
    assert |a + b| % BLOCK_SIZE == |b| % BLOCK_SIZE;
  }

  /** Folding a piece after the blocks of m. */
  lemma FoldPiece<S>(f: Function<S>, s: S, m: seq<byte>, d: seq<byte>)
    ensures Fold(f, Fold(f, s, Whole(m)), Whole(Tail(m) + d)) == Fold(f, s, Whole(m + d))
    ensures Tail(Tail(m) + d) == Tail(m + d)
  {
    assert m + d == Whole(m) + (Tail(m) + d);
    WholeAfter(Whole(m), Tail(m) + d);
    FoldAppend(f, s, Whole(m), Whole(Tail(m) + d));
  }

  /** The counters: lo has 29 bits, hi 32, together the byte count modulo 2^61. */
  ghost predicate Counts(lo: nat, hi: nat, n: nat) {
    lo < COUNT_29 && hi < COUNT_32 && hi * COUNT_29 + lo == n % COUNT_61
  }

  lemma {:induction false} CountUp(lo: nat, hi: nat, n: nat, size: nat)
    requires Counts(lo, hi, n)
    ensures var lo2 := (lo + size) % COUNT_29;
            Counts(lo2, (hi + (if lo2 < lo then 1 else 0) + size / COUNT_29) % COUNT_32, n + size)
  {
    var r, q := size % COUNT_29, size / COUNT_29;
    var lo2 := (lo + size) % COUNT_29;
    var carry := if lo2 < lo then 1 else 0;
    assert size == q * COUNT_29 + r;
    assert lo + r < COUNT_29 ==> lo2 == lo + r;
    assert lo + r >= COUNT_29 ==> lo2 == lo + r - COUNT_29;
    assert lo + size == (q + carry) * COUNT_29 + lo2;
    var h := hi + carry + q;
    assert h == COUNT_32 * (h / COUNT_32) + h % COUNT_32;
    var k := n / COUNT_61;
    assert n == k * COUNT_61 + hi * COUNT_29 + lo;
    assert n + size == k * COUNT_61 + h * COUNT_29 + lo2;
    assert n + size == (k + h / COUNT_32) * COUNT_61 + (h % COUNT_32) * COUNT_29 + lo2;
    ModIs(n + size, k + h / COUNT_32, (h % COUNT_32) * COUNT_29 + lo2);
  }

  lemma ModIs(x: nat, q: nat, r: nat)
    requires x == q * COUNT_61 + r && r < COUNT_61
    ensures x % COUNT_61 == r
  {
  }

  lemma UsedIs(lo: nat, hi: nat, n: nat)
    requires Counts(lo, hi, n)
    ensures lo % BLOCK_SIZE == n % BLOCK_SIZE
  {
    var k := n / COUNT_61;
    assert n == k * COUNT_61 + hi * COUNT_29 + lo;
    assert COUNT_61 == 0x80_0000_0000_0000 * BLOCK_SIZE && COUNT_29 == 0x80_0000 * BLOCK_SIZE;
    assert n == (k * 0x80_0000_0000_0000 + hi * 0x80_0000) * BLOCK_SIZE + lo;
  }

  /** The length emitted is eight times the byte count, modulo 2^64. */
  lemma LengthEmitted(lo: nat, hi: nat, n: nat)
    requires Counts(lo, hi, n)
    ensures 8 * lo < COUNT_32
    ensures (8 * n) % COUNT_64 % COUNT_32 == 8 * lo && (8 * n) % COUNT_64 / COUNT_32 == hi
  {
    var k := n / COUNT_61;
    assert n == k * COUNT_61 + hi * COUNT_29 + lo;
    assert 8 * n == k * COUNT_64 + (hi * COUNT_32 + 8 * lo);
    assert (8 * n) % COUNT_64 == hi * COUNT_32 + 8 * lo;
    hide Counts;
    Words32(hi, 8 * lo);
  }

  lemma Words32(high: nat, low: nat)
    requires low < COUNT_32
    ensures (high * COUNT_32 + low) % COUNT_32 == low && (high * COUNT_32 + low) / COUNT_32 == high
  {
  }

  /* ----- what the definition says ----- */

  lemma ValueOfWord(a0: byte, a1: byte, a2: byte, a3: byte, b: seq<byte>)
    ensures Value(false, [a0, a1, a2, a3] + b)
         == a0 + 0x100 * a1 + 0x1_0000 * a2 + 0x100_0000 * a3 + COUNT_32 * Value(false, b)
  {
    hide Value;
    ValueLow(a3, b);
    ValueLow(a2, [a3] + b);
    ValueLow(a1, [a2] + ([a3] + b));
    ValueLow(a0, [a1] + ([a2] + ([a3] + b)));
    assert [a0] + ([a1] + ([a2] + ([a3] + b))) == [a0, a1, a2, a3] + b;
  }

  function Word(v: nat): seq<byte> {
    [LongByte(false, v, 0), LongByte(false, v, 1), LongByte(false, v, 2), LongByte(false, v, 3)]
  }

  lemma WordFirst(v: nat, b: seq<byte>)
    requires v < COUNT_32
    ensures Value(false, Word(v) + b) == v + COUNT_32 * Value(false, b)
  {
    HostLong(v);
    hide LongByte, Value;
    ValueOfWord(LongByte(false, v, 0), LongByte(false, v, 1), LongByte(false, v, 2), LongByte(false, v, 3), b);
  }

  lemma LengthWords(n: nat)
    ensures var bits := (8 * n) % COUNT_64;
            LengthBytes(n) == Word(bits % COUNT_32) + Word(bits / COUNT_32)
  {
    hide LongByte;
  }

  lemma LengthIs(n: nat)
    ensures Value(false, LengthBytes(n)) == (8 * n) % COUNT_64
  {
    var bits := (8 * n) % COUNT_64;
    var low, high := bits % COUNT_32, bits / COUNT_32;
    WordFirst(high, []);
    WordFirst(low, Word(high));
    LengthWords(n);
    assert Word(high) + [] == Word(high) && Value(false, []) == 0;
    hide Value, LengthBytes, Word;
  }

  lemma {:induction false} ValueApart(a: seq<byte>, b: seq<byte>)
    requires |a| == |b| && Value(false, a) == Value(false, b)
    ensures a == b
    decreases |a|
  {
    if a != [] {
      assert a[0] == b[0] && Value(false, a[1..]) == Value(false, b[1..]);
      ValueApart(a[1..], b[1..]);
      assert a == [a[0]] + a[1..] && b == [b[0]] + b[1..];
    }
  }

  /** A bit one, zeros up to eight bytes before the end of a block, and the
      number of bits with the low byte first; at most one block more than needed. */
  predicate Pads(p: seq<byte>, n: nat) {
    && 9 <= |p| < 9 + BLOCK_SIZE && (n + |p|) % BLOCK_SIZE == 0
    && p[0] == 0x80
    && (forall i :: 1 <= i < |p| - 8 ==> p[i] == 0)
    && Value(false, p[|p| - 8..]) == (8 * n) % COUNT_64
  }

  /** Padding is what RFC 1320 asks for in sections 3.1 and 3.2. */
  lemma PaddingIff(p: seq<byte>, n: nat)
    ensures p == Padding(n) <==> Pads(p, n)
  {
    var q := Padding(n);
    LengthIs(n);
    hide LengthBytes, Gap, Value;
    assert q[|q| - 8..] == LengthBytes(n);
    assert forall i :: 1 <= i < |q| - 8 ==> q[i] == Zeros(Gap(n))[i - 1];
    if Pads(p, n) {
      SameLength(|p|, |q|, n);
      ValueApart(p[|p| - 8..], q[|q| - 8..]);
      assert p[..|p| - 8] == q[..|q| - 8];
      assert p == p[..|p| - 8] + p[|p| - 8..] && q == q[..|q| - 8] + q[|q| - 8..];
    }
  }

  lemma SameLength(a: nat, b: nat, n: nat)
    requires 9 <= a < 9 + BLOCK_SIZE && 9 <= b < 9 + BLOCK_SIZE
    requires (n + a) % BLOCK_SIZE == 0 && (n + b) % BLOCK_SIZE == 0
    ensures a == b
  {
  }

  /** The blocks in order, each on what the one before left. */
  function Replay<S>(f: Function<S>, s: S, blocks: seq<seq<byte>>): S
    decreases |blocks|
  {
    if blocks == [] then s else f.block(Replay(f, s, blocks[..|blocks| - 1]), blocks[|blocks| - 1])
  }

  /** The digest is what these blocks leave of the initial vector. */
  ghost predicate DigestBy<S>(f: Function<S>, iv: S, message: seq<byte>, blocks: seq<seq<byte>>, digest: seq<byte>) {
    && (forall i :: 0 <= i < |blocks| ==> |blocks[i]| == BLOCK_SIZE)
    && message <= Joined(blocks) && Pads(Joined(blocks)[|message|..], |message|)
    && digest == f.bytes(Replay(f, iv, blocks))
  }

  function BlocksOf(b: seq<byte>): (blocks: seq<seq<byte>>)
    ensures forall i :: 0 <= i < |blocks| ==> |blocks[i]| == BLOCK_SIZE
    decreases |b|
  {
    if |b| < BLOCK_SIZE then [] else BlocksOf(b[..|b| - BLOCK_SIZE]) + [b[|b| - BLOCK_SIZE..]]
  }

  lemma {:induction false} BlocksJoin(b: seq<byte>)
    requires |b| % BLOCK_SIZE == 0
    ensures Joined(BlocksOf(b)) == b
    decreases |b|
  {
    if b != [] {
      BlocksJoin(b[..|b| - BLOCK_SIZE]);
      var blocks := BlocksOf(b);
      assert blocks[..|blocks| - 1] == BlocksOf(b[..|b| - BLOCK_SIZE]);
    }
  }

  lemma {:induction false} FoldReplays<S>(f: Function<S>, s: S, b: seq<byte>)
    requires |b| % BLOCK_SIZE == 0
    ensures Fold(f, s, b) == Replay(f, s, BlocksOf(b))
    decreases |b|
  {
    if b != [] {
      var init, last := b[..|b| - BLOCK_SIZE], b[|b| - BLOCK_SIZE..];
      FoldReplays(f, s, init);
      assert b == init + last;
      FoldAppend(f, s, init, last);
      assert last[..BLOCK_SIZE] == last && last[BLOCK_SIZE..] == [];
      var blocks := BlocksOf(b);
      assert blocks[..|blocks| - 1] == BlocksOf(init);
    }
  }

  /** The blocks folded are the message and its padding, in order. */
  lemma DigestIsReplay<S(!new)>(f: Function<S>, iv: S, message: seq<byte>)
    ensures exists blocks :: DigestBy(f, iv, message, blocks, Digest(f, iv, message))
  {
    var b := message + Padding(|message|);
    PaddingIff(Padding(|message|), |message|);
    BlocksJoin(b);
    FoldReplays(f, iv, b);
    hide Pads, Padding, Fold, Replay, BlocksOf;
    assert b[|message|..] == Padding(|message|);
    assert DigestBy(f, iv, message, BlocksOf(b), Digest(f, iv, message));
  }

  /* ----- the program ----- */

  class Context<!S> {
    const f: Function<S>
    const iv: S
    var chain: S
    var lo: nat
    var hi: nat
    const buffer: array<byte>
    /** The message so far. */
    ghost var message: seq<byte>

    ghost predicate Valid()
      reads this, buffer
    {
      && buffer.Length == BLOCK_SIZE
      && Counts(lo, hi, |message|)
      && chain == Fold(f, iv, Whole(message))
      && buffer[..|message| % BLOCK_SIZE] == Tail(message)
    }

    /** md4InitContext: any initial vector. */
    constructor (f: Function<S>, iv: S)
      ensures Valid() && message == [] && this.f == f && this.iv == iv && fresh(buffer)
    {
      this.f, this.iv := f, iv;
      chain, lo, hi := iv, 0, 0;
      buffer := new byte[BLOCK_SIZE];
      message := [];
    }

    /** body: one or more complete blocks. */
    method Body(data: seq<byte>)
      requires |data| % BLOCK_SIZE == 0
      modifies this`chain
      ensures chain == Fold(f, old(chain), data)
    {
      var at := 0;
      assert data[0..] == data;
      while at < |data|
        invariant 0 <= at <= |data| && at % BLOCK_SIZE == 0
        invariant Fold(f, chain, data[at..]) == Fold(f, old(chain), data)
      {
        assert data[at..][..BLOCK_SIZE] == data[at..at + BLOCK_SIZE];
        assert data[at..][BLOCK_SIZE..] == data[at + BLOCK_SIZE..];
        chain := f.block(chain, data[at..at + BLOCK_SIZE]);
        at := at + BLOCK_SIZE;
      }
      assert data[at..] == [];
    }

    method CountBytes(size: nat)
      requires Counts(lo, hi, |message|)
      modifies this`lo, this`hi
      ensures Counts(lo, hi, |message| + size)
    {
      var savedLo := lo;
      CountUp(lo, hi, |message|, size);
      lo := (savedLo + size) % COUNT_29;
      hi := (hi + (if lo < savedLo then 1 else 0) + size / COUNT_29) % COUNT_32;
    }

    /** The complete blocks of data, the rest to the buffer. */
    method Remainder(data: seq<byte>)
      requires buffer.Length == BLOCK_SIZE
      modifies this`chain, buffer
      ensures chain == Fold(f, old(chain), Whole(data)) && buffer[..|data| % BLOCK_SIZE] == Tail(data)
    {
      if |data| >= BLOCK_SIZE {
        Body(data[..|data| - |data| % BLOCK_SIZE]);
      }
      PutBytes(data[|data| - |data| % BLOCK_SIZE..], buffer, 0);
    }

    /** Fills the buffer, then goes on with the rest of data. */
    method Absorb(used: nat, data: seq<byte>)
      requires buffer.Length == BLOCK_SIZE && used < BLOCK_SIZE
      modifies this`chain, buffer
      ensures var s := old(buffer[..used]) + data;
              chain == Fold(f, old(chain), Whole(s)) && buffer[..|s| % BLOCK_SIZE] == Tail(s)
    {
      ghost var pending := buffer[..used];
      if used == 0 {
        assert pending + data == data;
        Remainder(data);
        return;
      }
      var available := BLOCK_SIZE - used;
      if |data| < available {
        PutBytes(data, buffer, used);
        assert buffer[..used + |data|] == pending + data;
        return;
      }
      PutBytes(data[..available], buffer, used);
      ghost var first := pending + data[..available];
      assert buffer[..] == first;
      assert pending + data == first + data[available..];
      hide Whole, Tail;
      Body(buffer[..]);
      WholeAfter(first, data[available..]);
      FoldAppend(f, old(chain), first, Whole(data[available..]));
      Remainder(data[available..]);
    }

    /** MD4_Update_Rasta. */
    method Update(data: seq<byte>)
      requires Valid()
      modifies this`chain, this`lo, this`hi, this`message, buffer
      ensures Valid() && message == old(message) + data
    {
      UsedIs(lo, hi, |message|);
      FoldPiece(f, iv, message, data);
      var used := lo % BLOCK_SIZE;
      CountBytes(|data|);
      assert |Tail(message)| == used;
      hide Counts, Whole, Tail, Fold;
      Absorb(used, data);
      message := message + data;
    }

    /** The last block: zeros up to the length, and the length. */
    method Finish(used: nat, ghost n: nat)
      requires buffer.Length == BLOCK_SIZE && used <= BLOCK_SIZE - 8 && Counts(lo, hi, n)
      modifies this`chain, this`lo, buffer
      ensures chain == Fold(f, old(chain), old(buffer[..used]) + Zeros(BLOCK_SIZE - 8 - used) + LengthBytes(n))
    {
      LengthEmitted(lo, hi, n);
      ghost var start := buffer[..used];
      PutBytes(Zeros(BLOCK_SIZE - 8 - used), buffer, used);
      lo := lo * 8;
      PutLong(false, lo, buffer, 56);
      PutLong(false, hi, buffer, 60);
      assert buffer[..56] == start + Zeros(BLOCK_SIZE - 8 - used);
      hide LongByte;
      forall i | 0 <= i < 8 ensures buffer[56..][i] == LengthBytes(n)[i] {
        if i < 4 {
          assert buffer[56 + i] == LongByte(false, lo, i);
        } else {
          assert buffer[60 + (i - 4)] == LongByte(false, hi, i - 4);
        }
      }
      assert buffer[56..] == LengthBytes(n);
      assert buffer[..] == buffer[..56] + buffer[56..];
      Body(buffer[..]);
    }

    /** MD4_Final_Rasta; the context is cleared afterwards and no longer valid. */
    method Final() returns (result: seq<byte>)
      requires Valid()
      modifies this`chain, this`lo, buffer
      ensures result == Digest(f, iv, message)
    {
      ghost var n := |message|;
      ghost var head := Tail(message);
      UsedIs(lo, hi, n);
      PaddingFolds(f, iv, message);
      var used := lo % BLOCK_SIZE;
      buffer[used] := 0x80;
      used := used + 1;
      assert buffer[..used] == head + [0x80];
      hide Counts, Fold, Whole, Tail;
      var available := BLOCK_SIZE - used;
      if available < 8 {
        PutBytes(Zeros(available), buffer, used);
        assert buffer[..] == head + [0x80] + Zeros(available);
        Body(buffer[..]);
        used := 0;
        assert buffer[..used] == [];
        assert [] + Zeros(BLOCK_SIZE - 8) == Zeros(BLOCK_SIZE - 8);
      }
      Finish(used, n);
      result := f.bytes(chain);
    }
  }

  /** The padding ends one block, or one and the next. */
  lemma PaddingFolds<S>(f: Function<S>, iv: S, m: seq<byte>)
    ensures var n := |m|; var head := Tail(m) + [0x80]; var all := Fold(f, iv, m + Padding(n));
            var before := Fold(f, iv, Whole(m));
            if BLOCK_SIZE - |head| < 8 then
              all == Fold(f, Fold(f, before, head + Zeros(BLOCK_SIZE - |head|)), Zeros(BLOCK_SIZE - 8) + LengthBytes(n))
            else
              all == Fold(f, before, head + Zeros(BLOCK_SIZE - 8 - |head|) + LengthBytes(n))
  {
    var n := |m|;
    var head := Tail(m) + [0x80];
    var end := Zeros(Gap(n)) + LengthBytes(n);
    PaddedIs(m);
    assert |Whole(m)| % BLOCK_SIZE == 0 && |head| == n % BLOCK_SIZE + 1;
    hide *;
    FoldAppend(f, iv, Whole(m), head + end);
    EndFolds(f, Fold(f, iv, Whole(m)), head, n);
  }

  lemma PaddedIs(m: seq<byte>)
    ensures m + Padding(|m|) == Whole(m) + ((Tail(m) + [0x80]) + (Zeros(Gap(|m|)) + LengthBytes(|m|)))
  {
    hide Gap, LengthBytes, Zeros;
    var z, l := Zeros(Gap(|m|)), LengthBytes(|m|);
    assert m == Whole(m) + Tail(m);
    assert Padding(|m|) == [0x80] + (z + l);
    hide *;
    assert (Whole(m) + Tail(m)) + ([0x80] + (z + l)) == Whole(m) + ((Tail(m) + [0x80]) + (z + l));
  }

  lemma EndFolds<S>(f: Function<S>, s: S, head: seq<byte>, n: nat)
    requires |head| == n % BLOCK_SIZE + 1
    ensures var all := Fold(f, s, head + (Zeros(Gap(n)) + LengthBytes(n)));
            if BLOCK_SIZE - |head| < 8 then
              all == Fold(f, Fold(f, s, head + Zeros(BLOCK_SIZE - |head|)), Zeros(BLOCK_SIZE - 8) + LengthBytes(n))
            else
              all == Fold(f, s, head + Zeros(BLOCK_SIZE - 8 - |head|) + LengthBytes(n))
  {
    hide Fold, LengthBytes;
    GapIs(n);
    if BLOCK_SIZE - |head| < 8 {
      TwoBlocks(head, n);
      FoldAppend(f, s, head + Zeros(BLOCK_SIZE - |head|), Zeros(BLOCK_SIZE - 8) + LengthBytes(n));
    } else {
      var gap := Zeros(BLOCK_SIZE - 8 - |head|);
      assert head + (gap + LengthBytes(n)) == head + gap + LengthBytes(n);
    }
  }

  lemma TwoBlocks(head: seq<byte>, n: nat)
    requires BLOCK_SIZE - 8 < |head| <= BLOCK_SIZE && Gap(n) == 2 * BLOCK_SIZE - 8 - |head|
    ensures head + (Zeros(Gap(n)) + LengthBytes(n))
         == (head + Zeros(BLOCK_SIZE - |head|)) + (Zeros(BLOCK_SIZE - 8) + LengthBytes(n))
  {
    hide LengthBytes, Gap;
    assert Zeros(Gap(n)) == Zeros(BLOCK_SIZE - |head|) + Zeros(BLOCK_SIZE - 8);
  }

  lemma GapIs(n: nat)
    ensures var used := n % BLOCK_SIZE + 1;
            Gap(n) == if BLOCK_SIZE - used < 8 then 2 * BLOCK_SIZE - 8 - used else BLOCK_SIZE - 8 - used
  {
  }

  /** generateMD4WithVector: nothing, half or all of the digest; zeros for type 0. */
  method Generate<S>(f: Function<S>, iv: S, data: seq<byte>, kind: nat) returns (result: seq<byte>)
    requires forall s :: |f.bytes(s)| == 16
    ensures kind == 0 ==> result == Zeros(8)
    ensures kind == 1 ==> result == Digest(f, iv, data)[..8]
    ensures kind == 2 ==> result == Digest(f, iv, data)
    ensures kind > 2 ==> result == []
  {
    var context := new Context(f, iv);
    context.Update(data);
    var code := context.Final();
    assert [] + data == data;
    result := if kind == 0 then Zeros(8) else if kind == 1 then code[..8] else if kind == 2 then code else [];
  }

  /** Any way of cutting a message into updates gives the digest of the whole. */
  method DigestOfPieces<S>(f: Function<S>, iv: S, pieces: seq<seq<byte>>) returns (result: seq<byte>)
    ensures result == Digest(f, iv, Joined(pieces))
  {
    var context := new Context(f, iv);
    for i := 0 to |pieces|
      invariant context.Valid() && context.message == Joined(pieces[..i])
      invariant context.f == f && context.iv == iv && fresh(context) && fresh(context.buffer)
    {
      context.Update(pieces[i]);
      assert pieces[..i + 1][..i] == pieces[..i];
    }
    assert pieces[..|pieces|] == pieces;
    result := context.Final();
  }
}
