/** Which damage the checksums find. */
module CrcErrors {
  import opened CrcBits
  import opened CrcWords
  import opened CrcMirror
  import opened Crc

  lemma OfferedIsProper(k: Kind)
    requires Offered(k)
    ensures Proper(k) && k.polynom & 1 == 1
  {
  }

  lemma DivisorEndsInOne(k: Kind)
    requires Offered(k)
    ensures Proper(k) && Divisor(k)[k.width - 1]
  {
    OfferedIsProper(k);
    assert Halves(k.polynom, 0) == k.polynom;
    assert Bit(k.polynom, 0);
  }

  /** Dividing by x^w + polynom, the message times x^w plus the initial value
      leaves the remainder, and only that remainder fits. */
  lemma {:induction false} RemainderIsTheRemainder(k: Kind, msg: seq<bv8>, q: Bits, rem: Bits)
    requires Proper(k) && |q| == 8 * |msg| && |rem| == k.width
    ensures Dividend(BitsOf(k.initial, k.width), MessageBits(k.refin, msg)) == Recombined(q, Divisor(k), rem)
       <==> rem == Remainder(k, msg) && q == Quotient(Divisor(k), BitsOf(k.initial, k.width), MessageBits(k.refin, msg))
  {
    var g, r, m := Divisor(k), BitsOf(k.initial, k.width), MessageBits(k.refin, msg);
    hide BitsOf, MessageBits, Quotient, Divide, Recombined, Dividend, Fits;
    DivisionIsRemainder(g, r, m);
    if Dividend(r, m) == Recombined(q, g, rem) {
      RemainderIsUnique(q, rem, Quotient(g, r, m), Divide(g, r, m), g);
    }
  }

  lemma XorCancel(a: Bits, b: Bits, c: Bits)
    requires |a| == |b| == |c|
    ensures Xor(a, c) == Xor(b, c) <==> a == b
  {
    if Xor(a, c) == Xor(b, c) {
      forall i | 0 <= i < |a| ensures a[i] == b[i] {
        assert Xor(a, c)[i] == Xor(b, c)[i];
      }
    }
  }

  lemma ReverseCancel(a: Bits, b: Bits)
    requires |a| == |b|
    ensures Reverse(a) == Reverse(b) <==> a == b
  {
    assert Reverse(Reverse(a)) == a && Reverse(Reverse(b)) == b;
  }

  /** Reflecting the output and the final xor hide no difference. */
  lemma {:induction false} SameChecksum(k: Kind, m1: seq<bv8>, m2: seq<bv8>)
    requires Proper(k) && |m1| == |m2|
    ensures var difference := Xor(MessageBits(k.refin, m1), MessageBits(k.refin, m2));
            Checksum(k, m1) == Checksum(k, m2) <==> Divide(Divisor(k), Zeros(k.width), difference) == Zeros(k.width)
  {
    var g, r := Divisor(k), BitsOf(k.initial, k.width);
    var r1, r2 := Remainder(k, m1), Remainder(k, m2);
    SameRemainder(g, r, MessageBits(k.refin, m1), MessageBits(k.refin, m2));
    ReverseCancel(r1, r2);
    XorCancel(if k.refout then Reverse(r1) else r1, if k.refout then Reverse(r2) else r2, BitsOf(k.finalXor, k.width));
    hide Divide, Xor, Zeros, Reverse, BitsOf, MessageBits;
  }

  /** The bits in which the messages differ lie within a window of w bits. */
  ghost predicate Burst(k: Kind, m1: seq<bv8>, m2: seq<bv8>, before: nat, damage: Bits, after: nat)
    requires |m1| == |m2|
  {
    && |damage| <= k.width
    && Xor(MessageBits(k.refin, m1), MessageBits(k.refin, m2)) == Zeros(before) + damage + Zeros(after)
  }

  /** Damage within w consecutive bits is always found. */
  lemma BurstIsFound(k: Kind, m1: seq<bv8>, m2: seq<bv8>, before: nat, damage: Bits, after: nat)
    requires Offered(k) && |m1| == |m2| && Burst(k, m1, m2, before, damage, after)
    ensures Proper(k) && (Checksum(k, m1) == Checksum(k, m2) <==> m1 == m2)
  {
    DivisorEndsInOne(k);
    SameChecksum(k, m1, m2);
    BurstLeavesRemainder(Divisor(k), before, damage, after);
    SameBits(k.refin, m1, m2);
    XorZero(MessageBits(k.refin, m1), MessageBits(k.refin, m2));
    ZerosAround(before, damage, after);
    hide Divide, Xor, Zeros, BitsOf, MessageBits, Checksum, Divisor;
  }

  lemma ZerosAround(before: nat, d: Bits, after: nat)
    ensures Zeros(before) + d + Zeros(after) == Zeros(before + |d| + after) <==> d == Zeros(|d|)
  {
    var all := Zeros(before) + d + Zeros(after);
    if all == Zeros(before + |d| + after) {
      forall i | 0 <= i < |d| ensures !d[i] {
        assert d[i] == all[before + i];
      }
    }
  }

  lemma SameEntry(refin: bool, a: bv8, b: bv8)
    requires EntryOrder(refin, a) == EntryOrder(refin, b)
    ensures a == b
  {
    assert BitsOf(Wide(a), 8) == BitsOf(Wide(b), 8) by {
      hide BitsOf;
      ReverseCancel(BitsOf(Wide(a), 8), BitsOf(Wide(b), 8));
    }
    WideSmall(a);
    WideSmall(b);
    ByteInjective(Wide(a), Wide(b));
  }

  lemma {:induction false} SameBits(refin: bool, m1: seq<bv8>, m2: seq<bv8>)
    requires |m1| == |m2|
    ensures MessageBits(refin, m1) == MessageBits(refin, m2) <==> m1 == m2
    decreases |m1|
  {
    if m1 != [] && MessageBits(refin, m1) == MessageBits(refin, m2) {
      var n := |m1| - 1;
      var h1, h2 := MessageBits(refin, m1[..n]), MessageBits(refin, m2[..n]);
      var e1, e2 := EntryOrder(refin, m1[n]), EntryOrder(refin, m2[n]);
      assert h1 + e1 == h2 + e2;
      assert h1 == (h1 + e1)[..8 * n] && h2 == (h2 + e2)[..8 * n];
      assert e1 == (h1 + e1)[8 * n..] && e2 == (h2 + e2)[8 * n..];
      SameBits(refin, m1[..n], m2[..n]);
      SameEntry(refin, m1[n], m2[n]);
      assert m1 == m1[..n] + [m1[n]] && m2 == m2[..n] + [m2[n]];
    }
  }

  lemma {:induction false} BitsConcat(refin: bool, a: seq<bv8>, b: seq<bv8>)
    ensures MessageBits(refin, a + b) == MessageBits(refin, a) + MessageBits(refin, b)
    decreases |b|
  {
    hide EntryOrder;
    if b == [] {
      assert a + b == a;
    } else {
      assert (a + b)[..|a + b| - 1] == a + b[..|b| - 1];
      BitsConcat(refin, a, b[..|b| - 1]);
    }
  }

  lemma XorConcat(a: Bits, b: Bits, c: Bits, d: Bits, e: Bits)
    requires |b| == |c|
    ensures Xor(a + b + e, a + c + e) == Zeros(|a|) + Xor(b, c) + Zeros(|e|)
  {
  }

  /** Two messages that differ only in width/8 consecutive bytes never share a
      checksum, whatever comes before and after. */
  lemma {:induction false} DamagedBytesAreFound(k: Kind, before: seq<bv8>, d1: seq<bv8>, d2: seq<bv8>, after: seq<bv8>)
    requires Offered(k) && |d1| == |d2| && 8 * |d1| <= k.width && d1 != d2
    ensures Proper(k) && Checksum(k, before + d1 + after) != Checksum(k, before + d2 + after)
  {
    var m1, m2 := before + d1 + after, before + d2 + after;
    BitsConcat(k.refin, before + d1, after);
    BitsConcat(k.refin, before + d2, after);
    BitsConcat(k.refin, before, d1);
    BitsConcat(k.refin, before, d2);
    var x, y := MessageBits(k.refin, before), MessageBits(k.refin, after);
    var b, c := MessageBits(k.refin, d1), MessageBits(k.refin, d2);
    XorConcat(x, b, c, [], y);
    assert m1[|before|..|before| + |d1|] == d1 && m2[|before|..|before| + |d1|] == d2;
    hide Divide, Xor, Zeros, BitsOf, MessageBits, Checksum;
    BurstIsFound(k, m1, m2, |x|, Xor(b, c), |y|);
  }

  /* ----- an odd number of wrong bits ----- */

  lemma {:induction false} ParityConcat(a: Bits, b: Bits)
    ensures Parity(a + b) == (Parity(a) != Parity(b))
    decreases |b|
  {
    if b == [] {
      assert a + b == a;
    } else {
      assert (a + b)[..|a + b| - 1] == a + b[..|b| - 1];
      ParityConcat(a, b[..|b| - 1]);
    }
  }

  function WordParity(r: Word, n: nat): bool
    decreases n
  {
    n > 0 && (WordParity(Half(r), n - 1) != Odd(r))
  }

  lemma {:induction false} ParityOfWord(r: Word, n: nat)
    ensures Parity(BitsOf(r, n)) == WordParity(r, n)
    decreases n
  {
    hide Half, Odd;
    assert BitsOf(r, 0) == [];
    if n > 0 {
      forall k: nat ensures Bit(Half(r), k) == Bit(r, k + 1) {
        HalfBits(r, k);
      }
      assert Halves(r, 0) == r;
      var s := BitsOf(r, n);
      assert s[..n - 1] == BitsOf(Half(r), n - 1);
      assert s[n - 1] == Bit(r, 0) == Odd(r);
      ParityOfWord(Half(r), n - 1);
    }
  }

  lemma PolynomParities()
    ensures WordParity(OPTION_D.polynom, 16) && WordParity(OPTION_E.polynom, 16)
    ensures WordParity(OPTION_C.polynom, 32) && !WordParity(OPTION_B.polynom, 32)
  {
    assert !WordParity(0x1E, 8);
    assert WordParity(0x1EDC, 16);
    assert WordParity(0x1EDC6F, 24);
    assert !WordParity(0xEE, 8);
    assert WordParity(0xEE5B, 16);
    assert WordParity(0xEE5B42, 24);
  }

  /** Options C, D and E find every odd number of wrong bits, option B does not. */
  lemma OddErrorsIff(k: Kind)
    requires Offered(k)
    ensures FindsOddErrors(Divisor(k)) <==> k != OPTION_B
  {
    hide BitsOf, Parity, WordParity, FindsOddErrors;
    FindsOddErrorsIff(Divisor(k));
    ParityOfWord(k.polynom, k.width);
    PolynomParities();
  }

  lemma {:induction false} OddDamageIsFound(k: Kind, m1: seq<bv8>, m2: seq<bv8>)
    requires Offered(k) && k != OPTION_B && |m1| == |m2|
    requires Parity(Xor(MessageBits(k.refin, m1), MessageBits(k.refin, m2)))
    ensures Proper(k) && Checksum(k, m1) != Checksum(k, m2)
  {
    OfferedIsProper(k);
    OddErrorsIff(k);
    SameChecksum(k, m1, m2);
    hide Divide, Xor, Zeros, BitsOf, MessageBits, Checksum, Divisor, Parity;
  }
}
