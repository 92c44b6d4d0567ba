/** Division of binary polynomials, bit by bit.

  A polynomial is a list of coefficients, highest power first. The divisor is
  x^w + g, where g lists its w lower coefficients.
*/
module CrcBits {

  type Bits = seq<bool>

  function Zeros(n: nat): (out: Bits)
    ensures |out| == n
  {
    seq(n, _ => false)
  }

  function Xor(a: Bits, b: Bits): (out: Bits)
    requires |a| == |b|
    ensures |out| == |a|
  {
    seq(|a|, i requires 0 <= i < |a| => a[i] != b[i])
  }

  /** One bit of the message enters a register of w bits. */
  function Shift(g: Bits, r: Bits, b: bool): (out: Bits)
    requires |r| == |g| > 0
    ensures |out| == |g|
  {
    Xor(r[1..] + [false], if r[0] != b then g else Zeros(|g|))
  }

  /** Bit-serial division: the register after the message m. */
  function Divide(g: Bits, r: Bits, m: Bits): (out: Bits)
    requires |r| == |g| > 0
    ensures |out| == |g|
    decreases |m|
  {
    if m == [] then r else Shift(g, Divide(g, r, m[..|m| - 1]), m[|m| - 1])
  }

  lemma {:induction false} DivideAppend(g: Bits, r: Bits, a: Bits, b: Bits)
    requires |r| == |g| > 0
    ensures Divide(g, r, a + b) == Divide(g, Divide(g, r, a), b)
    decreases |b|
  {
    if b == [] {
      assert a + b == a;
    } else {
      assert (a + b)[..|a + b| - 1] == a + b[..|b| - 1];
      DivideAppend(g, r, a, b[..|b| - 1]);
    }
  }

  /* ----- the register is the remainder ----- */

  /** The product of q and the divisor. */
  function Times(q: Bits, g: Bits): (out: Bits)
    ensures |out| == |q| + |g|
    decreases |q|
  {
    if q == [] then Zeros(|g|)
    else
      var n := |q| - 1;
      Xor(Times(q[..n], g) + [false], if q[n] then Zeros(n) + [true] + g else Zeros(n + 1 + |g|))
  }

  /** The bits that decided whether the divisor was subtracted. */
  function Quotient(g: Bits, r: Bits, m: Bits): (q: Bits)
    requires |r| == |g| > 0
    ensures |q| == |m|
    decreases |m|
  {
    if m == [] then []
    else
      var m1 := m[..|m| - 1];
      Quotient(g, r, m1) + [Divide(g, r, m1)[0] != m[|m| - 1]]
  }

  /** The dividend: m * x^w + r * x^n. */
  function Dividend(r: Bits, m: Bits): (out: Bits)
    ensures |out| == |m| + |r|
  {
    Xor(m + Zeros(|r|), r + Zeros(|m|))
  }

  /** q * divisor + s. */
  function Recombined(q: Bits, g: Bits, s: Bits): (out: Bits)
    requires |s| == |g|
    ensures |out| == |q| + |g|
  {
    Xor(Times(q, g), Zeros(|q|) + s)
  }

  lemma RecombinedStep(q: Bits, g: Bits, s: Bits, b: bool)
    requires |s| == |g| > 0
    ensures var up := Recombined(q, g, s) + [false];
            Recombined(q + [s[0] != b], g, Shift(g, s, b)) == up[|q| := up[|q|] != b]
  {
    var t := s[0] != b;
    var s1 := Shift(g, s, b);
    var up := Recombined(q, g, s) + [false];
    assert (q + [t])[..|q|] == q;
    assert Times(q + [t], g) == Xor(Times(q, g) + [false], if t then Zeros(|q|) + [true] + g else Zeros(|q| + 1 + |g|));
    forall i | 0 <= i < |up|
      ensures Recombined(q + [t], g, s1)[i] == up[|q| := up[|q|] != b][i]
    {
      if i > |q| {
        assert s1[i - |q| - 1] == ((s[1..] + [false])[i - |q| - 1] != (t && g[i - |q| - 1]));
      }
    }
  }

  lemma DividendStep(r: Bits, m: Bits, b: bool)
    requires |r| > 0
    ensures var up := Dividend(r, m) + [false];
            Dividend(r, m + [b]) == up[|m| := up[|m|] != b]
  {
  }

  /** Division with remainder: the final register is what the dividend leaves. */
  lemma {:induction false} DivisionIsRemainder(g: Bits, r: Bits, m: Bits)
    requires |r| == |g| > 0
    ensures Dividend(r, m) == Recombined(Quotient(g, r, m), g, Divide(g, r, m))
    decreases |m|
  {
    if m == [] {
      assert Dividend(r, m) == r;
      assert Recombined([], g, r) == r;
    } else {
      var m1 := m[..|m| - 1];
      DivisionIsRemainder(g, r, m1);
      assert m == m1 + [m[|m| - 1]];
      DividendStep(r, m1, m[|m| - 1]);
      RecombinedStep(Quotient(g, r, m1), g, Divide(g, r, m1), m[|m| - 1]);
    }
  }

  lemma {:induction false} TimesZeros(n: nat, g: Bits)
    ensures Times(Zeros(n), g) == Zeros(n + |g|)
  {
    if n > 0 {
      assert Zeros(n)[..n - 1] == Zeros(n - 1);
      TimesZeros(n - 1, g);
    }
  }

  lemma {:induction false} TimesXor(a: Bits, b: Bits, g: Bits)
    requires |a| == |b|
    ensures Times(Xor(a, b), g) == Xor(Times(a, g), Times(b, g))
    decreases |a|
  {
    if a != [] {
      var n := |a| - 1;
      assert Xor(a, b)[..n] == Xor(a[..n], b[..n]);
      TimesXor(a[..n], b[..n], g);
    }
  }

  lemma {:induction false} LeadingBit(q: Bits, g: Bits, i: nat)
    requires i < |q| && q[i] && forall j :: 0 <= j < i ==> !q[j]
    ensures Times(q, g)[i]
    decreases |q|
  {
    var n := |q| - 1;
    if i < n {
      LeadingBit(q[..n], g, i);
    } else {
      assert q[..n] == Zeros(n);
      TimesZeros(n, g);
    }
  }

  lemma FirstTrue(q: Bits) returns (i: nat)
    requires q != Zeros(|q|)
    ensures i < |q| && q[i] && forall j :: 0 <= j < i ==> !q[j]
  {
    i := 0;
    while !q[i]
      invariant i < |q| && (forall j :: 0 <= j < i ==> !q[j]) && exists k :: i <= k < |q| && q[k]
      decreases |q| - i
    {
      i := i + 1;
    }
  }

  lemma XorZero(a: Bits, b: Bits)
    requires |a| == |b|
    ensures Xor(a, b) == Zeros(|a|) <==> a == b
  {
    if Xor(a, b) == Zeros(|a|) {
      forall i | 0 <= i < |a| ensures a[i] == b[i] {
        assert !Xor(a, b)[i];
      }
    }
  }

  /** No other remainder below x^w fits: quotient and remainder are unique. */
  lemma RemainderIsUnique(q: Bits, s: Bits, q2: Bits, s2: Bits, g: Bits)
    requires |q| == |q2| && |s| == |s2| == |g|
    requires Recombined(q, g, s) == Recombined(q2, g, s2)
    ensures q == q2 && s == s2
  {
    var d := Xor(q, q2);
    TimesXor(q, q2, g);
    forall i | 0 <= i < |q| ensures !Times(d, g)[i] {
      assert Recombined(q, g, s)[i] == Recombined(q2, g, s2)[i];
    }
    if d != Zeros(|d|) {
      var i := FirstTrue(d);
      LeadingBit(d, g, i);
      assert false;
    }
    XorZero(q, q2);
    forall k | 0 <= k < |s| ensures s[k] == s2[k] {
      assert Recombined(q, g, s)[|q| + k] == Recombined(q2, g, s2)[|q| + k];
    }
  }

  /* ----- errors that change the remainder ----- */

  lemma ShiftXor(g: Bits, r: Bits, b: bool, r2: Bits, b2: bool)
    requires |r| == |r2| == |g| > 0
    ensures Xor(Shift(g, r, b), Shift(g, r2, b2)) == Shift(g, Xor(r, r2), b != b2)
  {
  }

  lemma {:induction false} DivideXor(g: Bits, r: Bits, m: Bits, r2: Bits, m2: Bits)
    requires |r| == |r2| == |g| > 0 && |m| == |m2|
    ensures Xor(Divide(g, r, m), Divide(g, r2, m2)) == Divide(g, Xor(r, r2), Xor(m, m2))
    decreases |m|
  {
    if m != [] {
      var n := |m| - 1;
      assert Xor(m, m2)[..n] == Xor(m[..n], m2[..n]);
      DivideXor(g, r, m[..n], r2, m2[..n]);
      ShiftXor(g, Divide(g, r, m[..n]), m[n], Divide(g, r2, m2[..n]), m2[n]);
    }
  }

  /** Two messages get the same remainder exactly when their difference gets none. */
  lemma {:induction false} SameRemainder(g: Bits, r: Bits, m: Bits, m2: Bits)
    requires |r| == |g| > 0 && |m| == |m2|
    ensures Divide(g, r, m) == Divide(g, r, m2) <==> Divide(g, Zeros(|g|), Xor(m, m2)) == Zeros(|g|)
  {
    DivideXor(g, r, m, r, m2);
    assert Xor(r, r) == Zeros(|g|);
    hide Divide, Xor, Zeros;
    XorZero(Divide(g, r, m), Divide(g, r, m2));
  }

  /** With constant term 1 the step can be undone while zeros follow. */
  lemma ShiftBack(g: Bits, r: Bits, b: bool, u: Bits)
    requires |r| == |g| > |u| && g[|g| - 1]
    requires Shift(g, r, b) == u + Zeros(|g| - |u|)
    ensures r == [b] + u + Zeros(|g| - |u| - 1)
  {
    var w := |g|;
    assert !Shift(g, r, b)[w - 1];
    assert r[0] == b;
    forall i | 0 < i < w ensures r[i] == ([b] + u + Zeros(w - |u| - 1))[i] {
      assert Shift(g, r, b)[i - 1] == (u + Zeros(w - |u|))[i - 1];
    }
  }

  lemma {:induction false} Unwind(g: Bits, d: Bits, u: Bits)
    requires |d| + |u| <= |g| && |g| > 0 && g[|g| - 1]
    requires Divide(g, Zeros(|g|), d) == u + Zeros(|g| - |u|)
    ensures d == Zeros(|d|)
    decreases |d|
  {
    if d != [] {
      var n := |d| - 1;
      var r := Divide(g, Zeros(|g|), d[..n]);
      ShiftBack(g, r, d[n], u);
      var u1 := [d[n]] + u;
      assert r == u1 + Zeros(|g| - |u1|);
      Unwind(g, d[..n], u1);
      UnwindHead(g, n, u1);
    }
  }

  lemma UnwindHead(g: Bits, n: nat, u: Bits)
    requires 0 < |u| <= |g|
    requires Divide(g, Zeros(|g|), Zeros(n)) == u + Zeros(|g| - |u|)
    ensures !u[0]
  {
    DivideZeros(g, n);
    assert (u + Zeros(|g| - |u|))[0] == u[0];
  }

  lemma {:induction false} DivideZeros(g: Bits, n: nat)
    requires |g| > 0
    ensures Divide(g, Zeros(|g|), Zeros(n)) == Zeros(|g|)
  {
    if n > 0 {
      assert Zeros(n)[..n - 1] == Zeros(n - 1);
      DivideZeros(g, n - 1);
    }
  }

  lemma {:induction false} ZerosKeepNonzero(g: Bits, r: Bits, n: nat)
    requires |r| == |g| > 0 && g[|g| - 1]
    requires Divide(g, r, Zeros(n)) == Zeros(|g|)
    ensures r == Zeros(|g|)
  {
    if n > 0 {
      assert Zeros(n)[..n - 1] == Zeros(n - 1);
      var r1 := Divide(g, r, Zeros(n - 1));
      assert Zeros(|g|) == [] + Zeros(|g|);
      ShiftBack(g, r1, false, []);
      assert r1 == Zeros(|g|);
      ZerosKeepNonzero(g, r, n - 1);
    }
  }

  lemma {:induction false} DivideAround(g: Bits, before: nat, d: Bits, after: nat)
    requires |g| > 0
    ensures Divide(g, Zeros(|g|), Zeros(before) + d + Zeros(after))
         == Divide(g, Divide(g, Zeros(|g|), d), Zeros(after))
  {
    DivideAppend(g, Zeros(|g|), Zeros(before) + d, Zeros(after));
    DivideAppend(g, Zeros(|g|), Zeros(before), d);
    DivideZeros(g, before);
  }

  lemma {:induction false} ShortRemains(g: Bits, d: Bits)
    requires 0 < |g| && g[|g| - 1] && |d| <= |g|
    requires Divide(g, Zeros(|g|), d) == Zeros(|g|)
    ensures d == Zeros(|d|)
  {
    var u: Bits := [];
    assert u + Zeros(|g| - |u|) == Zeros(|g|);
    Unwind(g, d, u);
  }

  /** Damage confined to w consecutive bits leaves a remainder. */
  lemma {:induction false} BurstLeavesRemainder(g: Bits, before: nat, d: Bits, after: nat)
    requires 0 < |g| && g[|g| - 1] && |d| <= |g|
    ensures Divide(g, Zeros(|g|), Zeros(before) + d + Zeros(after)) == Zeros(|g|) <==> d == Zeros(|d|)
  {
    DivideAround(g, before, d, after);
    var r := Divide(g, Zeros(|g|), d);
    if d == Zeros(|d|) {
      DivideZeros(g, |d|);
      DivideZeros(g, after);
    } else {
      if r == Zeros(|g|) {
        ShortRemains(g, d);
      }
      if Divide(g, r, Zeros(after)) == Zeros(|g|) {
        ZerosKeepNonzero(g, r, after);
      }
    }
  }

  /* ----- an odd number of damaged bits ----- */

  function Parity(s: Bits): bool
    decreases |s|
  {
    s != [] && (Parity(s[..|s| - 1]) != s[|s| - 1])
  }

  lemma {:induction false} ParityXor(a: Bits, b: Bits)
    requires |a| == |b|
    ensures Parity(Xor(a, b)) == (Parity(a) != Parity(b))
    decreases |a|
  {
    if a != [] {
      var n := |a| - 1;
      assert Xor(a, b)[..n] == Xor(a[..n], b[..n]);
      ParityXor(a[..n], b[..n]);
    }
  }

  lemma {:induction false} ParityHead(s: Bits)
    requires s != []
    ensures Parity(s) == (s[0] != Parity(s[1..]))
    decreases |s|
  {
    var n := |s| - 1;
    if n > 0 {
      ParityHead(s[..n]);
      assert s[1..][..n - 1] == s[..n][1..];
    }
  }

  lemma {:induction false} ParityZeros(n: nat)
    ensures !Parity(Zeros(n))
  {
    if n > 0 {
      assert Zeros(n)[..n - 1] == Zeros(n - 1);
      ParityZeros(n - 1);
    }
  }

  lemma ShiftParity(g: Bits, r: Bits, b: bool)
    requires |r| == |g| > 0 && Parity(g)
    ensures Parity(Shift(g, r, b)) == (Parity(r) != b)
  {
    var up := r[1..] + [false];
    assert up[..|up| - 1] == r[1..];
    ParityHead(r);
    ParityZeros(|g|);
    ParityXor(up, if r[0] != b then g else Zeros(|g|));
  }

  lemma {:induction false} DivideParity(g: Bits, r: Bits, m: Bits)
    requires |r| == |g| > 0 && Parity(g)
    ensures Parity(Divide(g, r, m)) == (Parity(r) != Parity(m))
    decreases |m|
  {
    if m != [] {
      DivideParity(g, r, m[..|m| - 1]);
      ShiftParity(g, Divide(g, r, m[..|m| - 1]), m[|m| - 1]);
    }
  }

  /** A register that its own bits enter, highest first, is emptied. */
  lemma {:induction false} OwnBitsCancel(g: Bits, s: Bits, k: nat)
    requires k <= |g| == |s| && |g| > 0
    ensures Divide(g, s, s[..k]) == s[k..] + Zeros(k)
  {
    if k > 0 {
      OwnBitsCancel(g, s, k - 1);
      assert s[..k][..k - 1] == s[..k - 1];
      var r := s[k - 1..] + Zeros(k - 1);
      assert r[0] == s[k - 1];
      assert r[1..] + [false] == s[k..] + Zeros(k);
      assert Xor(s[k..] + Zeros(k), Zeros(|g|)) == s[k..] + Zeros(k);
    }
  }

  lemma ShiftZeros(g: Bits, b: bool)
    requires |g| > 0
    ensures Shift(g, Zeros(|g|), b) == if b then g else Zeros(|g|)
  {
  }

  lemma {:induction false} DivideOne(g: Bits, b: bool)
    requires |g| > 0
    ensures Divide(g, Zeros(|g|), [b]) == if b then g else Zeros(|g|)
  {
    hide Shift, Zeros;
    ShiftZeros(g, b);
    var m := [b];
    var e: Bits := m[..|m| - 1];
    assert e == [];
    assert Divide(g, Zeros(|g|), e) == Zeros(|g|);
  }

  lemma {:induction false} DivisorLeavesNothing(g: Bits)
    requires |g| > 0
    ensures Divide(g, Zeros(|g|), [true] + g) == Zeros(|g|)
  {
    DivideAppend(g, Zeros(|g|), [true], g);
    DivideOne(g, true);
    OwnBitsCancel(g, g, |g|);
    assert g[..|g|] == g && g[|g|..] + Zeros(|g|) == Zeros(|g|);
  }

  ghost predicate FindsOddErrors(g: Bits)
    requires |g| > 0
  {
    forall e :: Parity(e) ==> Divide(g, Zeros(|g|), e) != Zeros(|g|)
  }

  /** An odd number of damaged bits is always found exactly when the divisor
      has an even number of terms. */
  lemma {:induction false} FindsOddErrorsIff(g: Bits)
    requires |g| > 0
    ensures FindsOddErrors(g) <==> Parity(g)
  {
    var e := [true] + g;
    assert e[1..] == g;
    ParityHead(e);
    DivisorLeavesNothing(g);
    ParityZeros(|g|);
    hide Divide, Zeros, Shift, Xor, Parity;
    if Parity(g) {
      forall e | Parity(e) ensures Divide(g, Zeros(|g|), e) != Zeros(|g|) {
        DivideParity(g, Zeros(|g|), e);
      }
    }
  }
}
