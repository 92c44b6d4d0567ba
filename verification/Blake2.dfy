/** BLAKE2b fed in pieces, against section 3.3 of RFC 7693. The compression
    function is any function of state, block, 128-bit counter and last flag. */
module Blake2 {
  import opened ByteOrder

  const BLOCK_SIZE := 128
  const WORD_64 := 0x1_0000_0000_0000_0000
  const WORD_128 := 0x1_0000_0000_0000_0000_0000_0000_0000_0000

  /** start makes the initial state from digest and key length; bytes lists the
      64 bytes of a state. */
  datatype Function<!S> = Function(
    start: (nat, nat) -> S, compress: (S, seq<byte>, nat, bool) -> S, bytes: S -> seq<byte>)

  /* ----- the definition ----- */

  /** The key as a first block of its own, then the data. */
  function Input(key: seq<byte>, data: seq<byte>): seq<byte>
    requires |key| <= 64
  {
    if key == [] then data else key + Zeros(BLOCK_SIZE - |key|) + data
  }

  /** Number of blocks that are certainly not the last. */
  function Before(n: nat): nat {
    if n == 0 then 0 else (n - 1) / BLOCK_SIZE
  }

  /** The state after the first k blocks, the counter at each the bytes so far. */
  function Fold<S(!new)>(f: Function<S>, s: S, input: seq<byte>, k: nat): S
    requires k * BLOCK_SIZE <= |input|
  {
    if k == 0 then s
    else f.compress(Fold(f, s, input, k - 1), input[(k - 1) * BLOCK_SIZE..k * BLOCK_SIZE], (k * BLOCK_SIZE) % WORD_128,
      false)
  }

  /** The last block padded with zeros, the counter at the whole length. */
  function Ended<S(!new)>(f: Function<S>, start: S, input: seq<byte>): S {
    var k := Before(|input|);
    var last := input[k * BLOCK_SIZE..];
    f.compress(Fold(f, start, input, k), last + Zeros(BLOCK_SIZE - |last|), |input| % WORD_128, true)
  }

  function Finished<S(!new)>(f: Function<S>, start: S, outLength: nat, input: seq<byte>): seq<byte>
    requires forall s :: |f.bytes(s)| >= outLength
  {
    f.bytes(Ended(f, start, input))[..outLength]
  }

  function Digest<S(!new)>(f: Function<S>, outLength: nat, key: seq<byte>, data: seq<byte>): seq<byte>
    requires |key| <= 64
    requires forall s :: |f.bytes(s)| >= outLength
  {
    Finished(f, f.start(outLength, |key|), outLength, Input(key, data))
  }

  lemma {:induction false} FoldPrefix<S(!new)>(f: Function<S>, s: S, input: seq<byte>, d: seq<byte>, k: nat)
    requires k * BLOCK_SIZE <= |input|
    ensures Fold(f, s, input + d, k) == Fold(f, s, input, k)
  {
    if k > 0 {
      FoldPrefix(f, s, input, d, k - 1);
      assert (input + d)[(k - 1) * BLOCK_SIZE..k * BLOCK_SIZE] == input[(k - 1) * BLOCK_SIZE..k * BLOCK_SIZE];
    }
  }

  /* ----- the program ----- */

  /** t0 and t1 are the 128-bit counter t. */
  ghost predicate Counter(t0: nat, t1: nat, n: nat) {
    t0 < WORD_64 && t1 < WORD_64 && t1 * WORD_64 + t0 == n % WORD_128
  }

  /** Adding c, with the carry found by comparing. */
  lemma CounterUp(t0: nat, t1: nat, n: nat, c: nat)
    requires Counter(t0, t1, n) && c < WORD_64
    ensures var s0 := (t0 + c) % WORD_64;
            Counter(s0, if s0 < c then (t1 + 1) % WORD_64 else t1, n + c)
  {
    var s0 := (t0 + c) % WORD_64;
    var s1 := if s0 < c then (t1 + 1) % WORD_64 else t1;
    var q := n / WORD_128;
    assert n == q * WORD_128 + t1 * WORD_64 + t0;
    if t0 + c < WORD_64 {
      assert s0 == t0 + c;
      assert n + c == q * WORD_128 + (s1 * WORD_64 + s0);
    } else {
      assert s0 == t0 + c - WORD_64;
      if t1 + 1 < WORD_64 {
        assert n + c == q * WORD_128 + (s1 * WORD_64 + s0);
      } else {
        assert s1 == 0;
        assert n + c == (q + 1) * WORD_128 + s0;
      }
    }
  }

  class Context<!S(!new)> {
    const f: Function<S>
    const outLength: nat
    const b: array<byte>
    var h: S
    var t0: nat
    var t1: nat
    var c: nat
    /** Initial state and the input so far, key block included. */
    ghost const first: S
    ghost var input: seq<byte>

    ghost predicate Valid()
      reads this, b
    {
      && b.Length == BLOCK_SIZE && c <= BLOCK_SIZE
      && c <= |input| && (c == 0 ==> input == [])
      && (|input| - c) % BLOCK_SIZE == 0
      && Counter(t0, t1, |input| - c)
      && h == Fold(f, first, input, (|input| - c) / BLOCK_SIZE)
      && b[..c] == input[|input| - c..]
    }

    /** blake2b_init with parameters it accepts. */
    constructor (f: Function<S>, outLength: nat, key: seq<byte>)
      requires 0 < outLength <= 64 && |key| <= 64
      ensures Valid() && fresh(b)
      ensures this.f == f && this.outLength == outLength && first == f.start(outLength, |key|)
      ensures input == Input(key, [])
    {
      this.f, this.outLength := f, outLength;
      h := f.start(outLength, |key|);
      first := f.start(outLength, |key|);
      t0, t1, c := 0, 0, 0;
      b := new byte[BLOCK_SIZE](_ => 0);
      input := [];
      new;
      if |key| > 0 {
        KeyBlock(key);
      }
    }

    /** The key is fed and the rest of its block counted as zeros. */
    method KeyBlock(key: seq<byte>)
      requires Valid() && input == [] && 0 < |key| <= 64 && b[..] == Zeros(BLOCK_SIZE)
      modifies this`h, this`t0, this`t1, this`c, this`input, b
      ensures Valid() && input == key + Zeros(BLOCK_SIZE - |key|)
    {
      for i := 0 to |key|
        invariant Valid() && c == i && input == key[..i] && b[i..] == Zeros(BLOCK_SIZE - i)
      {
        b[c] := key[i];
        c := c + 1;
        input := input + [key[i]];
        assert key[..i + 1] == key[..i] + [key[i]];
      }
      c := BLOCK_SIZE;
      input := key + Zeros(BLOCK_SIZE - |key|);
      assert b[..] == b[..|key|] + b[|key|..];
    }

    /** Adds the bytes of the buffer to the counter. */
    method Count()
      requires c <= BLOCK_SIZE && c <= |input| && Counter(t0, t1, |input| - c)
      modifies this`t0, this`t1
      ensures Counter(t0, t1, |input|)
    {
      CounterUp(t0, t1, |input| - c, c);
      t0 := (t0 + c) % WORD_64;
      if t0 < c {
        t1 := (t1 + 1) % WORD_64;
      }
    }

    /** The full buffer is compressed: there is more input to come. */
    method Flush()
      requires Valid() && c == BLOCK_SIZE
      modifies this`h, this`t0, this`t1, this`c
      ensures c == 0 && |input| % BLOCK_SIZE == 0 && Counter(t0, t1, |input|)
      ensures h == Fold(f, first, input, |input| / BLOCK_SIZE)
    {
      Count();
      ghost var k := |input| / BLOCK_SIZE;
      assert k * BLOCK_SIZE == |input| && (|input| - c) / BLOCK_SIZE == k - 1;
      assert b[..] == input[(k - 1) * BLOCK_SIZE..k * BLOCK_SIZE];
      assert t1 * WORD_64 + t0 == |input| % WORD_128;
      h := f.compress(h, b[..], t1 * WORD_64 + t0, false);
      c := 0;
    }

    method Append(x: byte)
      requires b.Length == BLOCK_SIZE && c < BLOCK_SIZE && c <= |input| && (|input| - c) % BLOCK_SIZE == 0
      requires Counter(t0, t1, |input| - c) && h == Fold(f, first, input, (|input| - c) / BLOCK_SIZE)
      requires b[..c] == input[|input| - c..]
      modifies this`c, this`input, b
      ensures Valid() && input == old(input) + [x]
    {
      FoldPrefix(f, first, input, [x], (|input| - c) / BLOCK_SIZE);
      b[c] := x;
      c := c + 1;
      input := input + [x];
    }

    /** blake2b_update. */
    method Update(data: seq<byte>)
      requires Valid()
      modifies this`h, this`t0, this`t1, this`c, this`input, b
      ensures Valid() && input == old(input) + data
    {
      hide Fold, Counter;
      for i := 0 to |data|
        invariant Valid() && input == old(input) + data[..i]
      {
        if c == BLOCK_SIZE {
          Flush();
        }
        Append(data[i]);
        assert data[..i + 1] == data[..i] + [data[i]];
      }
      assert data[..|data|] == data;
    }

    /** blake2b_final. */
    method Final() returns (result: seq<byte>)
      requires Valid() && forall s :: |f.bytes(s)| >= outLength
      modifies this`h, this`t0, this`t1, this`c, b
      ensures result == Finished(f, first, outLength, input)
    {
      ghost var s := Fold(f, first, input, Before(|input|));
      ghost var last := input[Before(|input|) * BLOCK_SIZE..];
      LastBlock(|input|, c);
      assert h == s && b[..c] == last;
      CountLast(last);
      h := f.compress(h, b[..], t1 * WORD_64 + t0, true);
      result := f.bytes(h)[..outLength];
    }

    /** Completes counter and buffer for the last block. */
    method CountLast(ghost last: seq<byte>)
      requires b.Length == BLOCK_SIZE && c <= BLOCK_SIZE && c <= |input| && Counter(t0, t1, |input| - c)
               && b[..c] == last
      modifies this`t0, this`t1, this`c, b
      ensures t1 * WORD_64 + t0 == |input| % WORD_128
      ensures b[..] == last + Zeros(BLOCK_SIZE - |last|)
    {
      Count();
      assert t1 * WORD_64 + t0 == |input| % WORD_128;
      hide Counter;
      FillUp(last);
    }

    /** Zeros after the last bytes. */
    method FillUp(ghost last: seq<byte>)
      requires b.Length == BLOCK_SIZE && c <= BLOCK_SIZE && b[..c] == last
      modifies this`c, b
      ensures b[..] == last + Zeros(BLOCK_SIZE - |last|)
    {
      while c < BLOCK_SIZE
        invariant |last| <= c <= BLOCK_SIZE && b[..c] == last + Zeros(c - |last|)
      {
        b[c] := 0;
        c := c + 1;
      }
      assert b[..c] == b[..];
    }
  }

  /** The block in the buffer is the last one. */
  lemma LastBlock(n: nat, c: nat)
    requires c <= BLOCK_SIZE && c <= n && (n - c) % BLOCK_SIZE == 0 && (c == 0 ==> n == 0)
    ensures Before(n) == (n - c) / BLOCK_SIZE && Before(n) * BLOCK_SIZE == n - c
  {
  }

  /** generateBlake2: nothing is written for hash type 0, nor when the
      parameters are not accepted. */
  method Generate<S(!new)>(f: Function<S>, data: seq<byte>, key: seq<byte>, hashType: nat)
      returns (written: bool, result: seq<byte>)
    requires forall s :: |f.bytes(s)| == 64
    ensures written <==> 0 < 8 * hashType <= 64 && |key| <= 64
    ensures written ==> result == Digest(f, 8 * hashType, key, data)
    ensures written ==> exists calls, bytes :: DigestBy(f, 8 * hashType, key, data, calls, bytes, result)
  {
    var length := 8 * hashType;
    if length == 0 || length > 64 || |key| > 64 {
      return false, [];
    }
    hide Finished;
    DigestIsReplay(f, length, key, data);
    var context := new Context(f, length, key);
    context.Update(data);
    assert Input(key, []) + data == Input(key, data);
    result := context.Final();
    written := true;
  }

  /** Any way of cutting the data into updates gives the digest of the whole. */
  method DigestOfPieces<S(!new)>(f: Function<S>, outLength: nat, key: seq<byte>, pieces: seq<seq<byte>>)
    returns (result: seq<byte>)
    requires 0 < outLength <= 64 && |key| <= 64 && forall s :: |f.bytes(s)| == 64
    ensures result == Digest(f, outLength, key, Joined(pieces))
    ensures exists calls, bytes :: DigestBy(f, outLength, key, Joined(pieces), calls, bytes, result)
  {
    DigestIsReplay(f, outLength, key, Joined(pieces));
    var context := new Context(f, outLength, key);
    hide Finished, Fold, Input, Joined;
    FeedAll(context, key, pieces);
    result := context.Final();
  }

  method FeedAll<S(!new)>(context: Context<S>, key: seq<byte>, pieces: seq<seq<byte>>)
    requires context.Valid() && |key| <= 64 && context.input == Input(key, [])
    modifies context, context.b
    ensures context.Valid() && context.input == Input(key, Joined(pieces))
  {
    hide Input, Fold;
    assert Joined(pieces[..0]) == [];
    for i := 0 to |pieces|
      invariant context.Valid() && context.input == Input(key, Joined(pieces[..i]))
    {
      context.Update(pieces[i]);
      assert pieces[..i + 1][..i] == pieces[..i];
      InputAppend(key, Joined(pieces[..i]), pieces[i]);
    }
    assert pieces[..|pieces|] == pieces;
  }

  lemma InputAppend(key: seq<byte>, a: seq<byte>, b: seq<byte>)
    requires |key| <= 64
    ensures Input(key, a) + b == Input(key, a + b)
  {
  }

  /* ----- which compressions there are ----- */

  datatype Call = Call(block: seq<byte>, counter: nat, last: bool)

  /** The calls in order, each on the state the one before left. */
  function Replay<S(!new)>(f: Function<S>, s: S, calls: seq<Call>): S
    decreases |calls|
  {
    if calls == [] then s
    else
      var c := calls[|calls| - 1];
      f.compress(Replay(f, s, calls[..|calls| - 1]), c.block, c.counter, c.last)
  }

  function Blocks(calls: seq<Call>): seq<byte>
    decreases |calls|
  {
    if calls == [] then [] else Blocks(calls[..|calls| - 1]) + calls[|calls| - 1].block
  }

  /** The key filled up to a block with zeros if there is one, then the data. */
  ghost predicate KeyThenData(bytes: seq<byte>, key: seq<byte>, data: seq<byte>) {
    if key == [] then bytes == data
    else
      && |bytes| == BLOCK_SIZE + |data| && |key| <= BLOCK_SIZE
      && bytes[..|key|] == key && bytes[BLOCK_SIZE..] == data
      && forall i :: |key| <= i < BLOCK_SIZE ==> bytes[i] == 0
  }

  /** One call for each started block, at least one; the counter is what has been
      consumed; the flag is set at the last call and there alone. */
  ghost predicate Compresses(calls: seq<Call>, bytes: seq<byte>) {
    var n := |bytes|;
    && |calls| == (if n == 0 then 1 else (n + 127) / 128)
    && (forall i :: 0 <= i < |calls| ==>
          && |calls[i].block| == 128
          && calls[i].counter
               == (if 128 * (i + 1) <= n then 128 * (i + 1) else n) % 0x1_0000_0000_0000_0000_0000_0000_0000_0000
          && (calls[i].last <==> i == |calls| - 1))
    && bytes <= Blocks(calls)
    && forall i :: n <= i < |Blocks(calls)| ==> Blocks(calls)[i] == 0
  }

  /** The call for block i of n bytes, the padding aside. */
  function CallAt(input: seq<byte>, i: nat): Call
    requires (i + 1) * BLOCK_SIZE <= |input|
  {
    Call(input[i * BLOCK_SIZE..(i + 1) * BLOCK_SIZE], ((i + 1) * BLOCK_SIZE) % WORD_128, false)
  }

  function CallsBefore(input: seq<byte>, k: nat): seq<Call>
    requires k * BLOCK_SIZE <= |input|
  {
    seq(k, i requires 0 <= i < k => CallAt(input, i))
  }

  function AllCalls(input: seq<byte>): seq<Call> {
    var k := Before(|input|);
    var last := input[k * BLOCK_SIZE..];
    CallsBefore(input, k) + [Call(last + Zeros(BLOCK_SIZE - |last|), |input| % WORD_128, true)]
  }

  lemma {:induction false} BlocksBefore(input: seq<byte>, k: nat)
    requires k * BLOCK_SIZE <= |input|
    ensures Blocks(CallsBefore(input, k)) == input[..k * BLOCK_SIZE]
  {
    if k > 0 {
      BlocksBefore(input, k - 1);
      var calls := CallsBefore(input, k);
      assert calls[..|calls| - 1] == CallsBefore(input, k - 1);
      assert input[..k * BLOCK_SIZE] == input[..(k - 1) * BLOCK_SIZE] + input[(k - 1) * BLOCK_SIZE..k * BLOCK_SIZE];
    }
  }

  lemma BeforeBounds(n: nat)
    ensures Before(n) * BLOCK_SIZE <= n && n - Before(n) * BLOCK_SIZE <= BLOCK_SIZE
    ensures Before(n) + 1 == (if n == 0 then 1 else (n + 127) / 128)
    ensures n <= (Before(n) + 1) * BLOCK_SIZE && (n > 0 ==> Before(n) * BLOCK_SIZE < n)
  {
  }

  lemma AllCallsMarked(input: seq<byte>, i: nat)
    requires i <= Before(|input|)
    ensures var c := AllCalls(input)[i];
            && |c.block| == BLOCK_SIZE && (c.last <==> i == Before(|input|))
            && c.counter == (if 128 * (i + 1) <= |input| then 128 * (i + 1) else |input|) % WORD_128
  {
    var k := Before(|input|);
    BeforeBounds(|input|);
    if i < k {
      assert (i + 1) * BLOCK_SIZE <= k * BLOCK_SIZE;
      CallsBeforeAt(input, k, i);
      assert AllCalls(input)[i] == CallAt(input, i);
    }
    hide Before, CallsBefore;
  }

  lemma AllCallsCover(input: seq<byte>)
    ensures exists rest :: Blocks(AllCalls(input)) == input + Zeros(rest)
  {
    var k := Before(|input|);
    var last := input[k * BLOCK_SIZE..];
    var calls := AllCalls(input);
    BlocksBefore(input, k);
    assert calls[..|calls| - 1] == CallsBefore(input, k);
    hide CallsBefore, Before;
    assert input == input[..k * BLOCK_SIZE] + last;
    assert Blocks(calls) == input + Zeros(BLOCK_SIZE - |last|);
  }

  lemma AllCallsCompress(input: seq<byte>)
    ensures Compresses(AllCalls(input), input)
  {
    AllCallsCover(input);
    BeforeBounds(|input|);
    var calls := AllCalls(input);
    assert |calls| == Before(|input|) + 1;
    hide AllCalls, Before;
    forall i | 0 <= i < |calls|
      ensures |calls[i].block| == 128 && (calls[i].last <==> i == |calls| - 1)
      ensures calls[i].counter
           == (if 128 * (i + 1) <= |input| then 128 * (i + 1) else |input|) % WORD_128
    {
      AllCallsMarked(input, i);
    }
  }

  lemma CallsBeforeAt(input: seq<byte>, k: nat, i: nat)
    requires i < k && k * BLOCK_SIZE <= |input|
    ensures |CallsBefore(input, k)| == k && CallsBefore(input, k)[i] == CallAt(input, i)
  {
  }

  lemma {:induction false} FoldReplays<S(!new)>(f: Function<S>, s: S, input: seq<byte>, k: nat)
    requires k * BLOCK_SIZE <= |input|
    ensures Fold(f, s, input, k) == Replay(f, s, CallsBefore(input, k))
  {
    if k > 0 {
      FoldReplays(f, s, input, k - 1);
      var calls := CallsBefore(input, k);
      assert calls[..|calls| - 1] == CallsBefore(input, k - 1);
    }
  }

  lemma EndedReplays<S(!new)>(f: Function<S>, s: S, input: seq<byte>)
    ensures Ended(f, s, input) == Replay(f, s, AllCalls(input))
  {
    var k := Before(|input|);
    FoldReplays(f, s, input, k);
    var calls := AllCalls(input);
    assert calls[..|calls| - 1] == CallsBefore(input, k);
    hide Fold;
  }

  /** The digest is what these calls and no others leave of the start state. */
  ghost predicate DigestBy<S(!new)>(f: Function<S>, outLength: nat, key: seq<byte>, data: seq<byte>,
      calls: seq<Call>, bytes: seq<byte>, result: seq<byte>)
  {
    && KeyThenData(bytes, key, data) && Compresses(calls, bytes)
    && var digest := f.bytes(Replay(f, f.start(outLength, |key|), calls));
       |digest| >= outLength && result == digest[..outLength]
  }

  lemma DigestIsReplay<S(!new)>(f: Function<S>, outLength: nat, key: seq<byte>, data: seq<byte>)
    requires |key| <= 64 && forall s :: |f.bytes(s)| >= outLength
    ensures exists calls, bytes :: DigestBy(f, outLength, key, data, calls, bytes, Digest(f, outLength, key, data))
  {
    var bytes := Input(key, data);
    AllCallsCompress(bytes);
    EndedReplays(f, f.start(outLength, |key|), bytes);
    hide Compresses, Replay, Ended, AllCalls;
    assert DigestBy(f, outLength, key, data, AllCalls(bytes), bytes, Digest(f, outLength, key, data));
  }

  lemma {:induction false} BlocksApart(c1: seq<Call>, c2: seq<Call>)
    requires |c1| == |c2| && Blocks(c1) == Blocks(c2)
    requires forall i :: 0 <= i < |c1| ==> |c1[i].block| == |c2[i].block| == BLOCK_SIZE
    ensures |Blocks(c1)| == |c1| * BLOCK_SIZE && forall i :: 0 <= i < |c1| ==> c1[i].block == c2[i].block
    decreases |c1|
  {
    if c1 != [] {
      var n := |c1| - 1;
      BlocksLength(c1[..n]);
      BlocksLength(c2[..n]);
      var a, b := Blocks(c1[..n]), Blocks(c2[..n]);
      assert a == (a + c1[n].block)[..|a|] && b == (b + c2[n].block)[..|a|];
      assert c1[n].block == (a + c1[n].block)[|a|..] && c2[n].block == (b + c2[n].block)[|a|..];
      BlocksApart(c1[..n], c2[..n]);
      assert forall i :: 0 <= i < n ==> c1[..n][i] == c1[i] && c2[..n][i] == c2[i];
    }
  }

  lemma {:induction false} BlocksLength(calls: seq<Call>)
    requires forall i :: 0 <= i < |calls| ==> |calls[i].block| == BLOCK_SIZE
    ensures |Blocks(calls)| == |calls| * BLOCK_SIZE
    decreases |calls|
  {
    if calls != [] {
      BlocksLength(calls[..|calls| - 1]);
    }
  }

  /** That description leaves no choice. */
  lemma CallsAreUnique(c1: seq<Call>, c2: seq<Call>, bytes: seq<byte>)
    requires Compresses(c1, bytes) && Compresses(c2, bytes)
    ensures c1 == c2
  {
    BlocksLength(c1);
    BlocksLength(c2);
    var b1, b2 := Blocks(c1), Blocks(c2);
    forall i | 0 <= i < |b1| ensures b1[i] == b2[i] {
      assert i < |bytes| ==> b1[i] == bytes[i] == b2[i];
    }
    assert b1 == b2;
    BlocksApart(c1, c2);
    hide Blocks;
    forall i | 0 <= i < |c1| ensures c1[i] == c2[i] {
    }
  }
}
