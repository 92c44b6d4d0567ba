/** Application messages packed into the data of one packet, each behind its
    length in two bytes. */
module MessageData {
  import opened ByteOrder

  /** No single message is longer than its length field can say. */
  ghost predicate Fit(messages: seq<seq<byte>>) {
    forall i :: 0 <= i < |messages| ==> |messages[i]| < 0x1_0000
  }

  function Prefixed(big: bool, m: seq<byte>): (s: seq<byte>)
    ensures |s| == |m| + 2
  {
    [ShortByte(big, |m|, 0), ShortByte(big, |m|, 1)] + m
  }

  /** The payload createDataMessage builds. */
  function Pack(big: bool, messages: seq<seq<byte>>): seq<byte> {
    if messages == [] then [] else Prefixed(big, messages[0]) + Pack(big, messages[1..])
  }

  /** The payload of some messages is the payload of the first of them followed
      by that of the others; of one message, its length on the host and its bytes. */
  lemma {:induction false} PackJoins(big: bool, a: seq<seq<byte>>, b: seq<seq<byte>>)
    ensures Pack(big, a + b) == Pack(big, a) + Pack(big, b)
    decreases |a|
  {
    if a == [] {
      assert a + b == b;
    } else {
      assert (a + b)[1..] == a[1..] + b;
      PackJoins(big, a[1..], b);
    }
  }

  lemma PackOne(big: bool, m: seq<byte>)
    requires |m| < 0x1_0000
    ensures var b := Pack(big, [m]);
            |b| == 2 + |m| && Value(big, b[0..2]) == |m| && b[2..] == m
  {
    var b := Pack(big, [m]);
    assert [m][1..] == [] && Pack(big, []) == [];
    assert b == Prefixed(big, m) + [];
    ShortAt(big, |m|, b, 0);
  }

  /** The payload is a list of complete messages. */
  predicate WellFormed(big: bool, b: seq<byte>) {
    b == [] || (|b| >= 2 && 2 + ShortOf(big, b[0], b[1]) <= |b| && WellFormed(big, b[2 + ShortOf(big, b[0], b[1])..]))
  }

  function Unpack(big: bool, b: seq<byte>): seq<seq<byte>>
    requires WellFormed(big, b)
  {
    if b == [] then []
    else
      var n := ShortOf(big, b[0], b[1]);
      [b[2..2 + n]] + Unpack(big, b[2 + n..])
  }

  /** Extraction undoes packing: empty messages and the empty list included. */
  lemma {:induction false} UnpackPack(big: bool, messages: seq<seq<byte>>)
    requires Fit(messages)
    ensures WellFormed(big, Pack(big, messages)) && Unpack(big, Pack(big, messages)) == messages
  {
    if messages != [] {
      var m, rest := messages[0], messages[1..];
      var b := Pack(big, messages);
      ShortBack(big, |m|);
      assert ShortOf(big, b[0], b[1]) == |m|;
      assert b[2..2 + |m|] == m;
      assert b[2 + |m|..] == Pack(big, rest);
      UnpackPack(big, rest);
      assert messages == [m] + rest;
    }
  }

  /** Packing the extraction gives any well-formed payload back. */
  lemma {:induction false} PackUnpack(big: bool, b: seq<byte>)
    requires WellFormed(big, b)
    ensures Pack(big, Unpack(big, b)) == b && Fit(Unpack(big, b))
  {
    if b != [] {
      var n := ShortOf(big, b[0], b[1]);
      ShortForth(big, b[0], b[1]);
      var rest := b[2 + n..];
      PackUnpack(big, rest);
      var u := Unpack(big, b);
      assert u == [b[2..2 + n]] + Unpack(big, rest);
      assert u[0] == b[2..2 + n] && u[1..] == Unpack(big, rest);
      assert b == [b[0], b[1]] + b[2..2 + n] + rest;
      forall i | 0 <= i < |u| ensures |u[i]| < 0x1_0000 {
        if i > 0 {
          assert u[i] == Unpack(big, rest)[i - 1];
        }
      }
    }
  }

  lemma {:induction false} PackAppend(big: bool, messages: seq<seq<byte>>, m: seq<byte>)
    ensures Pack(big, messages + [m]) == Pack(big, messages) + Prefixed(big, m)
  {
    if messages == [] {
      assert [] + [m] == [m];
      assert Pack(big, [m]) == Prefixed(big, m) + Pack(big, []);
    } else {
      assert (messages + [m])[0] == messages[0] && (messages + [m])[1..] == messages[1..] + [m];
      PackAppend(big, messages[1..], m);
    }
  }

  /* ----- how far extraction reads ----- */

  /** The end of what both passes read from at on: the length of the next
      message, its bytes, and so on until the payload is used up or left. */
  function EndOfReads(big: bool, b: seq<byte>, at: nat): nat
    decreases |b| - at
  {
    if at >= |b| then at
    else if at + 2 > |b| then at + 2
    else EndOfReads(big, b, at + 2 + ShortOf(big, b[at], b[at + 1]))
  }

  lemma {:induction false} ReadsOn(big: bool, b: seq<byte>, at: nat)
    requires at <= |b|
    ensures EndOfReads(big, b, at) <= |b| <==> WellFormed(big, b[at..])
    decreases |b| - at
  {
    if at + 2 <= |b| {
      var c := b[at..];
      var next := at + 2 + ShortOf(big, b[at], b[at + 1]);
      if next <= |b| {
        ReadsOn(big, b, next);
        assert c[next - at..] == b[next..];
      }
    }
  }

  /** Extraction stays inside the payload exactly when the payload is a list of
      complete messages. */
  lemma ReadsInsideIff(big: bool, b: seq<byte>)
    ensures EndOfReads(big, b, 0) <= |b| <==> WellFormed(big, b)
  {
    ReadsOn(big, b, 0);
    assert b[0..] == b;
  }

  /* ----- the program ----- */

  method PutMessage(big: bool, m: seq<byte>, result: array<byte>, at: nat)
    requires at + 2 + |m| <= result.Length
    modifies result
    ensures result[..at + 2 + |m|] == old(result[..at]) + Prefixed(big, m)
  {
    hide ShortByte;
    PutShort(big, |m|, result, at);
    PutBytes(m, result, at + 2);
    assert result[..at] == old(result[..at]);
    assert result[at..at + 2 + |m|] == Prefixed(big, m);
    assert result[..at + 2 + |m|] == result[..at] + result[at..at + 2 + |m|];
  }

  /** The two loops of createDataMessage. */
  method Create(big: bool, messages: seq<seq<byte>>) returns (result: array<byte>)
    requires Fit(messages)
    ensures fresh(result) && result[..] == Pack(big, messages)
  {
    var length := 0;
    assert messages[..0] == [];
    for i := 0 to |messages|
      invariant length == |Pack(big, messages[..i])|
    {
      PackNext(big, messages, i);
      length := length + |messages[i]| + 2;
    }
    assert messages[..|messages|] == messages;
    result := new byte[length];
    length := 0;
    hide Pack, Prefixed;
    for i := 0 to |messages|
      invariant length == |Pack(big, messages[..i])| && result.Length == |Pack(big, messages)|
      invariant length <= result.Length && result[..length] == Pack(big, messages[..i])
    {
      PackNext(big, messages, i);
      PackPrefix(big, messages, i + 1);
      PutMessage(big, messages[i], result, length);
      length := length + |messages[i]| + 2;
    }
    assert result[..length] == result[..];
  }

  lemma PackNext(big: bool, messages: seq<seq<byte>>, i: nat)
    requires i < |messages|
    ensures Pack(big, messages[..i + 1]) == Pack(big, messages[..i]) + Prefixed(big, messages[i])
  {
    assert messages[..i + 1] == messages[..i] + [messages[i]];
    PackAppend(big, messages[..i], messages[i]);
  }

  lemma {:induction false} PackPrefix(big: bool, messages: seq<seq<byte>>, i: nat)
    requires i <= |messages|
    ensures |Pack(big, messages[..i])| <= |Pack(big, messages)|
    decreases |messages| - i
  {
    if i == |messages| {
      assert messages[..i] == messages;
    } else {
      PackNext(big, messages, i);
      PackPrefix(big, messages, i + 1);
    }
  }

  /** The counting pass of extractMessageData. */
  method Count(big: bool, b: seq<byte>) returns (counter: nat)
    requires WellFormed(big, b)
    ensures counter == |Unpack(big, b)|
  {
    var current := 0;
    counter := 0;
    assert b[0..] == b;
    while current < |b|
      invariant 0 <= current <= |b| && WellFormed(big, b[current..])
      invariant counter + |Unpack(big, b[current..])| == |Unpack(big, b)|
    {
      NextMessage(big, b, current);
      hide WellFormed, Unpack, ShortOf;
      var n := ShortOf(big, b[current], b[current + 1]);
      current := current + n + 2;
      counter := counter + 1;
    }
  }

  /** extractMessageData: a pass that counts, a pass that copies. The source
      reads past the end of a payload that is not well formed. */
  method Extract(big: bool, b: seq<byte>) returns (messages: seq<seq<byte>>)
    requires WellFormed(big, b)
    ensures messages == Unpack(big, b)
  {
    hide WellFormed, Unpack, ShortOf;
    var counter := Count(big, b);
    messages := [];
    var current := 0;
    assert b[0..] == b;
    for i := 0 to counter
      invariant 0 <= current <= |b| && WellFormed(big, b[current..])
      invariant messages + Unpack(big, b[current..]) == Unpack(big, b) && |messages| == i
    {
      assert |Unpack(big, b[current..])| > 0;
      SomeLeft(big, b[current..]);
      NextMessage(big, b, current);
      var n := ShortOf(big, b[current], b[current + 1]);
      var one := Copy(b[current + 2..current + 2 + n]);
      messages := messages + [one];
      current := current + n + 2;
    }
  }

  lemma SomeLeft(big: bool, b: seq<byte>)
    requires WellFormed(big, b) && Unpack(big, b) != []
    ensures b != []
  {
  }

  method Copy(s: seq<byte>) returns (t: seq<byte>)
    ensures t == s
  {
    var one := new byte[|s|];
    PutBytes(s, one, 0);
    t := one[..];
  }

  lemma NextMessage(big: bool, b: seq<byte>, at: nat)
    requires at < |b| && WellFormed(big, b[at..])
    ensures at + 2 <= |b|
    ensures var n := ShortOf(big, b[at], b[at + 1]);
            && at + 2 + n <= |b| && WellFormed(big, b[at + 2 + n..])
            && Unpack(big, b[at..]) == [b[at + 2..at + 2 + n]] + Unpack(big, b[at + 2 + n..])
  {
    var c := b[at..];
    var n := ShortOf(big, c[0], c[1]);
    assert c[2..2 + n] == b[at + 2..at + 2 + n];
    assert c[2 + n..] == b[at + 2 + n..];
  }
}
