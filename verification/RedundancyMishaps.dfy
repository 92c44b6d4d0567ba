/** Two runs of the receive path as written: a number that stays queued, and one
    handed up a second time after a timeout. */
module RedundancyMishaps {
  import opened Wrappers
  import opened Redundancy
  import opened RedundancyAsWritten
  import opened RedundancyOrder
  import opened DeferQueue

  function Comes(i: nat, now: nat): Timed<int> {
    Timed(Arrives(0, i, true), now)
  }

  function Sending(n: nat): seq<Timed<int>> {
    if n == 0 then [] else Sending(n - 1) + [Timed(PeerSends(n - 1), 0)]
  }

  /** n frames sent, frame i with content i. */
  function Sent0(n: nat): seq<int> {
    seq(n, i => i)
  }

  lemma {:induction false} SendsFirst(l: RawLink<int>, n: nat, sort: Sorter<int>)
    requires Shaped(l.r.store) && l.sent == []
    ensures RunRaw(l, Sending(n), sort) == l.(sent := Sent0(n))
  {
    if n == 0 {
      assert Sent0(0) == [];
    } else {
      SendsFirst(l, n - 1, sort);
      assert Sending(n)[..|Sending(n)| - 1] == Sending(n - 1);
      assert Sent0(n) == Sent0(n - 1) + [n - 1];
    }
  }

  lemma SortsOne(sort: Sorter<int>, w: Wrapper<int>)
    requires Sorts(sort)
    ensures sort([w]) == [w] && sort([]) == []
  {
    SortedIn(sort, [w]);
    SortedIn(sort, []);
    assert sort([w])[0] in sort([w]);
  }

  lemma SortsTwo(sort: Sorter<int>, v: Wrapper<int>, w: Wrapper<int>)
    requires Sorts(sort) && v.ts < w.ts
    ensures sort([v, w]) == [v, w]
  {
    var q := sort([v, w]);
    SortedIn(sort, [v, w]);
    assert q[0] in q && q[1] in q && v in [v, w] && w in [v, w];
    assert v in q && w in q;
    assert q[0].ts <= q[1].ts;
  }

  const W3 := Wrapper(3, 3, 2)
  const W2 := Wrapper(2, 2, 3)
  const TAKE: Timed<int> := Timed(Retrieves, 0)

  function Numbers(ns: seq<nat>): seq<Item<int>> {
    seq(|ns|, i requires 0 <= i < |ns| => Item(ns[i], ns[i]))
  }

  /** Two slots; everything passed on was kept. */
  function Two(seqRx: nat, slots: seq<Option<Wrapper<int>>>, count: nat, fifo: seq<int>, ns: seq<nat>): RawLink<int> {
    RawLink(Sent0(4), Raw(seqRx, 0, Store(slots, count), fifo, Numbers(ns), Numbers(ns)))
  }

  lemma PassNumber(l: RawLink<int>, ns: seq<nat>)
    requires l.r.passed == Numbers(ns) && l.r.kept == Numbers(ns) && |l.r.fifo| != |l.r.store.slots|
    ensures PassRaw(l.r, l.r.seqRx)
         == l.r.(seqRx := l.r.seqRx + 1, fifo := l.r.fifo + [l.r.seqRx],
                 passed := Numbers(ns + [l.r.seqRx]), kept := Numbers(ns + [l.r.seqRx]))
  {
    assert Numbers(ns + [l.r.seqRx]) == Numbers(ns) + [Item(l.r.seqRx, l.r.seqRx)];
  }

  const EMPTY: seq<Option<Wrapper<int>>> := [None, None]

  lemma TakesZero(sort: Sorter<int>)
    ensures StepRaw(Two(0, EMPTY, 0, [], []), Comes(0, 1), sort) == Two(1, EMPTY, 0, [0], [0])
  {
    PassNumber(Two(0, EMPTY, 0, [], []), []);
    assert Sent0(4)[0] == 0;
  }

  lemma DefersThree(sort: Sorter<int>)
    requires Sorts(sort)
    ensures StepRaw(Two(1, EMPTY, 0, [0], [0]), Comes(3, 2), sort) == Two(1, [Some(W3), None], 1, [0], [0])
  {
    var l := Two(1, EMPTY, 0, [0], [0]);
    SortsOne(sort, W3);
    assert Live(l.r.store) + [W3] == [W3];
    assert WithLive(l.r.store, [W3]).slots == [Some(W3), None];
  }

  lemma DefersTwo(sort: Sorter<int>)
    requires Sorts(sort)
    ensures StepRaw(Two(1, [Some(W3), None], 1, [0], [0]), Comes(2, 3), sort)
            == Two(1, [Some(W3), Some(W2)], 2, [0], [0])
  {
    var l := Two(1, [Some(W3), None], 1, [0], [0]);
    SortsTwo(sort, W3, W2);
    assert Live(l.r.store) + [W2] == [W3, W2];
    assert WithLive(l.r.store, [W3, W2]).slots == [Some(W3), Some(W2)];
  }

  /** Number 2 waits in the second slot and is not found. */
  lemma TakesOne(sort: Sorter<int>)
    ensures StepRaw(Two(1, [Some(W3), Some(W2)], 2, [0], [0]), Comes(1, 4), sort)
         == Two(2, [Some(W3), Some(W2)], 2, [0, 1], [0, 1])
  {
    PassNumber(Two(1, [Some(W3), Some(W2)], 2, [0], [0]), [0]);
    assert [0] + [1] == [0, 1];
    assert Sent0(4)[1] == 1;
  }

  /** A second copy of 2 is passed on, then 3; the first copy stays. */
  lemma TakesTwoAgain(sort: Sorter<int>)
    requires Sorts(sort)
    ensures StepRaw(Two(2, [Some(W3), Some(W2)], 2, [], [0, 1]), Comes(2, 5), sort)
         == Two(4, [Some(W2), Some(W2)], 1, [2, 3], [0, 1, 2, 3])
  {
    var l := Two(2, [Some(W3), Some(W2)], 2, [], [0, 1]);
    PassNumber(l, [0, 1]);
    var l3 := Two(3, [Some(W3), Some(W2)], 2, [2], [0, 1, 2]);
    assert [0, 1] + [2] == [0, 1, 2];
    assert PassRaw(l.r, 2) == l3.r;
    DeliversThree(sort);
    hide DeliverRaw, Sorts;
    assert Sent0(4)[2] == 2;
  }

  lemma DeliversThree(sort: Sorter<int>)
    requires Sorts(sort)
    ensures DeliverRaw(Two(3, [Some(W3), Some(W2)], 2, [2], [0, 1, 2]).r, sort)
         == Two(4, [Some(W2), Some(W2)], 1, [2, 3], [0, 1, 2, 3]).r
  {
    var l3 := Two(3, [Some(W3), Some(W2)], 2, [2], [0, 1, 2]);
    SortsOne(sort, W2);
    assert Live(l3.r.store) == [W3, W2];
    assert [W2] + [W3, W2][1..1] == [W2];
    assert WithLive(l3.r.store, [W2]).slots == [Some(W2), Some(W2)];
    PassNumber(l3, [0, 1, 2]);
    assert [0, 1, 2] + [3] == [0, 1, 2, 3] && [2] + [3] == [2, 3];
    var l4 := Two(4, [Some(W2), Some(W2)], 1, [2, 3], [0, 1, 2, 3]);
    assert PassFrontRaw(l3.r, sort) == l4.r;
    assert DeliverRaw(l3.r, sort) == DeliverRaw(l4.r, sort) == l4.r;
  }

  /** The timer takes the smallest number in the slots and goes back to 2. */
  lemma GoesBack(sort: Sorter<int>)
    requires Sorts(sort)
    ensures StepRaw(Two(4, [Some(W2), Some(W2)], 1, [], [0, 1, 2, 3]), Timed(Expires, 9), sort)
         == Two(3, [Some(W2), Some(W2)], 0, [2], [0, 1, 2, 3, 2])
  {
    var l := Two(4, [Some(W2), Some(W2)], 1, [], [0, 1, 2, 3]);
    SmallestOfTwo();
    var l2 := Two(2, [Some(W2), Some(W2)], 1, [], [0, 1, 2, 3]);
    SortsOne(sort, W2);
    var none: seq<Wrapper<int>> := [];
    assert WithLive(l2.r.store, none).slots == [Some(W2), Some(W2)];
    PassNumber(l2, [0, 1, 2, 3]);
    assert [0, 1, 2, 3] + [2] == [0, 1, 2, 3, 2] && [] + [2] == [2];
    var l3 := Two(3, [Some(W2), Some(W2)], 0, [2], [0, 1, 2, 3, 2]);
    assert PassFrontRaw(l2.r, sort) == l3.r;
    assert DeliverRaw(l2.r, sort) == DeliverRaw(l3.r, sort) == l3.r;
  }

  lemma SmallestOfTwo()
    ensures SmallestSlot([Some(W2), Some(W2)]) == 0
  {
    var q := [Some(W2), Some(W2)];
    assert q[..1] == [Some(W2)];
  }

  lemma Retrieving(seqRx: nat, slots: seq<Option<Wrapper<int>>>, count: nat, a: int, b: int, ns: seq<nat>,
      sort: Sorter<int>)
    requires Shaped(Store(slots, count))
    ensures var take := Timed(Retrieves, 0);
            StepRaw(StepRaw(Two(seqRx, slots, count, [a, b], ns), take, sort), take, sort)
              == Two(seqRx, slots, count, [], ns)
  {
    assert [a, b][1..] == [b] && [b][1..] == [];
  }

  lemma RunStep(l: RawLink<int>, ts: seq<Timed<int>>, t: Timed<int>, sort: Sorter<int>)
    requires Shaped(l.r.store)
    ensures RunRaw(l, ts + [t], sort) == StepRaw(RunRaw(l, ts, sort), t, sort)
  {
    assert (ts + [t])[..|ts|] == ts;
  }

  /** Four frames sent; 0, 3, 2, 1 arrive, and after two retrievals 2 again. */
  function Reordered(): seq<Timed<int>> {
    Sending(4) + [Comes(0, 1)] + [Comes(3, 2)] + [Comes(2, 3)] + [Comes(1, 4)]
    + [Timed(Retrieves, 0)] + [Timed(Retrieves, 0)] + [Comes(2, 5)]
  }

  lemma ReorderedStart(sort: Sorter<int>)
    requires Sorts(sort)
    ensures RunRaw(OpenedRaw<int>(2), Sending(4) + [Comes(0, 1)] + [Comes(3, 2)] + [Comes(2, 3)] + [Comes(1, 4)], sort)
         == Two(2, [Some(W3), Some(W2)], 2, [0, 1], [0, 1])
  {
    var l0 := OpenedRaw<int>(2);
    assert l0.(sent := Sent0(4)) == Two(0, EMPTY, 0, [], []) by {
      assert l0.r.store.slots == EMPTY && Numbers([]) == [];
    }
    SendsFirst(l0, 4, sort);
    TakesZero(sort);
    DefersThree(sort);
    DefersTwo(sort);
    TakesOne(sort);
    hide StepRaw, Sending, Two, Sorts, OpenedRaw, RunRaw;
    RunStep(l0, Sending(4), Comes(0, 1), sort);
    RunStep(l0, Sending(4) + [Comes(0, 1)], Comes(3, 2), sort);
    RunStep(l0, Sending(4) + [Comes(0, 1)] + [Comes(3, 2)], Comes(2, 3), sort);
    RunStep(l0, Sending(4) + [Comes(0, 1)] + [Comes(3, 2)] + [Comes(2, 3)], Comes(1, 4), sort);
  }

  lemma ReorderedQuiet()
    ensures NoTimeout(Reordered())
  {
    SendingQuiet(4);
    hide Sending;
  }

  /** In an ordinary run a number below seq_rx stays queued. */
  lemma OldNumberStays(sort: Sorter<int>)
    requires Sorts(sort)
    ensures var l := RunRaw(OpenedRaw<int>(2), Reordered(), sort);
            l == Two(4, [Some(W2), Some(W2)], 1, [2, 3], [0, 1, 2, 3])
            && l.r.store.slots[0].value.num < l.r.seqRx && NoTimeout(Reordered())
  {
    hide StepRaw, Sending, Sorts, OpenedRaw, RunRaw;
    var l0, take := OpenedRaw<int>(2), TAKE;
    var ts := Sending(4) + [Comes(0, 1)] + [Comes(3, 2)] + [Comes(2, 3)] + [Comes(1, 4)];
    ReorderedQuiet();
    ReorderedStart(sort);
    Retrieving(2, [Some(W3), Some(W2)], 2, 0, 1, [0, 1], sort);
    TakesTwoAgain(sort);
    RunStep(l0, ts, take, sort);
    RunStep(l0, ts + [take], take, sort);
    RunStep(l0, ts + [take] + [take], Comes(2, 5), sort);
  }

  lemma {:induction false} SendingQuiet(n: nat)
    ensures NoTimeout(Sending(n))
  {
    if n > 0 {
      SendingQuiet(n - 1);
    }
  }

  /** And a timeout then hands it up a second time: with timeouts the program
      as written does not hand up in order. */
  lemma TimeoutGoesBack(sort: Sorter<int>)
    requires Sorts(sort)
    ensures var ts := Reordered() + [Timed(Retrieves, 0)] + [Timed(Retrieves, 0)] + [Timed(Expires, 9)];
            var r := RunRaw(OpenedRaw<int>(2), ts, sort).r;
            r.kept == Numbers([0, 1, 2, 3, 2]) && !Increasing(r.kept)
  {
    var l0, take := OpenedRaw<int>(2), TAKE;
    OldNumberStays(sort);
    Retrieving(4, [Some(W2), Some(W2)], 1, 2, 3, [0, 1, 2, 3], sort);
    GoesBack(sort);
    var kept := Numbers([0, 1, 2, 3, 2]);
    assert kept[3].num == 3 && kept[4].num == 2;
    hide StepRaw, Reordered, Sorts, OpenedRaw, RunRaw;
    RunStep(l0, Reordered(), take, sort);
    RunStep(l0, Reordered() + [take], take, sort);
    RunStep(l0, Reordered() + [take] + [take], Timed(Expires, 9), sort);
  }
}
