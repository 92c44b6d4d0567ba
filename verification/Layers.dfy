/** The redundancy layer as the link of the SR layer: it may lose packets, but
    neither reorders nor duplicates them. */
module Layers {
  import opened Words
  import opened Redundancy
  import SrWorld

  function Contents<P>(items: seq<Item<P>>): seq<P> {
    seq(|items|, i requires 0 <= i < |items| => items[i].content)
  }

  /** The receive FIFO holds the newest of what it accepted, in order. */
  ghost predicate FifoIsTail<P>(r: Receiver<P>) {
    |r.fifo| <= |r.kept| && r.fifo == Contents(r.kept)[|r.kept| - |r.fifo|..]
  }

  lemma PassKeepsTail<P>(r: Receiver<P>, content: P)
    requires FifoIsTail(r)
    ensures FifoIsTail(Pass(r, content))
  {
    var item := Item(r.seqRx, content);
    assert Contents(r.kept + [item]) == Contents(r.kept) + [content];
  }

  lemma {:induction false} DeliverKeepsTail<P>(r: Receiver<P>)
    requires FifoIsTail(r)
    ensures FifoIsTail(Deliver(r))
    decreases |r.queue|
  {
    if r.seqRx in r.queue {
      PassKeepsTail(r, r.queue[r.seqRx]);
      var rest := r.queue - {r.seqRx};
      assert rest.Keys == r.queue.Keys - {r.seqRx};
      assert |rest| == |rest.Keys| && |r.queue| == |r.queue.Keys|;
      hide FifoIsTail;
      assert FifoIsTail(Pass(r, r.queue[r.seqRx]).(queue := rest)) by {
        TailIgnoresQueue(Pass(r, r.queue[r.seqRx]), rest);
      }
      DeliverKeepsTail(Pass(r, r.queue[r.seqRx]).(queue := rest));
    }
  }

  lemma TailIgnoresQueue<P>(r: Receiver<P>, q: map<nat, P>)
    requires FifoIsTail(r)
    ensures FifoIsTail(r.(queue := q))
  {
  }

  lemma {:induction false} StepKeepsTail<P>(l: Link<P>, ev: Event<P>)
    requires FifoIsTail(l.r)
    ensures FifoIsTail(Step(l, ev).r)
  {
    match ev
    case Arrives(_, i, intact) =>
      if i < |l.sent| {
        PassKeepsTail(l.r, l.sent[i]);
        DeliverKeepsTail(Pass(l.r, l.sent[i]));
      }
    case Expires =>
      if l.r.queue != map[] {
        DeliverKeepsTail(l.r.(seqRx := Smallest(l.r.queue.Keys)));
      }
    case _ =>
  }

  lemma {:induction false} RunKeepsTail<P>(l: Link<P>, evs: seq<Event<P>>)
    requires FifoIsTail(l.r)
    ensures FifoIsTail(Run(l, evs).r)
    decreases |evs|
  {
    hide Step, FifoIsTail;
    if evs != [] {
      RunKeepsTail(l, evs[..|evs| - 1]);
      StepKeepsTail(Run(l, evs[..|evs| - 1]), evs[|evs| - 1]);
    }
  }

  /** Whatever the transport channels and the timer do, while at most 2^32
      frames were sent, what the receive FIFO takes is a subsequence of what the
      peer sent, and it is handed on in that order. */
  lemma LinkOnlyLoses<P(!new)>(capacity: nat, evs: seq<Event<P>>)
    requires |Run(Opened<P>(capacity), evs).sent| <= U32
    ensures var l := Run(Opened<P>(capacity), evs);
            SrWorld.IsSubsequence(Contents(l.r.kept), l.sent) && FifoIsTail(l.r)
  {
    HandedUpInOrder(capacity, evs);
    assert FifoIsTail(Opened<P>(capacity).r);
    RunKeepsTail(Opened<P>(capacity), evs);
    var l := Run(Opened<P>(capacity), evs);
    var pos := seq(|l.r.kept|, i requires 0 <= i < |l.r.kept| => l.r.kept[i].num);
    forall i | 0 <= i < |pos| ensures pos[i] < |l.sent| && Contents(l.r.kept)[i] == l.sent[pos[i]] {
      NumbersAreUnique(l.sent, l.r.kept[i].num, l.r.kept[i].content);
    }
    assert SrWorld.PicksFrom(pos, Contents(l.r.kept), l.sent);
  }
}
