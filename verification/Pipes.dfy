/** A redundancy channel pair as the SR layer sees it: what the peer sent and
    has not been read yet is a queue, from which the transport, the timer and a
    full receive FIFO only take elements away. */
module Pipes {
  import opened Words
  import opened Wrappers
  import opened Redundancy
  import opened DeferQueue
  import opened RedundancyAsWritten
  import opened RedundancyOrder
  import SrWorld

  /** The receive path with the defer queue as described, or as written. */
  datatype Pipe<!P> = Described(l: Link<P>) | Written(raw: RawLink<P>, sort: Sorter<P>)

  ghost predicate Usable<P>(p: Pipe<P>) {
    p.Written? ==> Shaped(p.raw.r.store)
  }

  function Frames<P>(p: Pipe<P>): seq<P> {
    if p.Described? then p.l.sent else p.raw.sent
  }

  function Fifo<P>(p: Pipe<P>): seq<P> {
    if p.Described? then p.l.r.fifo else p.raw.r.fifo
  }

  function Next<P>(p: Pipe<P>): nat {
    if p.Described? then p.l.r.seqRx else p.raw.r.seqRx
  }

  /** The peer passes packets to its redundancy layer. */
  function Give<P>(p: Pipe<P>, ps: seq<P>): (p2: Pipe<P>)
    ensures Usable(p) ==> Usable(p2)
  {
    if p.Described? then p.(l := p.l.(sent := p.l.sent + ps)) else p.(raw := p.raw.(sent := p.raw.sent + ps))
  }

  /** This side is left with a FIFO and has itself sent n frames. */
  function Left<P>(p: Pipe<P>, fifo: seq<P>, n: nat): (p2: Pipe<P>)
    ensures Usable(p) ==> Usable(p2)
  {
    if p.Described? then p.(l := p.l.(r := p.l.r.(fifo := fifo, seqTx := p.l.r.seqTx + n)))
    else p.(raw := p.raw.(r := p.raw.r.(fifo := fifo, seqTx := p.raw.r.seqTx + n)))
  }

  /** A frame arrives on some transport channel, or the defer timer expires. */
  datatype Motion = Arrival(channel: nat, index: nat, intact: bool, now: nat) | Expiry

  ghost function Move<P>(p: Pipe<P>, m: Motion): (p2: Pipe<P>)
    requires Usable(p)
    ensures Usable(p2)
  {
    match m
    case Arrival(c, i, intact, now) =>
      if p.Described? then p.(l := Step(p.l, Arrives(c, i, intact)))
      else p.(raw := StepRaw(p.raw, Timed(Arrives(c, i, intact), now), p.sort))
    case Expiry =>
      if p.Described? then p.(l := Step(p.l, Expires))
      else p.(raw := StepRaw(p.raw, Timed(Expires, 0), p.sort))
  }

  ghost predicate Sound<P(!new)>(p: Pipe<P>)
    ensures Sound(p) ==> Usable(p)
  {
    if p.Described? then Settled(p.l.r) && Genuine(p.l.r, p.l.sent)
    else Kept(p.raw.r) && GenuineRaw(p.raw.r, p.raw.sent) && Sorts(p.sort)
  }

  /** No number stands for two frames. */
  ghost predicate InTurn<P(!new)>(p: Pipe<P>) {
    Sound(p) && Next(p) <= |Frames(p)| <= U32
  }

  function Rest<P>(sent: seq<P>, next: nat): seq<P> {
    if next <= |sent| then sent[next..] else []
  }

  /** What this side may still read: its FIFO, then the frames not taken yet. */
  function Wire<P>(p: Pipe<P>): seq<P> {
    Fifo(p) + Rest(Frames(p), Next(p))
  }

  /* ----- taking elements away ----- */

  ghost predicate Thins<X(!new)>(q: seq<X>, q2: seq<X>)
    decreases |q|
  {
    q == q2 || exists i :: 0 <= i < |q| && Thins(SrWorld.Without(q, i), q2)
  }

  lemma {:induction false} ThinsTwice<X(!new)>(q: seq<X>, q2: seq<X>, q3: seq<X>)
    requires Thins(q, q2) && Thins(q2, q3)
    ensures Thins(q, q3)
    decreases |q|
  {
    if q != q2 {
      var i :| 0 <= i < |q| && Thins(SrWorld.Without(q, i), q2);
      ThinsTwice(SrWorld.Without(q, i), q2, q3);
    }
  }

  lemma ThinsItself<X(!new)>(q: seq<X>)
    ensures Thins(q, q)
  {
  }

  lemma {:induction false} SkippingThins<X(!new)>(f: seq<X>, t: seq<X>, k: nat)
    requires k <= |t|
    ensures Thins(f + t, f + t[k..])
    decreases k
  {
    if k > 0 {
      assert SrWorld.Without(f + t, |f|) == f + t[1..];
      SkippingThins(f, t[1..], k - 1);
      assert t[1..][k - 1..] == t[k..];
      assert Thins(SrWorld.Without(f + t, |f|), f + t[k..]);
    } else {
      assert t[0..] == t;
    }
  }

  /** The next frame goes to the FIFO, or nowhere when that is full. */
  lemma PassingThins<P(!new)>(fifo: seq<P>, sent: seq<P>, next: nat, fifo2: seq<P>)
    requires next < |sent| && (fifo2 == fifo || fifo2 == fifo + [sent[next]])
    ensures Thins(fifo + Rest(sent, next), fifo2 + Rest(sent, next + 1))
  {
    if fifo2 == fifo {
      SkippingThins(fifo, Rest(sent, next), 1);
      assert Rest(sent, next)[1..] == Rest(sent, next + 1);
    } else {
      assert fifo + Rest(sent, next) == fifo2 + Rest(sent, next + 1);
    }
  }

  lemma RestThins<P(!new)>(fifo: seq<P>, sent: seq<P>, n: nat, m: nat)
    requires n <= m <= |sent|
    ensures Thins(fifo + Rest(sent, n), fifo + Rest(sent, m))
  {
    SkippingThins(fifo, Rest(sent, n), m - n);
    assert Rest(sent, n)[m - n..] == Rest(sent, m);
  }

  /* ----- the search as described ----- */

  lemma TurnThins<P(!new)>(r: Receiver<P>, sent: seq<P>)
    requires Genuine(r, sent) && r.seqRx in r.queue && |sent| <= U32
    ensures var r1 := PassQueued(r);
            && Genuine(r1, sent) && r1.seqRx <= |sent| && |r1.queue| < |r.queue| && Deliver(r) == Deliver(r1)
            && Thins(r.fifo + Rest(sent, r.seqRx), r1.fifo + Rest(sent, r1.seqRx))
  {
    hide Genuine, Thins, Rest;
    QueuedGenuine(r, sent);
    var r1 := PassQueued(r);
    PassingThins(r.fifo, sent, r.seqRx, r1.fifo);
    assert r1.queue.Keys == r.queue.Keys - {r.seqRx};
    assert |r1.queue| == |r1.queue.Keys| && |r.queue| == |r.queue.Keys|;
  }

  lemma {:induction false} DeliverThins<P(!new)>(r: Receiver<P>, sent: seq<P>)
    requires Genuine(r, sent) && r.seqRx <= |sent| <= U32
    ensures Deliver(r).seqRx <= |sent|
    ensures Thins(r.fifo + Rest(sent, r.seqRx), Deliver(r).fifo + Rest(sent, Deliver(r).seqRx))
    decreases |r.queue|
  {
    if r.seqRx in r.queue {
      hide Genuine, Deliver, Rest, PassQueued;
      TurnThins(r, sent);
      var r1 := PassQueued(r);
      DeliverThins(r1, sent);
      ThinsTwice(r.fifo + Rest(sent, r.seqRx), r1.fifo + Rest(sent, r1.seqRx),
                 Deliver(r1).fifo + Rest(sent, Deliver(r1).seqRx));
    }
  }

  lemma QueuedGenuine<P>(r: Receiver<P>, sent: seq<P>)
    requires Genuine(r, sent) && r.seqRx in r.queue && |sent| <= U32
    ensures r.seqRx < |sent| && r.queue[r.seqRx] == sent[r.seqRx] && Genuine(PassQueued(r), sent)
  {
    NumbersAreUnique(sent, r.seqRx, r.queue[r.seqRx]);
    var r1 := PassQueued(r);
    assert r1.passed[|r.passed|] in r1.passed;
    assert forall k :: 0 <= k < |r.kept| ==> r1.kept[k] in r1.passed;
  }

  lemma PassedGenuine<P>(r: Receiver<P>, sent: seq<P>)
    requires Genuine(r, sent) && r.seqRx < |sent| <= U32
    ensures Genuine(Pass(r, sent[r.seqRx]), sent)
  {
    NumbersAreUnique(sent, r.seqRx, sent[r.seqRx]);
    var r1 := Pass(r, sent[r.seqRx]);
    assert r1.passed[|r.passed|] in r1.passed;
    assert forall k :: 0 <= k < |r.kept| ==> r1.kept[k] in r1.passed;
  }

  lemma ReceiveThins<P(!new)>(r: Receiver<P>, sent: seq<P>, i: nat, intact: bool)
    requires Genuine(r, sent) && r.seqRx <= |sent| <= U32 && i < |sent|
    ensures var r2 := ReceiveFrame(r, Frame(i, sent[i], intact));
            r2.seqRx <= |sent| && Thins(r.fifo + Rest(sent, r.seqRx), r2.fifo + Rest(sent, r2.seqRx))
  {
    hide Genuine, Deliver, Rest, Thins;
    ThinsItself(r.fifo + Rest(sent, r.seqRx));
    if i == r.seqRx {
      var r1 := Pass(r, sent[i]);
      PassedGenuine(r, sent);
      PassingThins(r.fifo, sent, i, r1.fifo);
      DeliverThins(r1, sent);
      ThinsTwice(r.fifo + Rest(sent, i), r1.fifo + Rest(sent, i + 1), Deliver(r1).fifo + Rest(sent, Deliver(r1).seqRx));
    }
  }

  lemma TimeoutThins<P(!new)>(r: Receiver<P>, sent: seq<P>)
    requires Settled(r) && Genuine(r, sent) && r.seqRx <= |sent| <= U32
    ensures var r2 := DeferTimeout(r);
            r2.seqRx <= |sent| && Thins(r.fifo + Rest(sent, r.seqRx), r2.fifo + Rest(sent, r2.seqRx))
  {
    if r.queue != map[] {
      assert r.queue.Keys != {};
      var n := Smallest(r.queue.Keys);
      assert n in r.queue;
      NumbersAreUnique(sent, n, r.queue[n]);
      var r1 := r.(seqRx := n);
      RestThins(r.fifo, sent, r.seqRx, n);
      assert Genuine(r1, sent);
      DeliverThins(r1, sent);
      hide Genuine, Deliver, Rest;
      ThinsTwice(r.fifo + Rest(sent, r.seqRx), r.fifo + Rest(sent, n),
        Deliver(r1).fifo + Rest(sent, Deliver(r1).seqRx));
    }
  }

  /* ----- the search as written ----- */

  lemma {:induction false} DeliverRawThins<P(!new)>(r: Raw<P>, sort: Sorter<P>, sent: seq<P>)
    requires Shaped(r.store) && GenuineRaw(r, sent) && Sorts(sort) && r.seqRx <= |sent| <= U32
    ensures DeliverRaw(r, sort).seqRx <= |sent|
    ensures Thins(r.fifo + Rest(sent, r.seqRx),
                  DeliverRaw(r, sort).fifo + Rest(sent, DeliverRaw(r, sort).seqRx))
    decreases r.store.count
  {
    if Front(r.store, r.seqRx) && r.store.count > 0 {
      var r1 := PassFrontRaw(r, sort);
      FrontGenuine(r, sent);
      PassFrontGenuine(r, sort, sent);
      assert r1.seqRx == r.seqRx + 1 && (r1.fifo == r.fifo || r1.fifo == r.fifo + [sent[r.seqRx]]);
      PassingThins(r.fifo, sent, r.seqRx, r1.fifo);
      assert DeliverRaw(r, sort) == DeliverRaw(r1, sort);
      hide GenuineRaw, DeliverRaw, PassFrontRaw, Rest, Sorts;
      DeliverRawThins(r1, sort, sent);
      ThinsTwice(r.fifo + Rest(sent, r.seqRx), r1.fifo + Rest(sent, r1.seqRx),
                 DeliverRaw(r1, sort).fifo + Rest(sent, DeliverRaw(r1, sort).seqRx));
    }
  }

  lemma FrontGenuine<P(!new)>(r: Raw<P>, sent: seq<P>)
    requires GenuineRaw(r, sent) && Front(r.store, r.seqRx) && r.store.count > 0 && |sent| <= U32
    ensures r.seqRx < |sent| && r.store.slots[0].value.content == sent[r.seqRx]
  {
    assert r.store.slots[0] in r.store.slots;
    NumbersAreUnique(sent, r.seqRx, r.store.slots[0].value.content);
  }

  lemma ReceiveRawThins<P(!new)>(r: Raw<P>, sort: Sorter<P>, sent: seq<P>, i: nat, intact: bool, now: nat)
    requires Shaped(r.store) && GenuineRaw(r, sent) && Sorts(sort) && r.seqRx <= |sent| <= U32 && i < |sent|
    ensures var r2 := ReceiveRaw(r, Frame(i, sent[i], intact), now, sort);
            r2.seqRx <= |sent| && Thins(r.fifo + Rest(sent, r.seqRx), r2.fifo + Rest(sent, r2.seqRx))
  {
    hide Sorts, GenuineRaw, DeliverRaw, Rest, Thins, Queued, Sent;
    ThinsItself(r.fifo + Rest(sent, r.seqRx));
    if i == r.seqRx {
      var r1 := PassRaw(r, sent[i]);
      NumbersAreUnique(sent, i, sent[i]);
      PassGenuine(r, sent[i], sent);
      PassingThins(r.fifo, sent, i, r1.fifo);
      DeliverRawThins(r1, sort, sent);
      ThinsTwice(r.fifo + Rest(sent, i), r1.fifo + Rest(sent, i + 1),
                 DeliverRaw(r1, sort).fifo + Rest(sent, DeliverRaw(r1, sort).seqRx));
    }
  }

  /** A guarded timeout restarts at a frame sent and not taken yet. */
  lemma RestartIsSent<P(!new)>(r: Raw<P>, sent: seq<P>)
    requires GenuineRaw(r, sent) && |sent| <= U32 && MayExpire(r) && NothingBelow(r)
    ensures r.seqRx <= Restart(r) < |sent| && GenuineRaw(r.(seqRx := Restart(r)), sent)
  {
    RestartIs(r);
    var w :| Some(w) in r.store.slots && w.num == Restart(r);
    NumbersAreUnique(sent, w.num, w.content);
    hide Sent;
  }

  lemma TimeoutRawThins<P(!new)>(r: Raw<P>, sort: Sorter<P>, sent: seq<P>)
    requires Shaped(r.store) && GenuineRaw(r, sent) && Sorts(sort) && r.seqRx <= |sent| <= U32
    requires MayExpire(r) && NothingBelow(r)
    ensures var r2 := TimeoutRaw(r, sort);
            r2.seqRx <= |sent| && Thins(r.fifo + Rest(sent, r.seqRx), r2.fifo + Rest(sent, r2.seqRx))
  {
    hide GenuineRaw, DeliverRaw, Rest, Sorts, Thins, NothingBelow, Restart;
    RestartIsSent(r, sent);
    var n := Restart(r);
    var r2 := DeliverRaw(r.(seqRx := n), sort);
    RestThins(r.fifo, sent, r.seqRx, n);
    DeliverRawThins(r.(seqRx := n), sort, sent);
    ThinsTwice(r.fifo + Rest(sent, r.seqRx), r.fifo + Rest(sent, n), r2.fifo + Rest(sent, r2.seqRx));
  }

  /* ----- both ----- */

  /** With the queue as written a timeout must find no slot number below the
      expected one. */
  ghost predicate Harmless<P>(p: Pipe<P>, m: Motion) {
    m.Expiry? && p.Written? ==> Guarded(p.raw.r)
  }

  lemma DescribedThins<P(!new)>(p: Pipe<P>, m: Motion)
    requires InTurn(p) && p.Described?
    ensures var p2 := Move(p, m);
            && p2.Described? && p2.l.sent == p.l.sent && p2.l.r.seqRx <= |p.l.sent|
            && Thins(Wire(p), Wire(p2))
  {
    hide Settled, Genuine, ReceiveFrame, DeferTimeout, Thins, Rest;
    ThinsItself(Wire(p));
    if m.Expiry? {
      TimeoutThins(p.l.r, p.l.sent);
    } else if m.index < |p.l.sent| {
      ReceiveThins(p.l.r, p.l.sent, m.index, m.intact);
      assert m.index % U32 == m.index;
    }
  }

  lemma WrittenThins<P(!new)>(p: Pipe<P>, m: Motion)
    requires InTurn(p) && p.Written? && Harmless(p, m)
    ensures var p2 := Move(p, m);
            && p2.Written? && p2.raw.sent == p.raw.sent && p2.raw.r.seqRx <= |p.raw.sent|
            && Thins(Wire(p), Wire(p2))
  {
    assert Shaped(p.raw.r.store);
    hide Kept, GenuineRaw, Sorts, ReceiveRaw, TimeoutRaw, Thins, Rest, Shaped, NothingBelow;
    ThinsItself(Wire(p));
    if m.Expiry? {
      if MayExpire(p.raw.r) {
        TimeoutRawThins(p.raw.r, p.sort, p.raw.sent);
      }
    } else if m.index < |p.raw.sent| {
      ReceiveRawThins(p.raw.r, p.sort, p.raw.sent, m.index, m.intact, m.now);
      assert m.index % U32 == m.index;
    }
  }

  /** Whatever arrives, in whatever order and however often, and when the timer
      expires harmlessly, the wire only loses packets. */
  lemma MoveThins<P(!new)>(p: Pipe<P>, m: Motion)
    requires InTurn(p) && Harmless(p, m)
    ensures InTurn(Move(p, m)) && Frames(Move(p, m)) == Frames(p) && Thins(Wire(p), Wire(Move(p, m)))
  {
    MoveSound(p, m);
    if p.Described? {
      DescribedThins(p, m);
    } else {
      WrittenThins(p, m);
    }
    hide Sound, Move, Wire;
  }

  lemma MoveSound<P(!new)>(p: Pipe<P>, m: Motion)
    requires Sound(p) && Harmless(p, m)
    ensures Sound(Move(p, m))
  {
    if p.Described? {
      StepKeeps(p.l, if m.Expiry? then Expires else Arrives(m.channel, m.index, m.intact));
    } else {
      var t := if m.Expiry? then Timed(Expires, 0) else Timed(Arrives(m.channel, m.index, m.intact), m.now);
      StepKeptRaw(p.raw, t, p.sort);
      StepGenuineRaw(p.raw, t, p.sort);
    }
    hide Settled, Genuine, Kept, GenuineRaw, Sorts, Step, StepRaw;
  }

  lemma RestAppends<P>(fifo: seq<P>, sent: seq<P>, next: nat, ps: seq<P>)
    requires next <= |sent|
    ensures fifo + Rest(sent + ps, next) == fifo + Rest(sent, next) + ps
  {
    assert Rest(sent + ps, next) == Rest(sent, next) + ps;
  }

  /** Sending and reading are what they are on a queue. */
  lemma GiveAppends<P(!new)>(p: Pipe<P>, ps: seq<P>)
    requires InTurn(p) && |Frames(p)| + |ps| <= U32
    ensures InTurn(Give(p, ps)) && Wire(Give(p, ps)) == Wire(p) + ps
  {
    hide Sound, Rest;
    GiveSound(p, ps);
    RestAppends(Fifo(p), Frames(p), Next(p), ps);
  }

  lemma SentGrows<P>(sent: seq<P>, ps: seq<P>, n: nat, c: P)
    requires Sent(sent, n, c)
    ensures Sent(sent + ps, n, c)
  {
    var i :| 0 <= i < |sent| && i % U32 == n && sent[i] == c;
    assert (sent + ps)[i] == c;
  }

  lemma GenuineStays<P>(r: Receiver<P>, sent: seq<P>, ps: seq<P>)
    requires Genuine(r, sent)
    ensures Genuine(r, sent + ps)
  {
    forall n, c | Sent(sent, n, c) ensures Sent(sent + ps, n, c) {
      SentGrows(sent, ps, n, c);
    }
  }

  lemma GiveSound<P(!new)>(p: Pipe<P>, ps: seq<P>)
    requires Sound(p)
    ensures Sound(Give(p, ps))
  {
    hide Settled, Genuine, Kept, GenuineRaw, Sorts;
    if p.Described? {
      GenuineStays(p.l.r, p.l.sent, ps);
    } else {
      GrowsRaw(p.raw.r, p.raw.sent, ps);
    }
  }

  lemma LeftSound<P(!new)>(p: Pipe<P>, fifo: seq<P>, n: nat)
    requires Sound(p)
    ensures Sound(Left(p, fifo, n))
  {
    hide Sent, Sorts;
  }
}
