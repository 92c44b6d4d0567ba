/** When the receive path as written agrees with the documented one. */
module RedundancyAgreement {
  import opened Words
  import opened Redundancy
  import opened RedundancyAsWritten
  import opened RedundancyOrder
  import opened DeferQueue
  import opened QueueAsMap

  /** The same state, the live elements holding the documented queue. */
  ghost predicate Agrees<P>(d: Receiver<P>, r: Raw<P>) {
    && Shaped(r.store) && d.capacity == |r.store.slots|
    && d.seqRx == r.seqRx && d.seqTx == r.seqTx && d.fifo == r.fifo && d.passed == r.passed && d.kept == r.kept
    && Holds(Live(r.store), d.queue)
  }

  /** The search for num finds a live element if there is one. */
  ghost predicate Right<P>(r: Raw<P>, num: nat)
    requires Shaped(r.store)
  {
    Front(r.store, num) || !Numbered(Live(r.store), num)
  }

  /** Every search of the delivery loop is right. */
  ghost predicate DeliverRight<P>(r: Raw<P>, sort: Sorter<P>)
    requires Shaped(r.store)
    decreases r.store.count
  {
    if Front(r.store, r.seqRx) && r.store.count > 0 then DeliverRight(PassFrontRaw(r, sort), sort)
    else !Numbered(Live(r.store), r.seqRx)
  }

  /** Every search of a receive step is right, or the queue is full anyway. */
  ghost predicate ReceiveRight<P>(r: Raw<P>, f: Frame<P>, sort: Sorter<P>)
    requires Shaped(r.store)
  {
    if !f.intact || (r.seqRx == 0 && r.seqTx == 0 && f.num != 0) || f.num < r.seqRx then true
    else if f.num == r.seqRx then DeliverRight(PassRaw(r, f.content), sort)
    else if f.num <= r.seqRx + |r.store.slots| * 10 then r.store.count == |r.store.slots| || Right(r, f.num)
    else true
  }

  lemma FrontNumbered<P>(r: Raw<P>, num: nat)
    requires Shaped(r.store) && r.store.count > 0 && Front(r.store, num)
    ensures Live(r.store)[0].num == num && Numbered(Live(r.store), num)
  {
    assert Live(r.store)[0] in Live(r.store);
  }

  lemma PassFrontAgrees<P(!new)>(d: Receiver<P>, r: Raw<P>, sort: Sorter<P>)
    requires Agrees(d, r) && Front(r.store, r.seqRx) && r.store.count > 0 && Sorts(sort)
    ensures d.seqRx in d.queue && Agrees(PassQueued(d), PassFrontRaw(r, sort))
  {
    FrontRemoved(r, sort);
    PassFrontRest(r, sort);
    FrontContent(d, r);
    var after := Live(WithoutFront(r.store, sort));
    hide Holds, Removed, Sorts, WithoutFront, PassFrontRaw, Front;
    HoldsRemove(Live(r.store), d.queue, r.seqRx, after);
  }

  lemma FrontRemoved<P(!new)>(r: Raw<P>, sort: Sorter<P>)
    requires Shaped(r.store) && Front(r.store, r.seqRx) && r.store.count > 0 && Sorts(sort)
    ensures Removed(Live(r.store), r.seqRx, Live(WithoutFront(r.store, sort)))
  {
    var w := Live(r.store)[0];
    assert w in Live(r.store) && w.num == r.seqRx;
    WithoutFrontLive(r.store, sort);
    hide Sorts, WithoutFront;
  }

  lemma FrontContent<P>(d: Receiver<P>, r: Raw<P>)
    requires Agrees(d, r) && Front(r.store, r.seqRx) && r.store.count > 0
    ensures d.seqRx in d.queue && d.queue[d.seqRx] == r.store.slots[0].value.content
  {
    assert Live(r.store)[0] in Live(r.store);
    HoldsNumber(Live(r.store), d.queue, r.seqRx);
  }

  lemma PassFrontRest<P>(r: Raw<P>, sort: Sorter<P>)
    requires Shaped(r.store) && r.store.count > 0
    ensures var r2 := PassFrontRaw(r, sort);
            && Live(r2.store) == Live(WithoutFront(r.store, sort)) && |r2.store.slots| == |r.store.slots|
            && r2 == PassRaw(r, r.store.slots[0].value.content).(store := r2.store)
  {
  }

  lemma {:induction false} DeliverAdvances<P>(d: Receiver<P>)
    ensures d.seqRx <= Deliver(d).seqRx && (d.seqRx in d.queue ==> d.seqRx < Deliver(d).seqRx)
    decreases |d.queue|
  {
    DeliverTurn(d);
    if d.seqRx in d.queue {
      hide Deliver;
      DeliverAdvances(PassQueued(d));
    }
  }

  lemma {:induction false} DeliverAgreesIff<P(!new)>(d: Receiver<P>, r: Raw<P>, sort: Sorter<P>)
    requires Agrees(d, r) && Sorts(sort)
    ensures Agrees(Deliver(d), DeliverRaw(r, sort)) <==> DeliverRight(r, sort)
    decreases r.store.count
  {
    DeliverTurn(d);
    HoldsNumber(Live(r.store), d.queue, r.seqRx);
    if Front(r.store, r.seqRx) && r.store.count > 0 {
      PassFrontAgrees(d, r, sort);
      hide Agrees, Deliver, Sorts;
      DeliverAgreesIff(PassQueued(d), PassFrontRaw(r, sort), sort);
    } else {
      DeliverAdvances(d);
      hide Deliver;
    }
  }

  /** Two live elements with one number hold no map. */
  lemma TwiceIsNot<P>(r: Raw<P>, w: Wrapper<P>, after: seq<Wrapper<P>>, q: map<nat, P>)
    requires Shaped(r.store) && Numbered(Live(r.store), w.num)
             && multiset(after) == multiset(Live(r.store)) + multiset{w}
    ensures !Holds(after, q)
  {
    var v :| v in Live(r.store) && v.num == w.num;
    var m := multiset(after);
    assert v in multiset(Live(r.store));
    assert v in m && w in m;
    if v == w {
      assert m[w] >= 2;
    }
  }

  lemma QueuedRest<P>(r: Raw<P>, w: Wrapper<P>, sort: Sorter<P>)
    requires Shaped(r.store) && r.store.count < |r.store.slots|
    ensures var r2 := Entered(r, w, sort);
            Shaped(r2.store) && |r2.store.slots| == |r.store.slots| && r2 == r.(store := Queued(r.store, w, sort))
  {
  }

  /** A frame ahead of the expected one enters a queue with room. */
  lemma EnteringAgrees<P(!new)>(d: Receiver<P>, r: Raw<P>, w: Wrapper<P>, sort: Sorter<P>)
    requires Agrees(d, r) && Sorts(sort) && w.num < U32 && r.store.count < |r.store.slots|
             && !Numbered(Live(r.store), w.num)
    ensures w.num !in d.queue && Agrees(d.(queue := d.queue[w.num := w.content]), Entered(r, w, sort))
  {
    hide Holds, Numbered, Sorts, Entered;
    HoldsNumber(Live(r.store), d.queue, w.num);
    QueuedRest(r, w, sort);
    QueuedLive(r.store, w, sort);
    HoldsAdd(Live(r.store), d.queue, w, Live(Entered(r, w, sort).store));
  }

  lemma EnteringDiffers<P(!new)>(d: Receiver<P>, r: Raw<P>, w: Wrapper<P>, sort: Sorter<P>)
    requires Shaped(r.store) && Sorts(sort) && r.store.count < |r.store.slots| && Numbered(Live(r.store), w.num)
    ensures !Agrees(d, Entered(r, w, sort))
  {
    hide Holds, Numbered, Sorts, Entered;
    QueuedRest(r, w, sort);
    QueuedLive(r.store, w, sort);
    TwiceIsNot(r, w, Live(Entered(r, w, sort).store), d.queue);
  }

  lemma QueueAgreesIff<P(!new)>(d: Receiver<P>, r: Raw<P>, f: Frame<P>, now: nat, sort: Sorter<P>)
    requires Agrees(d, r) && Kept(r) && Sorts(sort) && f.num < U32 && f.intact
    requires !(r.seqRx == 0 && r.seqTx == 0 && f.num != 0) && r.seqRx < f.num <= r.seqRx + |r.store.slots| * 10
    ensures Agrees(ReceiveFrame(d, f), ReceiveRaw(r, f, now, sort))
            <==> r.store.count == |r.store.slots| || Right(r, f.num)
  {
    var w := Wrapper(f.num, f.content, now);
    var full := r.store.count == |r.store.slots|;
    HoldsNumber(Live(r.store), d.queue, f.num);
    var d2, r2 := ReceiveFrame(d, f), ReceiveRaw(r, f, now, sort);
    assert r2 == if Front(r.store, f.num) || full then r else Entered(r, w, sort);
    assert d2 == if f.num in d.queue || full then d else d.(queue := d.queue[f.num := f.content]);
    assert f.num in d.queue <==> Numbered(Live(r.store), f.num);
    hide ReceiveFrame, ReceiveRaw, Holds, Numbered, Sorts, Entered, Agrees;
    if Front(r.store, f.num) {
      NoLeftoverFound(r, f.num);
      FrontNumbered(r, f.num);
    } else if !full && Numbered(Live(r.store), f.num) {
      EnteringDiffers(d2, r, w, sort);
    } else if !full {
      EnteringAgrees(d, r, w, sort);
    }
  }

  /** One frame: the two machines agree after it exactly when every search it
      makes is right, or the queue is full. */
  lemma ReceiveAgreesIff<P(!new)>(d: Receiver<P>, r: Raw<P>, f: Frame<P>, now: nat, sort: Sorter<P>)
    requires Agrees(d, r) && Kept(r) && Sorts(sort) && f.num < U32
    ensures Agrees(ReceiveFrame(d, f), ReceiveRaw(r, f, now, sort)) <==> ReceiveRight(r, f, sort)
  {
    if !f.intact || (r.seqRx == 0 && r.seqTx == 0 && f.num != 0) || f.num < r.seqRx {
    } else if f.num == r.seqRx {
      var r1 := PassRaw(r, f.content);
      assert Live(r1.store) == Live(r.store);
      assert Agrees(Pass(d, f.content), r1);
      hide Agrees, Deliver, DeliverRaw, Kept, Sorts;
      DeliverAgreesIff(Pass(d, f.content), r1, sort);
    } else if f.num <= r.seqRx + |r.store.slots| * 10 {
      QueueAgreesIff(d, r, f, now, sort);
    }
  }

  /* ----- timeouts ----- */

  /** On a queue that is not empty every slot has been used, the smallest number
      in all slots is that of a live element, and the delivery that follows
      searches right. */
  ghost predicate TimeoutRight<P>(r: Raw<P>, sort: Sorter<P>)
    requires Shaped(r.store)
  {
    r.store.count > 0 ==>
      && MayExpire(r) && Numbered(Live(r.store), Restart(r))
      && DeliverRight(r.(seqRx := Restart(r)), sort)
  }

  function Expired<P>(r: Raw<P>, sort: Sorter<P>): (r2: Raw<P>)
    requires Shaped(r.store)
    ensures Shaped(r2.store)
  {
    if MayExpire(r) then TimeoutRaw(r, sort) else r
  }

  lemma QueueIsEmptyIff<P>(d: Receiver<P>, r: Raw<P>)
    requires Agrees(d, r)
    ensures d.queue == map[] <==> r.store.count == 0
  {
    if r.store.count > 0 {
      assert Live(r.store)[0] in Live(r.store);
      HoldsNumber(Live(r.store), d.queue, Live(r.store)[0].num);
    } else {
      forall n ensures n !in d.queue {
        HoldsNumber(Live(r.store), d.queue, n);
      }
    }
  }

  /** The least queued number is the restart number or above it. */
  lemma LeastQueued<P>(d: Receiver<P>, r: Raw<P>)
    requires Agrees(d, r) && MayExpire(r)
    ensures d.queue.Keys != {} && Restart(r) <= Smallest(d.queue.Keys)
    ensures Numbered(Live(r.store), Restart(r)) <==> Restart(r) == Smallest(d.queue.Keys)
  {
    QueueIsEmptyIff(d, r);
    assert d.queue.Keys != {};
    var m := Smallest(d.queue.Keys);
    RestartIs(r);
    HoldsNumber(Live(r.store), d.queue, m);
    HoldsNumber(Live(r.store), d.queue, Restart(r));
    var w :| w in Live(r.store) && w.num == m;
    LiveStored(r.store, w);
  }

  lemma RestartAgrees<P(!new)>(d: Receiver<P>, r: Raw<P>, n: nat)
    requires Agrees(d, r)
    ensures Agrees(d.(seqRx := n), r.(seqRx := n))
  {
    assert Live(r.(seqRx := n).store) == Live(r.store);
  }

  /** A timeout: the two machines agree after it exactly when it is right. */
  lemma TimeoutAgreesIff<P(!new)>(d: Receiver<P>, r: Raw<P>, sort: Sorter<P>)
    requires Agrees(d, r) && Settled(d) && Sorts(sort)
    ensures Agrees(DeferTimeout(d), Expired(r, sort)) <==> TimeoutRight(r, sort)
  {
    hide Sorts, Deliver, DeliverRaw, DeliverRight;
    QueueIsEmptyIff(d, r);
    if r.store.count > 0 {
      var d1 := d.(seqRx := Smallest(d.queue.Keys));
      assert d1.seqRx in d.queue && d.seqRx < d1.seqRx;
      DeliverAdvances(d1);
      if MayExpire(r) {
        LeastQueued(d, r);
        var r1 := r.(seqRx := Restart(r));
        if Numbered(Live(r.store), Restart(r)) {
          RestartAgrees(d, r, Restart(r));
          DeliverAgreesIff(d1, r1, sort);
        } else {
          StopsAtOnce(r1, sort);
        }
      }
    }
  }

  lemma StopsAtOnce<P>(r: Raw<P>, sort: Sorter<P>)
    requires Shaped(r.store) && !Numbered(Live(r.store), r.seqRx)
    ensures DeliverRaw(r, sort) == r
  {
    if r.store.count > 0 && Front(r.store, r.seqRx) {
      FrontNumbered(r, r.seqRx);
    }
  }

  /** A right timeout meets the guard of the order. */
  lemma RightIsGuarded<P(!new)>(d: Receiver<P>, r: Raw<P>, sort: Sorter<P>)
    requires Agrees(d, r) && Settled(d) && TimeoutRight(r, sort)
    ensures Guarded(r)
  {
    hide DeliverRight;
    if MayExpire(r) {
      RestartIs(r);
      HoldsNumber(Live(r.store), d.queue, Restart(r));
      assert forall k :: 0 <= k < |r.store.slots| ==> r.store.slots[k] in r.store.slots;
    }
  }

  /* ----- steps and runs ----- */

  ghost predicate StepRight<P>(l: RawLink<P>, t: Timed<P>, sort: Sorter<P>)
    requires Shaped(l.r.store)
  {
    && (t.ev.Arrives? && t.ev.index < |l.sent| ==>
          ReceiveRight(l.r, Frame(t.ev.index % U32, l.sent[t.ev.index], t.ev.intact), sort))
    && (t.ev.Expires? ==> TimeoutRight(l.r, sort))
  }

  lemma StepAgreesIff<P(!new)>(d: Link<P>, l: RawLink<P>, t: Timed<P>, sort: Sorter<P>)
    requires d.sent == l.sent && Agrees(d.r, l.r) && Settled(d.r) && Kept(l.r) && Sorts(sort)
    ensures Step(d, t.ev).sent == StepRaw(l, t, sort).sent
    ensures Agrees(Step(d, t.ev).r, StepRaw(l, t, sort).r) <==> StepRight(l, t, sort)
  {
    hide Kept, Sorts, Settled, ReceiveFrame, ReceiveRaw, ReceiveRight, Holds, DeferTimeout, TimeoutRaw, TimeoutRight;
    match t.ev
    case PeerSends(p) =>
    case Arrives(_, i, intact) =>
      if i < |l.sent| {
        ReceiveAgreesIff(d.r, l.r, Frame(i % U32, l.sent[i], intact), t.now, sort);
      }
    case Expires => TimeoutAgreesIff(d.r, l.r, sort);
    case Sends =>
      assert Live(l.r.(seqTx := l.r.seqTx + 1).store) == Live(l.r.store);
    case Retrieves =>
      if l.r.fifo != [] {
        assert Live(l.r.(fifo := l.r.fifo[1..]).store) == Live(l.r.store);
      }
  }

  function Events<P>(ts: seq<Timed<P>>): seq<Event<P>> {
    seq(|ts|, i requires 0 <= i < |ts| => ts[i].ev)
  }

  /** The two machines agree from the start to the end of the run. */
  ghost predicate AgreesThroughout<P>(capacity: nat, ts: seq<Timed<P>>, sort: Sorter<P>)
    requires capacity > 0
  {
    forall k :: 0 <= k <= |ts| ==> AgreesAfter(capacity, ts[..k], sort)
  }

  ghost predicate AgreesAfter<P>(capacity: nat, ts: seq<Timed<P>>, sort: Sorter<P>)
    requires capacity > 0
  {
    Agrees(Run(Opened<P>(capacity), Events(ts)).r, RunRaw(OpenedRaw<P>(capacity), ts, sort).r)
  }

  ghost predicate RightThroughout<P>(capacity: nat, ts: seq<Timed<P>>, sort: Sorter<P>)
    requires capacity > 0
  {
    forall k :: 0 <= k < |ts| ==> StepRight(RunRaw(OpenedRaw<P>(capacity), ts[..k], sort), ts[k], sort)
  }

  lemma EventsPrefix<P>(ts: seq<Timed<P>>)
    requires ts != []
    ensures Events(ts)[..|ts| - 1] == Events(ts[..|ts| - 1]) && Events(ts)[|ts| - 1] == ts[|ts| - 1].ev
  {
  }

  lemma StepStaysKept<P(!new)>(d: Link<P>, l: RawLink<P>, t: Timed<P>, sort: Sorter<P>)
    requires d.sent == l.sent && Agrees(d.r, l.r) && Settled(d.r) && StepRight(l, t, sort)
    requires Kept(l.r) && GenuineRaw(l.r, l.sent) && Sorts(sort)
    ensures Kept(StepRaw(l, t, sort).r)
  {
    hide Kept, GenuineRaw, Sorts, Settled, ReceiveRight, TimeoutRight, Agrees;
    if t.ev.Expires? {
      RightIsGuarded(d.r, l.r, sort);
    }
    StepKeptRaw(l, t, sort);
  }

  /** A run agrees with the documented one throughout exactly when in each of
      its steps every search finds the number in the first slot or nowhere, or
      meets a full queue, and every timeout finds all slots used and the
      smallest number of all in a live one. */
  lemma {:induction false} RunAgreesIff<P(!new)>(capacity: nat, ts: seq<Timed<P>>, sort: Sorter<P>)
    requires 0 < capacity && Sorts(sort)
    ensures AgreesThroughout(capacity, ts, sort) <==> RightThroughout(capacity, ts, sort)
    ensures Run(Opened<P>(capacity), Events(ts)).sent == RunRaw(OpenedRaw<P>(capacity), ts, sort).sent
    ensures AgreesThroughout(capacity, ts, sort) ==> Kept(RunRaw(OpenedRaw<P>(capacity), ts, sort).r)
    decreases |ts|
  {
    var d0, l0 := Opened<P>(capacity), OpenedRaw<P>(capacity);
    StartsAgreed<P>(capacity);
    if ts == [] {
      NothingRun<P>(capacity, sort);
    } else {
      var init, t := ts[..|ts| - 1], ts[|ts| - 1];
      LastStep(capacity, ts, sort);
      AgreesThroughoutSplit(capacity, ts, sort);
      RightThroughoutSplit(capacity, ts, sort);
      hide Agrees, Kept, GenuineRaw, Settled, Genuine, Step, StepRaw, StepRight, Sorts, Run, RunRaw;
      hide Opened, OpenedRaw, Events;
      RunAgreesIff(capacity, init, sort);
      RunKeeps(d0, Events(init));
      RunGenuineRaw(l0, init, sort);
      var d, l := Run(d0, Events(init)), RunRaw(l0, init, sort);
      SentAlike(d, l, t, sort);
      if AgreesThroughout(capacity, init, sort) {
        assert AgreesAfter(capacity, init, sort) by {
          assert init[..|init|] == init;
        }
        StepAgreesIff(d, l, t, sort);
        if StepRight(l, t, sort) {
          StepStaysKept(d, l, t, sort);
        }
      }
    }
  }

  lemma NothingRun<P(!new)>(capacity: nat, sort: Sorter<P>)
    requires capacity > 0
    ensures AgreesThroughout(capacity, [], sort) && RightThroughout(capacity, [], sort)
    ensures Run(Opened<P>(capacity), Events([])).sent == RunRaw(OpenedRaw<P>(capacity), [], sort).sent
  {
    StartsAgreed<P>(capacity);
    var none: seq<Timed<P>> := [];
    assert none[..0] == [] && Events(none) == [];
    hide Agrees, Kept;
  }

  lemma LastStep<P>(capacity: nat, ts: seq<Timed<P>>, sort: Sorter<P>)
    requires capacity > 0 && ts != []
    ensures var init, t := ts[..|ts| - 1], ts[|ts| - 1];
            && Run(Opened<P>(capacity), Events(ts)) == Step(Run(Opened<P>(capacity), Events(init)), t.ev)
            && RunRaw(OpenedRaw<P>(capacity), ts, sort) == StepRaw(RunRaw(OpenedRaw<P>(capacity), init, sort), t, sort)
  {
    EventsPrefix(ts);
    hide Step, StepRaw, Opened, OpenedRaw, Events;
  }

  lemma StartsAgreed<P(!new)>(capacity: nat)
    requires capacity > 0
    ensures var d, l := Opened<P>(capacity), OpenedRaw<P>(capacity);
            && d.sent == l.sent && Agrees(d.r, l.r) && Kept(l.r) && GenuineRaw(l.r, l.sent)
            && Settled(d.r) && Genuine(d.r, d.sent)
  {
    var l := OpenedRaw<P>(capacity);
    assert Live(l.r.store) == [];
    HoldsNothing<P>(map[]);
  }

  lemma SentAlike<P>(d: Link<P>, l: RawLink<P>, t: Timed<P>, sort: Sorter<P>)
    requires d.sent == l.sent && Shaped(l.r.store)
    ensures Step(d, t.ev).sent == StepRaw(l, t, sort).sent
  {
  }

  lemma AgreesDown<P>(capacity: nat, ts: seq<Timed<P>>, sort: Sorter<P>)
    requires capacity > 0 && ts != [] && AgreesThroughout(capacity, ts, sort)
    ensures AgreesThroughout(capacity, ts[..|ts| - 1], sort) && AgreesAfter(capacity, ts, sort)
  {
    hide AgreesAfter;
    var init := ts[..|ts| - 1];
    var last := ts[..|ts|];
    assert AgreesAfter(capacity, last, sort);
    assert last == ts;
    forall k | 0 <= k <= |init| ensures AgreesAfter(capacity, init[..k], sort) {
      var t := ts[..k];
      assert AgreesAfter(capacity, t, sort);
      assert init[..k] == t;
    }
  }

  lemma AgreesUp<P>(capacity: nat, ts: seq<Timed<P>>, sort: Sorter<P>)
    requires capacity > 0 && ts != [] && AgreesThroughout(capacity, ts[..|ts| - 1], sort)
             && AgreesAfter(capacity, ts, sort)
    ensures AgreesThroughout(capacity, ts, sort)
  {
    hide AgreesAfter;
    var init := ts[..|ts| - 1];
    forall k | 0 <= k <= |ts| ensures AgreesAfter(capacity, ts[..k], sort) {
      if k == |ts| {
        assert ts[..k] == ts;
      } else {
        var t := init[..k];
        assert AgreesAfter(capacity, t, sort);
        assert ts[..k] == t;
      }
    }
  }

  lemma AgreesThroughoutSplit<P>(capacity: nat, ts: seq<Timed<P>>, sort: Sorter<P>)
    requires capacity > 0 && ts != []
    ensures AgreesThroughout(capacity, ts, sort) <==>
            AgreesThroughout(capacity, ts[..|ts| - 1], sort) && AgreesAfter(capacity, ts, sort)
  {
    hide AgreesAfter, AgreesThroughout;
    if AgreesThroughout(capacity, ts, sort) {
      AgreesDown(capacity, ts, sort);
    } else if AgreesThroughout(capacity, ts[..|ts| - 1], sort) && AgreesAfter(capacity, ts, sort) {
      AgreesUp(capacity, ts, sort);
    }
  }

  lemma RightThroughoutSplit<P>(capacity: nat, ts: seq<Timed<P>>, sort: Sorter<P>)
    requires capacity > 0 && ts != []
    ensures RightThroughout(capacity, ts, sort) <==>
            RightThroughout(capacity, ts[..|ts| - 1], sort)
            && StepRight(RunRaw(OpenedRaw<P>(capacity), ts[..|ts| - 1], sort), ts[|ts| - 1], sort)
  {
    var init := ts[..|ts| - 1];
    hide RunRaw, StepRight;
    assert forall k :: 0 <= k <= |init| ==> init[..k] == ts[..k];
    assert forall k :: 0 <= k < |init| ==> init[k] == ts[k];
  }
}
