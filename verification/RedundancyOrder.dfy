/** Order on the receive path as written: it holds exactly as long as no timeout
    meets a slot, live or not, with a number below the expected one. */
module RedundancyOrder {
  import opened Words
  import opened Wrappers
  import opened Redundancy
  import opened RedundancyAsWritten
  import opened DeferQueue

  /* ----- the order between steps ----- */

  ghost predicate PassedOn<P>(items: seq<Item<P>>, num: nat) {
    exists k :: 0 <= k < |items| && items[k].num == num
  }

  /** What the first slot of an empty queue holds lies below the expected number. */
  predicate FreshFront<P>(r: Raw<P>) {
    r.store.count == 0 && |r.store.slots| > 0 && r.store.slots[0].Some? ==> r.store.slots[0].value.num < r.seqRx
  }

  /** Numbers passed on increase and lie below the expected one; a slot number
      below it has been passed on. */
  ghost predicate Kept<P(!new)>(r: Raw<P>) {
    && Shaped(r.store)
    && Increasing(r.passed) && AllBelow(r.passed, r.seqRx)
    && Increasing(r.kept) && AllBelow(r.kept, r.seqRx)
    && (forall w :: Some(w) in r.store.slots && w.num < r.seqRx ==> PassedOn(r.passed, w.num))
    && FreshFront(r)
  }

  /** On such a state the search never finds a leftover. */
  lemma NoLeftoverFound<P>(r: Raw<P>, num: nat)
    requires FreshFront(r) && r.seqRx <= num && Front(r.store, num)
    ensures r.store.count > 0
  {
  }

  lemma PassStays<P>(r: Raw<P>, content: P, num: nat)
    requires PassedOn(r.passed, num) || num == r.seqRx
    ensures PassedOn(PassRaw(r, content).passed, num)
  {
    var r2 := PassRaw(r, content);
    if k :| 0 <= k < |r.passed| && r.passed[k].num == num {
      assert r2.passed[k].num == num;
    } else {
      assert r2.passed[|r.passed|].num == num;
    }
  }

  lemma PassKept<P(!new)>(r: Raw<P>, content: P)
    requires Kept(r)
    ensures Kept(PassRaw(r, content))
  {
    var r2 := PassRaw(r, content);
    forall w | Some(w) in r2.store.slots && w.num < r2.seqRx ensures PassedOn(r2.passed, w.num) {
      PassStays(r, content, w.num);
    }
    hide PassedOn;
  }

  lemma FrontStays<P>(r: Raw<P>, sort: Sorter<P>, num: nat)
    requires Shaped(r.store) && r.store.count > 0 && (PassedOn(r.passed, num) || num == r.seqRx)
    ensures PassedOn(PassFrontRaw(r, sort).passed, num)
  {
    var r1 := r.(store := WithoutFront(r.store, sort));
    assert r1.passed == r.passed && r1.seqRx == r.seqRx;
    PassStays(r1, r.store.slots[0].value.content, num);
  }

  lemma PassFrontKept<P(!new)>(r: Raw<P>, sort: Sorter<P>)
    requires Kept(r) && r.store.count > 0 && Front(r.store, r.seqRx) && Sorts(sort)
    ensures Kept(PassFrontRaw(r, sort)) && PassFrontRaw(r, sort).seqRx == r.seqRx + 1
  {
    hide Sorts, PassedOn;
    var content := r.store.slots[0].value.content;
    var r2 := PassFrontRaw(r, sort);
    forall w | Some(w) in r2.store.slots && w.num < r2.seqRx ensures PassedOn(r2.passed, w.num) {
      WithoutFrontStores(r.store, sort, w);
      FrontStays(r, sort, w.num);
    }
  }

  lemma {:induction false} DeliverKept<P(!new)>(r: Raw<P>, sort: Sorter<P>)
    requires Kept(r) && Sorts(sort)
    ensures Kept(DeliverRaw(r, sort)) && r.seqRx <= DeliverRaw(r, sort).seqRx
    decreases r.store.count
  {
    assert Shaped(r.store);
    if Front(r.store, r.seqRx) && r.store.count > 0 {
      PassFrontKept(r, sort);
      hide Kept, Sorts;
      DeliverKept(PassFrontRaw(r, sort), sort);
    }
  }

  lemma QueuedKept<P(!new)>(r: Raw<P>, w: Wrapper<P>, sort: Sorter<P>)
    requires Kept(r) && r.store.count < |r.store.slots| && r.seqRx < w.num && Sorts(sort)
    ensures Kept(Entered(r, w, sort))
  {
    hide Sorts, PassedOn;
    var r2 := Entered(r, w, sort);
    QueuedLive(r.store, w, sort);
    forall v | Some(v) in r2.store.slots && v.num < r.seqRx ensures PassedOn(r2.passed, v.num) {
      QueuedStores(r.store, w, sort, v);
    }
  }

  lemma ReceiveKept<P(!new)>(r: Raw<P>, f: Frame<P>, now: nat, sort: Sorter<P>)
    requires Kept(r) && Sorts(sort)
    ensures Kept(ReceiveRaw(r, f, now, sort)) && r.seqRx <= ReceiveRaw(r, f, now, sort).seqRx
    ensures f.intact && f.num <= r.seqRx ==> f.num < ReceiveRaw(r, f, now, sort).seqRx
  {
    assert Shaped(r.store);
    hide Kept, Sorts, DeliverRaw;
    if f.num == r.seqRx {
      PassKept(r, f.content);
      DeliverKept(PassRaw(r, f.content), sort);
    } else if r.seqRx < f.num && r.store.count < |r.store.slots| {
      QueuedKept(r, Wrapper(f.num, f.content, now), sort);
    }
  }

  /* ----- timeouts ----- */

  /** No slot, live or not, holds a number below the expected one. */
  predicate NothingBelow<P>(r: Raw<P>) {
    forall k :: 0 <= k < |r.store.slots| && r.store.slots[k].Some? ==> r.seqRx <= r.store.slots[k].value.num
  }

  /** If the timer expires, nothing in the slots lies below the expected number. */
  predicate Guarded<P>(r: Raw<P>) {
    MayExpire(r) ==> NothingBelow(r)
  }

  lemma RestartIs<P>(r: Raw<P>)
    requires Shaped(r.store) && MayExpire(r)
    ensures forall w :: Some(w) in r.store.slots ==> Restart(r) <= w.num
    ensures exists w :: Some(w) in r.store.slots && w.num == Restart(r)
  {
    SmallestIs(r.store.slots);
    assert r.store.slots[SmallestSlot(r.store.slots)] in r.store.slots;
  }

  lemma TimeoutKept<P(!new)>(r: Raw<P>, sort: Sorter<P>)
    requires Kept(r) && MayExpire(r) && NothingBelow(r) && Sorts(sort)
    ensures Kept(TimeoutRaw(r, sort)) && r.seqRx <= Restart(r) <= TimeoutRaw(r, sort).seqRx
  {
    RestartIs(r);
    var w :| Some(w) in r.store.slots && w.num == Restart(r);
    assert r.seqRx <= Restart(r);
    var r1 := r.(seqRx := Restart(r));
    assert Kept(r1);
    hide Kept, Sorts;
    DeliverKept(r1, sort);
  }

  /* ----- contents ----- */

  /** Whatever is stored or was passed on left the peer under its number. */
  ghost predicate GenuineRaw<P(!new)>(r: Raw<P>, sent: seq<P>) {
    && Shaped(r.store)
    && (forall w :: Some(w) in r.store.slots ==> Sent(sent, w.num, w.content))
    && (forall k :: 0 <= k < |r.passed| ==> Sent(sent, r.passed[k].num, r.passed[k].content))
    && (forall k :: 0 <= k < |r.kept| ==> Sent(sent, r.kept[k].num, r.kept[k].content))
  }

  lemma PassGenuine<P(!new)>(r: Raw<P>, content: P, sent: seq<P>)
    requires GenuineRaw(r, sent) && Sent(sent, r.seqRx, content)
    ensures GenuineRaw(PassRaw(r, content), sent)
  {
    hide Sent;
  }

  lemma PassFrontGenuine<P(!new)>(r: Raw<P>, sort: Sorter<P>, sent: seq<P>)
    requires GenuineRaw(r, sent) && r.store.count > 0 && Front(r.store, r.seqRx) && Sorts(sort)
    ensures GenuineRaw(PassFrontRaw(r, sort), sent)
  {
    hide Sent, Sorts;
    var r1 := r.(store := WithoutFront(r.store, sort));
    assert r.store.slots[0] in r.store.slots;
    forall w | Some(w) in r1.store.slots ensures Sent(sent, w.num, w.content) {
      WithoutFrontStores(r.store, sort, w);
    }
    assert GenuineRaw(r1, sent);
    PassGenuine(r1, r.store.slots[0].value.content, sent);
  }

  lemma {:induction false} DeliverGenuineRaw<P(!new)>(r: Raw<P>, sort: Sorter<P>, sent: seq<P>)
    requires GenuineRaw(r, sent) && Sorts(sort)
    ensures GenuineRaw(DeliverRaw(r, sort), sent)
    decreases r.store.count
  {
    assert Shaped(r.store);
    if Front(r.store, r.seqRx) && r.store.count > 0 {
      PassFrontGenuine(r, sort, sent);
      hide GenuineRaw, Sorts;
      DeliverGenuineRaw(PassFrontRaw(r, sort), sort, sent);
    }
  }

  lemma QueuedGenuineRaw<P(!new)>(r: Raw<P>, w: Wrapper<P>, sort: Sorter<P>, sent: seq<P>)
    requires GenuineRaw(r, sent) && r.store.count < |r.store.slots| && Sent(sent, w.num, w.content) && Sorts(sort)
    ensures GenuineRaw(Entered(r, w, sort), sent)
  {
    hide Sent, Sorts;
    QueuedLive(r.store, w, sort);
    forall v | Some(v) in Queued(r.store, w, sort).slots ensures Sent(sent, v.num, v.content) {
      QueuedStores(r.store, w, sort, v);
    }
  }

  lemma ReceiveGenuineRaw<P(!new)>(r: Raw<P>, f: Frame<P>, now: nat, sort: Sorter<P>, sent: seq<P>)
    requires GenuineRaw(r, sent) && Sent(sent, f.num, f.content) && Sorts(sort)
    ensures GenuineRaw(ReceiveRaw(r, f, now, sort), sent)
  {
    assert Shaped(r.store);
    hide Sent, Sorts, DeliverRaw, GenuineRaw;
    if f.num == r.seqRx {
      PassGenuine(r, f.content, sent);
      DeliverGenuineRaw(PassRaw(r, f.content), sort, sent);
    } else if r.store.count < |r.store.slots| {
      QueuedGenuineRaw(r, Wrapper(f.num, f.content, now), sort, sent);
    }
  }

  lemma TimeoutGenuineRaw<P(!new)>(r: Raw<P>, sort: Sorter<P>, sent: seq<P>)
    requires GenuineRaw(r, sent) && MayExpire(r) && Sorts(sort)
    ensures GenuineRaw(TimeoutRaw(r, sort), sent)
  {
    var r1 := r.(seqRx := Restart(r));
    assert GenuineRaw(r1, sent);
    hide GenuineRaw, Sorts;
    DeliverGenuineRaw(r1, sort, sent);
  }

  lemma GrowsRaw<P(!new)>(r: Raw<P>, sent: seq<P>, ps: seq<P>)
    requires GenuineRaw(r, sent)
    ensures GenuineRaw(r, sent + ps)
  {
    forall n, c | Sent(sent, n, c) ensures Sent(sent + ps, n, c) {
      var i :| 0 <= i < |sent| && i % U32 == n && sent[i] == c;
      assert (sent + ps)[i] == c;
    }
  }

  /* ----- steps and runs ----- */

  lemma StepKeptRaw<P(!new)>(l: RawLink<P>, t: Timed<P>, sort: Sorter<P>)
    requires Kept(l.r) && GenuineRaw(l.r, l.sent) && Sorts(sort) && (t.ev.Expires? ==> Guarded(l.r))
    ensures Kept(StepRaw(l, t, sort).r) && l.r.seqRx <= StepRaw(l, t, sort).r.seqRx
  {
    assert Shaped(l.r.store);
    match t.ev
    case PeerSends(p) =>
    case Arrives(_, i, intact) =>
      if i < |l.sent| {
        ReceiveKept(l.r, Frame(i % U32, l.sent[i], intact), t.now, sort);
        hide Kept, Sorts;
      }
    case Expires =>
      if MayExpire(l.r) {
        TimeoutKept(l.r, sort);
        hide Kept, Sorts, TimeoutRaw;
      }
    case Sends =>
    case Retrieves =>
  }

  lemma StepGenuineRaw<P(!new)>(l: RawLink<P>, t: Timed<P>, sort: Sorter<P>)
    requires GenuineRaw(l.r, l.sent) && Sorts(sort)
    ensures GenuineRaw(StepRaw(l, t, sort).r, StepRaw(l, t, sort).sent)
  {
    assert Shaped(l.r.store);
    hide Sorts, Sent;
    match t.ev
    case PeerSends(p) => GrowsRaw(l.r, l.sent, [p]);
    case Arrives(_, i, intact) =>
      if i < |l.sent| {
        assert Sent(l.sent, i % U32, l.sent[i]) by {
          SentAt(l.sent, i);
        }
        ReceiveGenuineRaw(l.r, Frame(i % U32, l.sent[i], intact), t.now, sort, l.sent);
      }
    case Expires =>
      if MayExpire(l.r) {
        TimeoutGenuineRaw(l.r, sort, l.sent);
      }
    case Sends =>
    case Retrieves =>
  }

  lemma SentAt<P>(sent: seq<P>, i: nat)
    requires i < |sent|
    ensures Sent(sent, i % U32, sent[i])
  {
  }

  /** Every timeout of the run meets the guard. */
  ghost predicate TimeoutsGuarded<P>(l: RawLink<P>, ts: seq<Timed<P>>, sort: Sorter<P>)
    requires Shaped(l.r.store)
  {
    forall k :: 0 <= k < |ts| && ts[k].ev.Expires? ==> Guarded(RunRaw(l, ts[..k], sort).r)
  }

  lemma GuardedBefore<P>(l: RawLink<P>, ts: seq<Timed<P>>, sort: Sorter<P>)
    requires Shaped(l.r.store) && ts != []
    ensures var init := ts[..|ts| - 1];
            TimeoutsGuarded(l, ts, sort) <==>
              TimeoutsGuarded(l, init, sort) && (ts[|init|].ev.Expires? ==> Guarded(RunRaw(l, init, sort).r))
  {
    hide RunRaw, Guarded;
    var init := ts[..|ts| - 1];
    assert forall k :: 0 <= k <= |init| ==> init[..k] == ts[..k];
    assert forall k :: 0 <= k < |init| ==> init[k] == ts[k];
    assert init[..|init|] == init;
  }

  lemma {:induction false} RunGenuineRaw<P(!new)>(l: RawLink<P>, ts: seq<Timed<P>>, sort: Sorter<P>)
    requires GenuineRaw(l.r, l.sent) && Sorts(sort)
    ensures GenuineRaw(RunRaw(l, ts, sort).r, RunRaw(l, ts, sort).sent)
    decreases |ts|
  {
    assert Shaped(l.r.store);
    hide StepRaw, GenuineRaw, Sorts;
    if ts != [] {
      RunGenuineRaw(l, ts[..|ts| - 1], sort);
      StepGenuineRaw(RunRaw(l, ts[..|ts| - 1], sort), ts[|ts| - 1], sort);
    }
  }

  lemma {:induction false} RunKeptRaw<P(!new)>(l: RawLink<P>, ts: seq<Timed<P>>, sort: Sorter<P>)
    requires Kept(l.r) && GenuineRaw(l.r, l.sent) && Sorts(sort) && TimeoutsGuarded(l, ts, sort)
    ensures Kept(RunRaw(l, ts, sort).r)
    decreases |ts|
  {
    assert Shaped(l.r.store);
    hide StepRaw, Kept, GenuineRaw, Sorts, TimeoutsGuarded, Guarded;
    if ts != [] {
      GuardedBefore(l, ts, sort);
      RunKeptRaw(l, ts[..|ts| - 1], sort);
      RunGenuineRaw(l, ts[..|ts| - 1], sort);
      StepKeptRaw(RunRaw(l, ts[..|ts| - 1], sort), ts[|ts| - 1], sort);
    }
  }

  lemma StartsKept<P(!new)>(capacity: nat)
    requires capacity > 0
    ensures var l := OpenedRaw<P>(capacity);
            Kept(l.r) && GenuineRaw(l.r, l.sent)
  {
  }

  /** In every run, with timeouts at any point: what is handed up left the peer
      under its number. */
  lemma GenuineInEveryRun<P(!new)>(capacity: nat, ts: seq<Timed<P>>, sort: Sorter<P>)
    requires capacity > 0 && Sorts(sort)
    ensures var l := RunRaw(OpenedRaw<P>(capacity), ts, sort);
            && (forall k :: 0 <= k < |l.r.passed| ==> Sent(l.sent, l.r.passed[k].num, l.r.passed[k].content))
            && (forall k :: 0 <= k < |l.r.kept| ==> Sent(l.sent, l.r.kept[k].num, l.r.kept[k].content))
  {
    StartsKept<P>(capacity);
    hide RunRaw, Sorts, Sent, OpenedRaw;
    RunGenuineRaw(OpenedRaw<P>(capacity), ts, sort);
  }

  /** As written, for every arrival order with loss, duplication, reordering and
      damage, and with timeouts that meet no slot number below the expected one:
      the numbers passed on and those handed up increase. */
  lemma InOrderWhenGuarded<P(!new)>(capacity: nat, ts: seq<Timed<P>>, sort: Sorter<P>)
    requires capacity > 0 && Sorts(sort) && TimeoutsGuarded(OpenedRaw<P>(capacity), ts, sort)
    ensures var l := RunRaw(OpenedRaw<P>(capacity), ts, sort);
            Increasing(l.r.passed) && Increasing(l.r.kept) && AllBelow(l.r.passed, l.r.seqRx)
  {
    StartsKept<P>(capacity);
    hide RunRaw, Sorts, OpenedRaw, TimeoutsGuarded;
    RunKeptRaw(OpenedRaw<P>(capacity), ts, sort);
  }

  /* ----- the guard is exact ----- */

  /** The order holds, and still holds after any one arrival. */
  ghost predicate OrderSecure<P(!new)>(l: RawLink<P>, sort: Sorter<P>)
    requires Shaped(l.r.store)
  {
    && Increasing(l.r.passed)
    && forall t: Timed<P> :: t.ev.Arrives? ==> Increasing(StepRaw(l, t, sort).r.passed)
  }

  /** The receive FIFO only grows, up to its capacity. */
  lemma {:induction false} DeliverGrows<P>(r: Raw<P>, sort: Sorter<P>)
    requires Shaped(r.store) && |r.fifo| <= |r.store.slots|
    ensures r.fifo <= DeliverRaw(r, sort).fifo && |DeliverRaw(r, sort).fifo| <= |r.store.slots|
    decreases r.store.count
  {
    if Front(r.store, r.seqRx) && r.store.count > 0 {
      DeliverGrows(PassFrontRaw(r, sort), sort);
    }
  }

  lemma {:induction false} DeliverExtends<P>(r: Raw<P>, sort: Sorter<P>)
    requires Shaped(r.store)
    ensures r.passed <= DeliverRaw(r, sort).passed
    decreases r.store.count
  {
    if Front(r.store, r.seqRx) && r.store.count > 0 {
      DeliverExtends(PassFrontRaw(r, sort), sort);
    }
  }

  /** What becomes of a frame in the program as written, exactly: one that is
      damaged, below the expected number, more than ten times the queue's
      capacity ahead, or ahead while nothing was sent or received yet is dropped.
      Of the others the expected one is passed on, and kept if the FIFO has room;
      the next ones wait if there is room and the first slot does not hold their number. */
  lemma FrameFate<P(!new)>(r: Raw<P>, f: Frame<P>, now: nat, sort: Sorter<P>)
    requires Shaped(r.store) && |r.fifo| <= |r.store.slots| && Sorts(sort)
    ensures var r2 := ReceiveRaw(r, f, now, sort);
            var first := r.store.slots[0];
            var waits := f.intact && (r.seqRx > 0 || r.seqTx > 0)
              && r.seqRx < f.num <= r.seqRx + 10 * |r.store.slots|
              && r.store.count < |r.store.slots| && !(first.Some? && first.value.num == f.num);
            && (f.intact && f.num == r.seqRx ==>
                  && |r2.passed| > |r.passed| && r2.passed[|r.passed|] == Item(f.num, f.content)
                  && (if |r.fifo| < |r.store.slots| then r.fifo + [f.content] <= r2.fifo else r2.fifo == r.fifo))
            && |r2.fifo| <= |r.store.slots|
            && (waits ==>
                  && r2 == r.(store := r2.store)
                  && multiset(Live(r2.store)) == multiset(Live(r.store)) + multiset{Wrapper(f.num, f.content, now)})
            && (!(f.intact && f.num == r.seqRx) && !waits ==> r2 == r)
  {
    DeliverExtends(PassRaw(r, f.content), sort);
    DeliverGrows(PassRaw(r, f.content), sort);
    if r.store.count < |r.store.slots| {
      QueuedLive(r.store, Wrapper(f.num, f.content, now), sort);
    }
    hide Sorts, Queued, DeliverRaw;
  }

  lemma TwiceIsNoOrder<P>(r: Raw<P>, content: P, later: seq<Item<P>>)
    requires PassedOn(r.passed, r.seqRx) && r.passed + [Item(r.seqRx, content)] <= later
    ensures !Increasing(later)
  {
    var k :| 0 <= k < |r.passed| && r.passed[k].num == r.seqRx;
    assert later[k].num == later[|r.passed|].num;
  }

  lemma KeptIsSecure<P(!new)>(l: RawLink<P>, sort: Sorter<P>)
    requires Kept(l.r) && GenuineRaw(l.r, l.sent) && Sorts(sort)
    ensures OrderSecure(l, sort)
  {
    assert Shaped(l.r.store);
    hide Kept, Sorts, GenuineRaw, StepRaw;
    assert Increasing(l.r.passed) by {
      KeptOrder(l.r);
    }
    forall t: Timed<P> | t.ev.Arrives? ensures Increasing(StepRaw(l, t, sort).r.passed) {
      StepKeptRaw(l, t, sort);
      KeptOrder(StepRaw(l, t, sort).r);
    }
  }

  lemma KeptOrder<P(!new)>(r: Raw<P>)
    requires Kept(r)
    ensures Increasing(r.passed)
  {
  }

  /** A second copy of the number that a timeout went back to is passed on. */
  lemma ArrivesAgain<P(!new)>(l: RawLink<P>, i: nat, sort: Sorter<P>)
    requires Shaped(l.r.store) && i < |l.sent| && i % U32 == l.r.seqRx && PassedOn(l.r.passed, l.r.seqRx)
    ensures !OrderSecure(l, sort)
  {
    var t: Timed<P> := Timed(Arrives(0, i, true), 0);
    var r1 := PassRaw(l.r, l.sent[i]);
    assert StepRaw(l, t, sort).r == DeliverRaw(r1, sort);
    DeliverExtends(r1, sort);
    TwiceIsNoOrder(l.r, l.sent[i], DeliverRaw(r1, sort).passed);
  }

  lemma GoingBackIsInsecure<P(!new)>(l: RawLink<P>, t: Timed<P>, sort: Sorter<P>)
    requires Kept(l.r) && GenuineRaw(l.r, l.sent) && t.ev.Expires? && MayExpire(l.r) && Restart(l.r) < l.r.seqRx
    ensures !OrderSecure(StepRaw(l, t, sort), sort)
  {
    RestartIs(l.r);
    var r1 := l.r.(seqRx := Restart(l.r));
    var w :| Some(w) in l.r.store.slots && w.num == Restart(l.r);
    assert Sent(l.sent, w.num, w.content);
    assert StepRaw(l, t, sort).r == DeliverRaw(r1, sort);
    hide Kept, GenuineRaw, PassedOn;
    if Front(r1.store, r1.seqRx) {
      var r2 := PassFrontRaw(r1, sort);
      assert DeliverRaw(r1, sort) == DeliverRaw(r2, sort);
      DeliverExtends(r2, sort);
      TwiceIsNoOrder(r1, l.r.store.slots[0].value.content, DeliverRaw(r1, sort).passed);
    } else {
      assert DeliverRaw(r1, sort) == r1;
      var i :| 0 <= i < |l.sent| && i % U32 == w.num && l.sent[i] == w.content;
      ArrivesAgain(StepRaw(l, t, sort), i, sort);
    }
  }

  /** After a timeout the order holds, and goes on holding whatever arrives
      next, if and only if no slot held a number below the expected one. */
  lemma TimeoutSecureIff<P(!new)>(l: RawLink<P>, t: Timed<P>, sort: Sorter<P>)
    requires Kept(l.r) && GenuineRaw(l.r, l.sent) && t.ev.Expires? && MayExpire(l.r) && Sorts(sort)
    ensures OrderSecure(StepRaw(l, t, sort), sort) <==> NothingBelow(l.r)
  {
    if NothingBelow(l.r) {
      StepKeptRaw(l, t, sort);
      StepGenuineRaw(l, t, sort);
      KeptIsSecure(StepRaw(l, t, sort), sort);
    } else {
      RestartIs(l.r);
      var k :| 0 <= k < |l.r.store.slots| && l.r.store.slots[k].Some? && l.r.store.slots[k].value.num < l.r.seqRx;
      assert l.r.store.slots[k] in l.r.store.slots;
      GoingBackIsInsecure(l, t, sort);
    }
  }

  /** The order is secure from the start to the end of the run. */
  ghost predicate SecureThroughout<P(!new)>(l: RawLink<P>, ts: seq<Timed<P>>, sort: Sorter<P>)
    requires Shaped(l.r.store)
  {
    forall k :: 0 <= k <= |ts| ==> OrderSecure(RunRaw(l, ts[..k], sort), sort)
  }

  lemma SecureBefore<P(!new)>(l: RawLink<P>, ts: seq<Timed<P>>, sort: Sorter<P>)
    requires Shaped(l.r.store) && ts != []
    ensures SecureThroughout(l, ts, sort) <==>
              SecureThroughout(l, ts[..|ts| - 1], sort) && OrderSecure(RunRaw(l, ts, sort), sort)
  {
    hide RunRaw, OrderSecure;
    var init := ts[..|ts| - 1];
    assert forall k :: 0 <= k <= |init| ==> init[..k] == ts[..k];
    assert ts[..|ts|] == ts;
  }

  /** A run keeps the order securely throughout if and only if each of its
      timeouts finds no slot number below the expected one. */
  lemma {:induction false} RunSecureIff<P(!new)>(capacity: nat, ts: seq<Timed<P>>, sort: Sorter<P>)
    requires capacity > 0 && Sorts(sort)
    ensures SecureThroughout(OpenedRaw<P>(capacity), ts, sort) <==> TimeoutsGuarded(OpenedRaw<P>(capacity), ts, sort)
    decreases |ts|
  {
    var l0 := OpenedRaw<P>(capacity);
    StartsKept<P>(capacity);
    hide Kept, GenuineRaw, Sorts, OrderSecure, Guarded, OpenedRaw, StepRaw, TimeoutsGuarded, SecureThroughout;
    if ts == [] {
      SecureAtStart(l0, sort);
    } else {
      var init, t := ts[..|ts| - 1], ts[|ts| - 1];
      RunSecureIff(capacity, init, sort);
      SecureBefore(l0, ts, sort);
      GuardedBefore(l0, ts, sort);
      if TimeoutsGuarded(l0, init, sort) {
        RunKeptRaw(l0, init, sort);
        RunGenuineRaw(l0, init, sort);
        StepSecureIff(RunRaw(l0, init, sort), t, sort);
      }
    }
  }

  lemma SecureAtStart<P(!new)>(l: RawLink<P>, sort: Sorter<P>)
    requires Kept(l.r) && GenuineRaw(l.r, l.sent) && Sorts(sort)
    ensures SecureThroughout(l, [], sort) && TimeoutsGuarded(l, [], sort)
  {
    var none: seq<Timed<P>> := [];
    assert RunRaw(l, none, sort) == l && none[..0] == none;
    KeptIsSecure(l, sort);
    hide OrderSecure;
  }

  lemma StepSecureIff<P(!new)>(l: RawLink<P>, t: Timed<P>, sort: Sorter<P>)
    requires Kept(l.r) && GenuineRaw(l.r, l.sent) && Sorts(sort)
    ensures OrderSecure(StepRaw(l, t, sort), sort) <==> (t.ev.Expires? ==> Guarded(l.r))
  {
    assert Shaped(l.r.store);
    hide Kept, GenuineRaw, Sorts, OrderSecure, NothingBelow, StepRaw, MayExpire, Shaped;
    if t.ev.Expires? && MayExpire(l.r) {
      TimeoutSecureIff(l, t, sort);
    } else {
      StepKeptRaw(l, t, sort);
      StepGenuineRaw(l, t, sort);
      KeptIsSecure(StepRaw(l, t, sort), sort);
    }
  }

  /* ----- the search of the delivery loop never finds a leftover ----- */

  lemma {:induction false} DeliverFresh<P>(r: Raw<P>, sort: Sorter<P>)
    requires Shaped(r.store) && FreshFront(r)
    ensures FreshFront(DeliverRaw(r, sort))
    decreases r.store.count
  {
    if Front(r.store, r.seqRx) && r.store.count > 0 {
      PassFrontFresh(r, sort);
      hide FreshFront;
      DeliverFresh(PassFrontRaw(r, sort), sort);
    }
  }

  lemma PassFrontFresh<P>(r: Raw<P>, sort: Sorter<P>)
    requires Shaped(r.store) && FreshFront(r) && Front(r.store, r.seqRx) && r.store.count > 0
    ensures FreshFront(PassFrontRaw(r, sort))
  {
  }

  lemma StepFresh<P(!new)>(l: RawLink<P>, t: Timed<P>, sort: Sorter<P>)
    requires Shaped(l.r.store) && FreshFront(l.r) && Sorts(sort)
    ensures FreshFront(StepRaw(l, t, sort).r)
  {
    hide Sorts, DeliverRaw;
    var r := l.r;
    if t.ev.Arrives? && t.ev.index < |l.sent| {
      var f := Frame(t.ev.index % U32, l.sent[t.ev.index], t.ev.intact);
      DeliverFresh(PassRaw(r, f.content), sort);
      if r.store.count < |r.store.slots| {
        QueuedLive(r.store, Wrapper(f.num, f.content, t.now), sort);
      }
    } else if t.ev.Expires? && MayExpire(r) {
      DeliverFresh(r.(seqRx := Restart(r)), sort);
    }
  }

  /** In every run, timeouts at any point: what the delivery loop's search finds
      is a live element, so the loop goes on exactly while the search succeeds. */
  lemma {:induction false} FoundIsLive<P(!new)>(capacity: nat, ts: seq<Timed<P>>, sort: Sorter<P>)
    requires capacity > 0 && Sorts(sort)
    ensures var r := RunRaw(OpenedRaw<P>(capacity), ts, sort).r;
            FreshFront(r) && (Front(r.store, r.seqRx) ==> r.store.count > 0)
    decreases |ts|
  {
    assert Shaped(OpenedRaw<P>(capacity).r.store);
    if ts != [] {
      hide StepRaw, OpenedRaw, Sorts;
      FoundIsLive(capacity, ts[..|ts| - 1], sort);
      StepFresh(RunRaw(OpenedRaw<P>(capacity), ts[..|ts| - 1], sort), ts[|ts| - 1], sort);
    }
  }

  /* ----- no gaps without timeouts ----- */

  ghost predicate NoTimeout<P>(ts: seq<Timed<P>>) {
    forall k :: 0 <= k < |ts| ==> !ts[k].ev.Expires?
  }

  ghost predicate GaplessRaw<P>(r: Raw<P>) {
    |r.passed| == r.seqRx && forall k :: 0 <= k < |r.passed| ==> r.passed[k].num == k
  }

  lemma {:induction false} DeliverGaplessRaw<P>(r: Raw<P>, sort: Sorter<P>)
    requires Shaped(r.store) && GaplessRaw(r)
    ensures GaplessRaw(DeliverRaw(r, sort))
    decreases r.store.count
  {
    if Front(r.store, r.seqRx) && r.store.count > 0 {
      DeliverGaplessRaw(PassFrontRaw(r, sort), sort);
    }
  }

  lemma {:induction false} StepGaplessRaw<P>(l: RawLink<P>, t: Timed<P>, sort: Sorter<P>)
    requires Shaped(l.r.store) && GaplessRaw(l.r) && !t.ev.Expires?
    ensures GaplessRaw(StepRaw(l, t, sort).r)
  {
    if t.ev.Arrives? && t.ev.index < |l.sent| {
      DeliverGaplessRaw(PassRaw(l.r, l.sent[t.ev.index]), sort);
    }
  }

  /** Without timeouts the numbers passed on are exactly 0 to seq_rx - 1. */
  lemma {:induction false} NoGapsRaw<P>(capacity: nat, ts: seq<Timed<P>>, sort: Sorter<P>)
    requires capacity > 0 && NoTimeout(ts)
    ensures GaplessRaw(RunRaw(OpenedRaw<P>(capacity), ts, sort).r)
    decreases |ts|
  {
    assert Shaped(OpenedRaw<P>(capacity).r.store);
    if ts != [] {
      hide StepRaw, GaplessRaw, OpenedRaw;
      NoGapsRaw(capacity, ts[..|ts| - 1], sort);
      StepGaplessRaw(RunRaw(OpenedRaw<P>(capacity), ts[..|ts| - 1], sort), ts[|ts| - 1], sort);
    }
  }

  /* ----- one healthy channel ----- */

  ghost function DeliveredOnRaw<P>(l: RawLink<P>, ts: seq<Timed<P>>, c: nat, sort: Sorter<P>): seq<nat>
    requires Shaped(l.r.store)
    decreases |ts|
  {
    if ts == [] then []
    else
      var init := ts[..|ts| - 1];
      var ev := ts[|ts| - 1].ev;
      if ev.Arrives? && ev.channel == c && ev.intact && ev.index < |RunRaw(l, init, sort).sent|
      then DeliveredOnRaw(l, init, c, sort) + [ev.index]
      else DeliveredOnRaw(l, init, c, sort)
  }

  lemma HealthyStepRaw<P(!new)>(l: RawLink<P>, t: Timed<P>, k: nat, sort: Sorter<P>)
    requires Kept(l.r) && GenuineRaw(l.r, l.sent) && UpTo32(k) <= l.r.seqRx && Sorts(sort)
    requires t.ev.Arrives? && t.ev.index == k && t.ev.intact && k < |l.sent|
    ensures UpTo32(k + 1) <= StepRaw(l, t, sort).r.seqRx
  {
    var f := Frame(k % U32, l.sent[k], true);
    ReceiveKept(l.r, f, t.now, sort);
    hide ReceiveRaw, Kept, GenuineRaw, Sorts;
    if k < U32 {
      assert k % U32 == k;
    }
  }

  /** One channel that delivers every frame in order is still enough. */
  lemma {:induction false} HealthyChannelSufficesRaw<P(!new)>(capacity: nat, ts: seq<Timed<P>>, c: nat, sort: Sorter<P>)
    requires capacity > 0 && Sorts(sort) && TimeoutsGuarded(OpenedRaw<P>(capacity), ts, sort)
    requires InOrderFromZero(DeliveredOnRaw(OpenedRaw<P>(capacity), ts, c, sort))
    ensures UpTo32(|DeliveredOnRaw(OpenedRaw<P>(capacity), ts, c, sort)|)
         <= RunRaw(OpenedRaw<P>(capacity), ts, sort).r.seqRx
    decreases |ts|
  {
    var l0 := OpenedRaw<P>(capacity);
    if ts != [] {
      var init, t := ts[..|ts| - 1], ts[|ts| - 1];
      StartsKept<P>(capacity);
      hide StepRaw, Kept, GenuineRaw, UpTo32, OpenedRaw, Sorts, TimeoutsGuarded, Guarded;
      GuardedBefore(l0, ts, sort);
      RunKeptRaw(l0, init, sort);
      RunGenuineRaw(l0, init, sort);
      var before := DeliveredOnRaw(l0, init, c, sort);
      assert before <= DeliveredOnRaw(l0, ts, c, sort);
      HealthyChannelSufficesRaw(capacity, init, c, sort);
      var m := RunRaw(l0, init, sort);
      StepKeptRaw(m, t, sort);
      if DeliveredOnRaw(l0, ts, c, sort) != before {
        assert DeliveredOnRaw(l0, ts, c, sort)[|before|] == t.ev.index;
        HealthyStepRaw(m, t, |before|, sort);
      }
    }
  }
}
