/** The receive path over the defer queue as the program has it: the search
    compares the first slot only, the timeout looks at all slots. */
module RedundancyAsWritten {
  import opened Words
  import opened Wrappers
  import opened Redundancy
  import opened DeferQueue

  datatype Raw<P> = Raw(
    seqRx: nat, seqTx: nat, store: Store<P>, fifo: seq<P>, passed: seq<Item<P>>, kept: seq<Item<P>>)

  function PassRaw<P>(r: Raw<P>, content: P): Raw<P> {
    var item := Item(r.seqRx, content);
    var full := |r.fifo| == |r.store.slots|;
    r.(seqRx := r.seqRx + 1,
       fifo := if full then r.fifo else r.fifo + [content],
       passed := r.passed + [item],
       kept := if full then r.kept else r.kept + [item])
  }

  /** One turn of deliverDeferQueue. */
  function PassFrontRaw<P>(r: Raw<P>, sort: Sorter<P>): (r2: Raw<P>)
    requires Shaped(r.store) && r.store.count > 0
    ensures Shaped(r2.store) && r2.store.count == r.store.count - 1
  {
    PassRaw(r.(store := WithoutFront(r.store, sort)), r.store.slots[0].value.content)
  }

  function DeliverRaw<P>(r: Raw<P>, sort: Sorter<P>): (r2: Raw<P>)
    requires Shaped(r.store)
    ensures Shaped(r2.store)
    decreases r.store.count
  {
    if Front(r.store, r.seqRx) && r.store.count > 0 then DeliverRaw(PassFrontRaw(r, sort), sort) else r
  }

  /** A frame joins a queue with room. */
  function Entered<P>(r: Raw<P>, w: Wrapper<P>, sort: Sorter<P>): Raw<P>
    requires Shaped(r.store) && r.store.count < |r.store.slots|
  {
    r.(store := Queued(r.store, w, sort))
  }

  /** rasta_red_f_receive at time now. */
  function ReceiveRaw<P>(r: Raw<P>, f: Frame<P>, now: nat, sort: Sorter<P>): (r2: Raw<P>)
    requires Shaped(r.store)
    ensures Shaped(r2.store)
  {
    if !f.intact then r
    else if r.seqRx == 0 && r.seqTx == 0 && f.num != 0 then r
    else if f.num < r.seqRx then r
    else if f.num == r.seqRx then DeliverRaw(PassRaw(r, f.content), sort)
    else if f.num <= r.seqRx + |r.store.slots| * 10 then
      if Front(r.store, f.num) || r.store.count == |r.store.slots| then r
      else Entered(r, Wrapper(f.num, f.content, now), sort)
    else r
  }

  /** The timer runs while the queue is not empty; on a slot never used the
      timeout reads through a null pointer. */
  predicate MayExpire<P>(r: Raw<P>) {
    r.store.count > 0 && forall k :: 0 <= k < |r.store.slots| ==> r.store.slots[k].Some?
  }

  /** The number a timeout makes the expected one. */
  function Restart<P>(r: Raw<P>): nat
    requires Shaped(r.store) && MayExpire(r)
  {
    r.store.slots[SmallestSlot(r.store.slots)].value.num
  }

  /** rasta_red_f_deferTmo. */
  function TimeoutRaw<P>(r: Raw<P>, sort: Sorter<P>): (r2: Raw<P>)
    requires Shaped(r.store) && MayExpire(r)
    ensures Shaped(r2.store)
  {
    DeliverRaw(r.(seqRx := Restart(r)), sort)
  }

  /* ----- runs ----- */

  datatype Timed<P> = Timed(ev: Event<P>, now: nat)

  datatype RawLink<P> = RawLink(sent: seq<P>, r: Raw<P>)

  function OpenedRaw<P>(capacity: nat): (l: RawLink<P>)
    ensures capacity > 0 ==> Shaped(l.r.store)
  {
    RawLink([], Raw(0, 0, Store(seq(capacity, _ => None), 0), [], [], []))
  }

  /** A timeout that meets a slot never used reads through a null pointer; it is
      no step here. */
  function StepRaw<P>(l: RawLink<P>, t: Timed<P>, sort: Sorter<P>): (l2: RawLink<P>)
    requires Shaped(l.r.store)
    ensures Shaped(l2.r.store)
  {
    match t.ev
    case PeerSends(p) => l.(sent := l.sent + [p])
    case Arrives(_, i, intact) =>
      if i < |l.sent| then l.(r := ReceiveRaw(l.r, Frame(i % U32, l.sent[i], intact), t.now, sort)) else l
    case Sends => l.(r := l.r.(seqTx := l.r.seqTx + 1))
    case Expires =>
      if MayExpire(l.r) then l.(r := TimeoutRaw(l.r, sort)) else l
    case Retrieves => if l.r.fifo == [] then l else l.(r := l.r.(fifo := l.r.fifo[1..]))
  }

  function RunRaw<P>(l: RawLink<P>, ts: seq<Timed<P>>, sort: Sorter<P>): (l2: RawLink<P>)
    requires Shaped(l.r.store)
    ensures Shaped(l2.r.store)
    decreases |ts|
  {
    if ts == [] then l else StepRaw(RunRaw(l, ts[..|ts| - 1], sort), ts[|ts| - 1], sort)
  }
}
