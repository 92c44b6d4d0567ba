/** The receive path of a redundancy channel, updated in place. */
module RedundancyChannel {
  import opened Words
  import opened Redundancy
  import opened DeferQueue
  import opened RedundancyAsWritten
  import opened RedundancyOrder

  class Channel<!P(!new)> {
    const deferQ: Queue<P>
    var seqRx: nat
    var seqTx: nat
    var fifoRecv: seq<P>
    /** The history of deliveries. */
    ghost var passed: seq<Item<P>>
    ghost var kept: seq<Item<P>>

    /** The loop of the delivery never meets a leftover of a removed element. */
    ghost predicate Valid()
      reads this, deferQ, deferQ.elements
    {
      deferQ.Valid() && FreshFront(Now())
    }

    ghost function Now(): Raw<P>
      reads this, deferQ, deferQ.elements
    {
      Raw(seqRx, seqTx, deferQ.Now(), fifoRecv, passed, kept)
    }

    constructor (capacity: nat, sort: Sorter<P>)
      requires capacity > 0 && Sorts(sort)
      ensures Valid() && Now() == OpenedRaw(capacity).r && deferQ.sort == sort
      ensures fresh(deferQ) && fresh(deferQ.elements)
    {
      deferQ := new Queue(capacity, sort);
      seqRx, seqTx, fifoRecv := 0, 0, [];
      passed, kept := [], [];
    }

    /** Hand the content of the expected frame to the next layer. */
    method PassOn(content: P)
      requires deferQ.Valid()
      modifies this`seqRx, this`fifoRecv, this`passed, this`kept
      ensures Now() == PassRaw(old(Now()), content)
    {
      ghost var item := Item(seqRx, content);
      passed := passed + [item];
      if |fifoRecv| != deferQ.elements.Length {
        fifoRecv := fifoRecv + [content];
        kept := kept + [item];
      }
      seqRx := seqRx + 1;
    }

    /** One turn of the delivery loop. */
    method PassFront()
      requires Valid() && Front(deferQ.Now(), seqRx)
      modifies this`seqRx, this`fifoRecv, this`passed, this`kept, deferQ`count, deferQ.elements
      ensures Valid() && old(deferQ.count) > 0 && Now() == PassFrontRaw(old(Now()), deferQ.sort)
    {
      ghost var before := Now();
      NoLeftoverFound(before, seqRx);
      PassFrontFresh(before, deferQ.sort);
      hide Sorts, WithoutFront;
      var found := deferQ.Get(seqRx);
      deferQ.Remove(seqRx);
      PassOn(found.value);
      assert Now() == PassFrontRaw(before, deferQ.sort);
    }

    method DeliverDeferQueue()
      requires Valid()
      modifies this`seqRx, this`fifoRecv, this`passed, this`kept, deferQ`count, deferQ.elements
      ensures Valid() && Now() == DeliverRaw(old(Now()), deferQ.sort)
    {
      var more := deferQ.Contains(seqRx);
      while more
        invariant Valid() && more == Front(deferQ.Now(), seqRx)
        invariant DeliverRaw(Now(), deferQ.sort) == DeliverRaw(old(Now()), deferQ.sort)
        decreases deferQ.count
      {
        NoLeftoverFound(Now(), seqRx);
        hide Sorts, PassFrontRaw;
        PassFront();
        more := deferQ.Contains(seqRx);
      }
    }

    /** A frame ahead of the expected one: kept unless found or the queue is full. */
    method Ahead(f: Frame<P>, now: nat)
      requires Valid() && f.num < U32
      modifies deferQ`count, deferQ.elements
      ensures Valid()
      ensures var r := old(Now());
              Now() == if Front(r.store, f.num) || r.store.count == |r.store.slots| then r
                       else Entered(r, Wrapper(f.num, f.content, now), deferQ.sort)
    {
      hide Sorts, Queued;
      var known := deferQ.Contains(f.num);
      if known {
        return;
      }
      var full := deferQ.IsFull();
      if full {
        return;
      }
      QueuedLive(deferQ.Now(), Wrapper(f.num, f.content, now), deferQ.sort);
      deferQ.Add(f.num, f.content, now);
    }

    /** rasta_red_f_receive; now is the current time. */
    method Receive(f: Frame<P>, now: nat)
      requires Valid() && f.num < U32
      modifies this`seqRx, this`fifoRecv, this`passed, this`kept, deferQ`count, deferQ.elements
      ensures Valid() && Now() == ReceiveRaw(old(Now()), f, now, deferQ.sort)
    {
      hide Sorts, DeliverRaw, Queued;
      if !f.intact {
        return;
      }
      if seqRx == 0 && seqTx == 0 && f.num != 0 {
        return;
      }
      if f.num < seqRx {
        return;
      } else if f.num == seqRx {
        PassOn(f.content);
        DeliverDeferQueue();
      } else if f.num <= seqRx + deferQ.elements.Length * 10 {
        Ahead(f, now);
      }
    }

    /** rasta_red_f_deferTmo; the timer thread skips an empty queue. */
    method DeferTmo()
      requires Valid() && MayExpire(Now())
      modifies this`seqRx, this`fifoRecv, this`passed, this`kept, deferQ`count, deferQ.elements
      ensures Valid() && Now() == TimeoutRaw(old(Now()), deferQ.sort)
    {
      hide Sorts, DeliverRaw;
      assert forall i :: 0 <= i < deferQ.elements.Length ==> Now().store.slots[i] == deferQ.elements[i];
      var index := deferQ.SmallestSeqnr();
      seqRx := deferQ.elements[index].value.num;
      DeliverDeferQueue();
    }
  }
}
