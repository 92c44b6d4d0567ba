/** The redundancy layer: several unreliable channels merged into one stream.

  Receiving a frame and a defer timeout are atomic steps on one channel object.
  The defer queue is kept here as a map from sequence number to content, with
  the search its header describes. RedundancyAsWritten has the program's search,
  RedundancyAgreement says when the two do the same.
*/
module Redundancy {
  import opened Words

  /** A frame as decoded: 32-bit number, inner packet, result of the CRC check. */
  datatype Frame<P> = Frame(num: nat, content: P, intact: bool)

  datatype Item<P> = Item(num: nat, content: P)

  /** capacity is n_deferqueue_size. passed lists what the receive path pushed
      towards the next layer, kept what the bounded receive FIFO accepted. */
  datatype Receiver<P> = Receiver(
    capacity: nat, seqRx: nat, seqTx: nat, queue: map<nat, P>,
    fifo: seq<P>, passed: seq<Item<P>>, kept: seq<Item<P>>)

  function Initial<P>(capacity: nat): Receiver<P> {
    Receiver(capacity, 0, 0, map[], [], [], [])
  }

  /** Push to the receive FIFO, which drops when full, and count up. */
  function Pass<P>(r: Receiver<P>, content: P): Receiver<P> {
    var item := Item(r.seqRx, content);
    var full := |r.fifo| == r.capacity;
    r.(seqRx := r.seqRx + 1,
       fifo := if full then r.fifo else r.fifo + [content],
       passed := r.passed + [item],
       kept := if full then r.kept else r.kept + [item])
  }

  /** deliverDeferQueue: pass on while the expected number is queued. */
  function Deliver<P>(r: Receiver<P>): Receiver<P>
    decreases |r.queue|
  {
    if r.seqRx in r.queue then
      var rest := r.queue - {r.seqRx};
      assert rest.Keys == r.queue.Keys - {r.seqRx};
      Deliver(Pass(r, r.queue[r.seqRx]).(queue := rest))
    else r
  }

  /** rasta_red_f_receive. */
  function ReceiveFrame<P>(r: Receiver<P>, f: Frame<P>): Receiver<P> {
    if !f.intact then r
    else if r.seqRx == 0 && r.seqTx == 0 && f.num != 0 then r
    else if f.num < r.seqRx then r
    else if f.num == r.seqRx then Deliver(Pass(r, f.content))
    else if f.num <= r.seqRx + r.capacity * 10 then
      if f.num in r.queue || |r.queue| == r.capacity then r
      else r.(queue := r.queue[f.num := f.content])
    else r
  }

  /** What becomes of a frame, exactly: one that is damaged, below the expected
      number, more than ten times the capacity ahead, or ahead while nothing was
      sent or received yet is dropped. Of the others the expected one is passed
      on, and kept if the FIFO has room; the next ones wait if they are new and
      there is room. */
  lemma FrameFate<P>(r: Receiver<P>, f: Frame<P>)
    requires |r.fifo| <= r.capacity
    ensures var r2 := ReceiveFrame(r, f);
            var waits := f.intact && (r.seqRx > 0 || r.seqTx > 0)
              && r.seqRx < f.num <= r.seqRx + 10 * r.capacity && |r.queue| != r.capacity;
            && (f.intact && f.num == r.seqRx ==>
                  && |r2.passed| > |r.passed| && r2.passed[|r.passed|] == Item(f.num, f.content)
                  && (if |r.fifo| < r.capacity then r.fifo + [f.content] <= r2.fifo else r2.fifo == r.fifo))
            && |r2.fifo| <= r.capacity
            && (waits && f.num in r.queue ==> r2 == r)
            && (waits && f.num !in r.queue ==> r2 == r.(queue := r.queue[f.num := f.content]))
            && (!(f.intact && f.num == r.seqRx) && !waits ==> r2 == r)
  {
    DeliverExtends(Pass(r, f.content));
  }

  /** The receive FIFO only grows, up to its capacity. */
  lemma {:induction false} DeliverExtends<P>(r: Receiver<P>)
    requires |r.fifo| <= r.capacity
    ensures r.passed <= Deliver(r).passed && r.fifo <= Deliver(r).fifo && |Deliver(r).fifo| <= r.capacity
    decreases |r.queue|
  {
    if r.seqRx in r.queue {
      var rest := r.queue - {r.seqRx};
      assert rest.Keys == r.queue.Keys - {r.seqRx};
      DeliverExtends(Pass(r, r.queue[r.seqRx]).(queue := rest));
    }
  }

  predicate IsLeast(m: nat, s: set<nat>) {
    m in s && forall x :: x in s ==> m <= x
  }

  ghost function Smallest(s: set<nat>): (m: nat)
    requires s != {}
    ensures IsLeast(m, s)
  {
    LeastExists(s);
    var m :| IsLeast(m, s);
    m
  }

  lemma LeastExists(s: set<nat>)
    requires s != {}
    ensures exists m :: IsLeast(m, s)
  {
    var m := LeastOf(s);
  }

  lemma {:induction false} LeastOf(s: set<nat>) returns (m: nat)
    requires s != {}
    ensures IsLeast(m, s)
    decreases |s|
  {
    m :| m in s;
    var rest := s - {m};
    if rest != {} {
      var n := LeastOf(rest);
      m := if n < m then n else m;
    }
    assert forall x :: x in s ==> x in rest || m <= x;
  }

  /** rasta_red_f_deferTmo, called when the queue is not empty: the smallest
      queued number becomes the expected one. */
  ghost function DeferTimeout<P>(r: Receiver<P>): Receiver<P> {
    if r.queue == map[] then r
    else Deliver(r.(seqRx := Smallest(r.queue.Keys)))
  }

  /* ----- the invariant between steps ----- */

  ghost predicate Increasing<P>(items: seq<Item<P>>) {
    forall i, j :: 0 <= i < j < |items| ==> items[i].num < items[j].num
  }

  ghost predicate AllBelow<P>(items: seq<Item<P>>, n: nat) {
    forall i :: 0 <= i < |items| ==> items[i].num < n
  }

  /** A queue that Deliver may be applied to: every number at least seqRx. */
  ghost predicate Ready<P>(r: Receiver<P>) {
    && |r.queue| <= r.capacity
    && (forall n :: n in r.queue ==> r.seqRx <= n < U32)
    && Increasing(r.passed) && AllBelow(r.passed, r.seqRx)
    && Increasing(r.kept) && AllBelow(r.kept, r.seqRx)
    && r.seqRx <= U32
  }

  ghost predicate Settled<P>(r: Receiver<P>) {
    Ready(r) && r.seqRx !in r.queue
  }

  /** One turn of the delivery loop. */
  function PassQueued<P>(r: Receiver<P>): Receiver<P>
    requires r.seqRx in r.queue
  {
    Pass(r, r.queue[r.seqRx]).(queue := r.queue - {r.seqRx})
  }

  lemma PassQueuedReady<P>(r: Receiver<P>)
    requires Ready(r) && r.seqRx in r.queue
    ensures Ready(PassQueued(r)) && |PassQueued(r).queue| < |r.queue|
  {
    var rest := r.queue - {r.seqRx};
    assert rest.Keys == r.queue.Keys - {r.seqRx};
    assert |rest| == |rest.Keys| && |r.queue| == |r.queue.Keys|;
  }

  lemma {:induction false} DeliverSettles<P>(r: Receiver<P>)
    requires Ready(r)
    ensures Settled(Deliver(r))
    ensures r.seqRx <= Deliver(r).seqRx && r.passed <= Deliver(r).passed && r.kept <= Deliver(r).kept
    ensures Deliver(r).capacity == r.capacity && Deliver(r).seqTx == r.seqTx
    ensures r.seqRx in r.queue ==> r.seqRx < Deliver(r).seqRx
    decreases |r.queue|
  {
    if r.seqRx in r.queue {
      PassQueuedReady(r);
      assert Deliver(r) == Deliver(PassQueued(r));
      hide Ready, Deliver;
      DeliverSettles(PassQueued(r));
    }
  }

  lemma QueueGrows<P>(q: map<nat, P>, n: nat, p: P)
    requires n !in q
    ensures |q[n := p]| == |q| + 1
    ensures forall m :: m in q[n := p] <==> m in q || m == n
  {
    var q2 := q[n := p];
    assert q2.Keys == q.Keys + {n};
    assert |q2| == |q2.Keys| && |q| == |q.Keys|;
  }

  lemma ReceiveSettles<P>(r: Receiver<P>, f: Frame<P>)
    requires Settled(r) && f.num < U32
    ensures Settled(ReceiveFrame(r, f))
    ensures r.seqRx <= ReceiveFrame(r, f).seqRx && ReceiveFrame(r, f).capacity == r.capacity
    ensures r.passed <= ReceiveFrame(r, f).passed
  {
    if f.num == r.seqRx {
      DeliverSettles(Pass(r, f.content));
    } else if f.num !in r.queue {
      QueueGrows(r.queue, f.num, f.content);
    }
  }

  lemma TimeoutSettles<P>(r: Receiver<P>)
    requires Settled(r)
    ensures Settled(DeferTimeout(r))
    ensures r.queue != map[] ==> r.seqRx < DeferTimeout(r).seqRx
    ensures r.seqRx <= DeferTimeout(r).seqRx && r.passed <= DeferTimeout(r).passed
    ensures DeferTimeout(r).capacity == r.capacity
  {
    if r.queue != map[] {
      assert r.queue.Keys != {};
      DeliverSettles(r.(seqRx := Smallest(r.queue.Keys)));
    }
  }

  /* ----- contents ----- */

  /** Content p left the peer under number n: 32 bits of its position. */
  ghost predicate Sent<P>(sent: seq<P>, n: nat, p: P) {
    exists i :: 0 <= i < |sent| && i % U32 == n && sent[i] == p
  }

  ghost predicate Genuine<P>(r: Receiver<P>, sent: seq<P>) {
    && (forall n :: n in r.queue ==> Sent(sent, n, r.queue[n]))
    && (forall k :: 0 <= k < |r.passed| ==> Sent(sent, r.passed[k].num, r.passed[k].content))
    && (forall k :: 0 <= k < |r.kept| ==> r.kept[k] in r.passed)
  }

  lemma {:induction false} DeliverGenuine<P>(r: Receiver<P>, sent: seq<P>)
    requires Genuine(r, sent)
    ensures Genuine(Deliver(r), sent)
    decreases |r.queue|
  {
    if r.seqRx in r.queue {
      var rest := r.queue - {r.seqRx};
      assert rest.Keys == r.queue.Keys - {r.seqRx};
      assert |rest| == |rest.Keys| && |r.queue| == |r.queue.Keys|;
      var r1 := Pass(r, r.queue[r.seqRx]).(queue := rest);
      assert r1.passed[|r.passed|] in r1.passed;
      assert forall k :: 0 <= k < |r.kept| ==> r1.kept[k] in r1.passed;
      DeliverGenuine(r1, sent);
    }
  }

  lemma {:induction false} ReceiveGenuine<P>(r: Receiver<P>, f: Frame<P>, sent: seq<P>)
    requires Genuine(r, sent) && Sent(sent, f.num, f.content)
    ensures Genuine(ReceiveFrame(r, f), sent)
  {
    if f.num == r.seqRx {
      var r1 := Pass(r, f.content);
      assert r1.passed[|r.passed|] in r1.passed;
      assert forall k :: 0 <= k < |r.kept| ==> r1.kept[k] in r1.passed;
      DeliverGenuine(r1, sent);
    }
  }

  /* ----- no gaps without timeouts ----- */

  ghost predicate Gapless<P>(r: Receiver<P>) {
    |r.passed| == r.seqRx && forall k :: 0 <= k < |r.passed| ==> r.passed[k].num == k
  }

  lemma {:induction false} DeliverGapless<P>(r: Receiver<P>)
    requires Gapless(r)
    ensures Gapless(Deliver(r))
    decreases |r.queue|
  {
    if r.seqRx in r.queue {
      var rest := r.queue - {r.seqRx};
      assert rest.Keys == r.queue.Keys - {r.seqRx};
      assert |rest| == |rest.Keys| && |r.queue| == |r.queue.Keys|;
      DeliverGapless(Pass(r, r.queue[r.seqRx]).(queue := rest));
    }
  }

  lemma {:induction false} ReceiveGapless<P>(r: Receiver<P>, f: Frame<P>)
    requires Gapless(r)
    ensures Gapless(ReceiveFrame(r, f))
  {
    DeliverGapless(Pass(r, f.content));
  }

  /* ----- runs ----- */

  /** The peer sends one frame over all its channels. A transport channel may
      deliver any frame sent so far, any number of times and in any order, or
      damaged. This side may send, and the defer timer may expire. */
  datatype Event<P> =
    | PeerSends(content: P)
    | Arrives(channel: nat, index: nat, intact: bool)
    | Sends
    | Expires
    | Retrieves

  datatype Link<P> = Link(sent: seq<P>, r: Receiver<P>)

  function Opened<P>(capacity: nat): Link<P> {
    Link([], Initial(capacity))
  }

  ghost function Step<P>(l: Link<P>, ev: Event<P>): Link<P> {
    match ev
    case PeerSends(p) => l.(sent := l.sent + [p])
    case Arrives(_, i, intact) =>
      if i < |l.sent| then l.(r := ReceiveFrame(l.r, Frame(i % U32, l.sent[i], intact))) else l
    case Sends => l.(r := l.r.(seqTx := l.r.seqTx + 1))
    case Expires => l.(r := DeferTimeout(l.r))
    case Retrieves => if l.r.fifo == [] then l else l.(r := l.r.(fifo := l.r.fifo[1..]))
  }

  ghost function Run<P>(l: Link<P>, evs: seq<Event<P>>): Link<P>
    decreases |evs|
  {
    if evs == [] then l else Step(Run(l, evs[..|evs| - 1]), evs[|evs| - 1])
  }

  lemma GenuineGrows<P>(r: Receiver<P>, sent: seq<P>, p: P)
    requires Genuine(r, sent)
    ensures Genuine(r, sent + [p])
  {
    forall n, c | Sent(sent, n, c) ensures Sent(sent + [p], n, c) {
      var i :| 0 <= i < |sent| && i % U32 == n && sent[i] == c;
      assert (sent + [p])[i] == c;
    }
  }

  lemma StepKeeps<P>(l: Link<P>, ev: Event<P>)
    requires Settled(l.r) && Genuine(l.r, l.sent)
    ensures Settled(Step(l, ev).r) && Genuine(Step(l, ev).r, Step(l, ev).sent)
    ensures l.r.seqRx <= Step(l, ev).r.seqRx && Step(l, ev).r.capacity == l.r.capacity
  {
    match ev
    case PeerSends(p) => GenuineGrows(l.r, l.sent, p);
    case Arrives(_, i, intact) =>
      if i < |l.sent| {
        var f := Frame(i % U32, l.sent[i], intact);
        ReceiveSettles(l.r, f);
        ReceiveGenuine(l.r, f, l.sent);
      }
    case Expires =>
      TimeoutSettles(l.r);
      if l.r.queue != map[] {
        DeliverGenuine(l.r.(seqRx := Smallest(l.r.queue.Keys)), l.sent);
      }
    case Sends =>
    case Retrieves =>
  }

  lemma {:induction false} RunKeeps<P>(l: Link<P>, evs: seq<Event<P>>)
    requires Settled(l.r) && Genuine(l.r, l.sent)
    ensures Settled(Run(l, evs).r) && Genuine(Run(l, evs).r, Run(l, evs).sent)
    ensures Run(l, evs).r.capacity == l.r.capacity
    decreases |evs|
  {
    hide Step, Settled, Genuine;
    if evs != [] {
      RunKeeps(l, evs[..|evs| - 1]);
      StepKeeps(Run(l, evs[..|evs| - 1]), evs[|evs| - 1]);
    }
  }

  /** For every arrival order, with loss, duplication, reordering, damage and
      timeouts: the numbers handed up strictly increase and each carries what
      the peer sent under it; between steps the queue holds numbers above the
      expected one, at most its capacity of them. */
  lemma {:induction false} HandedUpInOrder<P>(capacity: nat, evs: seq<Event<P>>)
    ensures var l := Run(Opened<P>(capacity), evs);
            && Increasing(l.r.kept)
            && (forall k :: 0 <= k < |l.r.kept| ==> Sent(l.sent, l.r.kept[k].num, l.r.kept[k].content))
            && (forall n :: n in l.r.queue ==> l.r.seqRx < n)
            && |l.r.queue| <= capacity
  {
    var l0 := Opened<P>(capacity);
    RunKeeps(l0, evs);
    var l := Run(l0, evs);
    forall k | 0 <= k < |l.r.kept| ensures Sent(l.sent, l.r.kept[k].num, l.r.kept[k].content) {
      assert l.r.kept[k] in l.r.passed;
    }
  }

  /** While at most 2^32 frames were sent, a number names one frame. */
  lemma NumbersAreUnique<P>(sent: seq<P>, n: nat, p: P)
    requires |sent| <= U32
    ensures Sent(sent, n, p) <==> n < |sent| && sent[n] == p
  {
    if n < |sent| && sent[n] == p {
      assert n % U32 == n;
    }
  }

  /* ----- no gap without timeouts ----- */

  lemma {:induction false} NoGaps<P>(capacity: nat, evs: seq<Event<P>>)
    requires forall k :: 0 <= k < |evs| ==> !evs[k].Expires?
    ensures Gapless(Run(Opened<P>(capacity), evs).r)
    decreases |evs|
  {
    if evs != [] {
      var init := evs[..|evs| - 1];
      NoGaps(capacity, init);
      var m := Run(Opened<P>(capacity), init);
      match evs[|evs| - 1]
      case Arrives(_, i, intact) =>
        if i < |m.sent| {
          ReceiveGapless(m.r, Frame(i % U32, m.sent[i], intact));
        }
      case _ =>
    }
  }

  /* ----- one healthy channel ----- */

  /** The frames that transport channel c delivered undamaged. */
  ghost function DeliveredOn<P>(l: Link<P>, evs: seq<Event<P>>, c: nat): seq<nat>
    decreases |evs|
  {
    if evs == [] then []
    else
      var init := evs[..|evs| - 1];
      var ev := evs[|evs| - 1];
      if ev.Arrives? && ev.channel == c && ev.intact && ev.index < |Run(l, init).sent|
      then DeliveredOn(l, init, c) + [ev.index]
      else DeliveredOn(l, init, c)
  }

  ghost predicate InOrderFromZero(ns: seq<nat>) {
    forall k :: 0 <= k < |ns| ==> ns[k] == k
  }

  lemma FrameTaken<P>(r: Receiver<P>, f: Frame<P>)
    requires Settled(r) && f.intact && f.num < U32 && f.num <= r.seqRx
    ensures f.num < ReceiveFrame(r, f).seqRx
  {
    if f.num == r.seqRx {
      DeliverSettles(Pass(r, f.content));
    }
  }

  function UpTo32(k: nat): nat {
    if k <= U32 then k else U32
  }

  lemma {:induction false} HealthyStep<P>(l: Link<P>, ev: Event<P>, k: nat)
    requires Settled(l.r) && Genuine(l.r, l.sent) && UpTo32(k) <= l.r.seqRx
    requires ev.Arrives? && ev.index == k && ev.intact && k < |l.sent|
    ensures UpTo32(k + 1) <= Step(l, ev).r.seqRx
  {
    StepKeeps(l, ev);
    if k < U32 {
      assert k % U32 == k;
      FrameTaken(l.r, Frame(k, l.sent[k], true));
    }
  }

  /** One channel that delivers every frame in order is enough: after its k-th
      frame the first k frames have been taken, whatever the other channels
      and the timer do, as long as the 32-bit number has not come round. */
  lemma {:induction false} OneHealthyChannelSuffices<P>(capacity: nat, evs: seq<Event<P>>, c: nat)
    requires InOrderFromZero(DeliveredOn(Opened<P>(capacity), evs, c))
    ensures UpTo32(|DeliveredOn(Opened<P>(capacity), evs, c)|) <= Run(Opened<P>(capacity), evs).r.seqRx
    decreases |evs|
  {
    if evs != [] {
      var l0 := Opened<P>(capacity);
      RunKeeps(l0, evs[..|evs| - 1]);
      hide Step, Settled, Genuine, UpTo32;
      var init := evs[..|evs| - 1];
      var ev := evs[|evs| - 1];
      var before := DeliveredOn(l0, init, c);
      assert before <= DeliveredOn(l0, evs, c);
      OneHealthyChannelSuffices(capacity, init, c);
      var m := Run(l0, init);
      StepKeeps(m, ev);
      if DeliveredOn(l0, evs, c) != before {
        assert DeliveredOn(l0, evs, c)[|before|] == ev.index;
        HealthyStep(m, ev, |before|);
      }
    }
  }

  /* ----- after 2^32 frames ----- */

  /** The expected number is not reduced modulo 2^32 while the numbers on the
      wire are: once 2^32 frames were taken nothing is taken any more. */
  lemma {:induction false} NothingAfterWraparound<P>(l: Link<P>, evs: seq<Event<P>>)
    requires Settled(l.r) && Genuine(l.r, l.sent) && l.r.seqRx == U32
    ensures Run(l, evs).r.passed == l.r.passed && Run(l, evs).r.seqRx == U32
    decreases |evs|
  {
    if evs != [] {
      var init := evs[..|evs| - 1];
      NothingAfterWraparound(l, init);
      RunKeeps(l, init);
      var m := Run(l, init);
      assert m.r.queue == map[] by {
        assert forall n :: n in m.r.queue ==> U32 <= n < U32;
      }
    }
  }
}
