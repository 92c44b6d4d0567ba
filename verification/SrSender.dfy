/** The steps of an endpoint keep the invariant of the direction it sends on. */
module SrSender {
  import opened SrEndpoint
  import opened SrWorld
  import opened SrInvariant

  /** Packets without messages, numbered upwards from n and below m. */
  ghost predicate Quiet<M>(os: seq<Packet<M>>, n: int, m: int) {
    && (forall i :: 0 <= i < |os| ==> !os[i].kind.RetrResp? && os[i].msgs == [])
    && (forall i :: 0 <= i < |os| && !os[i].kind.DiscReq? ==> n <= os[i].sn < m)
    && (forall i, j :: 0 <= i < j < |os| && !os[i].kind.DiscReq? && !os[j].kind.DiscReq? ==>
          os[i].sn < os[j].sn)
  }

  /** Adding packets without messages to the live part changes nothing. */
  lemma LiveQuiet<T>(s: State, link: seq<Packet<Stamped<T>>>, os: seq<Packet<Stamped<T>>>,
                     x: Endpoint<Stamped<T>>, top: nat, n: int, m: int)
    requires InOrder(Live(s, link), x, top) && Quiet(os, n, m)
    ensures InOrder(Live(s, link + os), x, top)
  {
    AfterRespAppend(link, os);
    AfterRespNone(os);
    var l := Live(s, link);
    assert InOrder(l + os, x, top);
    assert l + [] == l;
  }

  /** A step of the sender that confirms a prefix of its queue (the first k
      entries), takes in more messages and sends only quiet packets os. */
  ghost predicate QuietStep<T>(h: Half<T>, h2: Half<T>, k: nat,
                               os: seq<Packet<Stamped<T>>>, more: seq<Stamped<T>>)
  {
    && k <= |h.x.retr| && h2.x.retr == h.x.retr[k..]
    && h2.x.send == h.x.send + more
    && Sorted(more) && AtLeast(more, |h.led.submitted|) && Genuine(more, h2.led.submitted)
    && h.led.submitted <= h2.led.submitted && h2.led.handed == h.led.handed && h2.led.top == h.led.top
    && Quiet(os, h.x.snT, h2.x.snT) && h2.link == h.link + os
    && h2.y == h.y
    && (h2.back == h.back || (h.back != [] && h2.back == h.back[1..]))
    && h2.x.csR < h2.x.snT && h.x.snT <= h2.x.snT
  }

  lemma QuietNumbers<T>(h: Half<T>, h2: Half<T>, k: nat, os: seq<Packet<Stamped<T>>>, more: seq<Stamped<T>>)
    requires Numbers(h) && QuietStep(h, h2, k, os, more)
    ensures Numbers(h2)
  {
  }

  lemma QuietQueued<T>(h: Half<T>, h2: Half<T>, k: nat, os: seq<Packet<Stamped<T>>>, more: seq<Stamped<T>>)
    requires Queued(h) && Delivered(h) && QuietStep(h, h2, k, os, more)
    ensures Queued(h2)
  {
  }

  lemma QuietExclusive<T>(h: Half<T>, h2: Half<T>, k: nat, os: seq<Packet<Stamped<T>>>, more: seq<Stamped<T>>)
    requires Exclusive(h) && QuietStep(h, h2, k, os, more)
    ensures Exclusive(h2)
  {
  }

  lemma LiveGenuine<T>(h: Half<T>)
    requires Delivered(h)
    ensures forall i :: 0 <= i < |Live(h.y.state, h.link)| ==> Genuine(Live(h.y.state, h.link)[i].msgs, h.led.submitted)
  {
    var k := AfterRespBound(h.link);
  }

  lemma QuietInOrder<T>(h: Half<T>, h2: Half<T>, k: nat, os: seq<Packet<Stamped<T>>>, more: seq<Stamped<T>>)
    requires InOrder(Live(h.y.state, h.link), h.x, h.led.top) && Delivered(h) && QuietStep(h, h2, k, os, more)
    ensures InOrder(Live(h2.y.state, h2.link), h2.x, h2.led.top)
  {
    LiveQuiet(h.y.state, h.link, os, h.x, h.led.top, h.x.snT, h2.x.snT);
    LiveGenuine(h);
    AfterRespAppend(h.link, os);
    AfterRespNone(os);
    var l := Live(h.y.state, h.link);
    assert l + [] == l;
    assert forall i :: 0 <= i < |l| ==> Before(l[i].msgs, h2.x.send);
  }

  lemma QuietFresh<T>(h: Half<T>, h2: Half<T>, k: nat, os: seq<Packet<Stamped<T>>>, more: seq<Stamped<T>>)
    requires Fresh(h) && QuietStep(h, h2, k, os, more)
    ensures Fresh(h2)
  {
    if j :| 0 <= j < |h2.link| && h2.link[j].kind.RetrResp? {
      assert h.link[j].kind.RetrResp?;
    }
  }

  lemma QuietDelivered<T>(h: Half<T>, h2: Half<T>, k: nat, os: seq<Packet<Stamped<T>>>, more: seq<Stamped<T>>)
    requires Delivered(h) && QuietStep(h, h2, k, os, more)
    ensures Delivered(h2)
  {
  }

  lemma SenderQuiet<T>(h: Half<T>, h2: Half<T>, k: nat, os: seq<Packet<Stamped<T>>>, more: seq<Stamped<T>>)
    requires DirInv(h) && QuietStep(h, h2, k, os, more)
    ensures DirInv(h2)
  {
    QuietNumbers(h, h2, k, os, more);
    QuietQueued(h, h2, k, os, more);
    QuietExclusive(h, h2, k, os, more);
    QuietInOrder(h, h2, k, os, more);
    QuietFresh(h, h2, k, os, more);
    QuietDelivered(h, h2, k, os, more);
  }

  /* ----- the send step ----- */

  /** The first n queued messages leave in one data packet. */
  ghost predicate DataStep<T>(h: Half<T>, h2: Half<T>, n: nat) {
    && n <= |h.x.send|
    && var batch := h.x.send[..n];
    && h2.x.send == h.x.send[n..]
    && h2.x.retr == Push(h.x.retr, Entry(h.x.snT, batch), MAX_QUEUE_SIZE)
    && (h2.link == h.link || exists cs :: h2.link == h.link + [Packet(Data, h.x.snT, cs, batch)])
    && h2.x.snT == h.x.snT + 1 && h2.x.csR == h.x.csR
    && h2.y == h.y && h2.back == h.back && h2.led == h.led
  }

  lemma DataNumbers<T>(h: Half<T>, h2: Half<T>, n: nat)
    requires Numbers(h) && DataStep(h, h2, n)
    ensures Numbers(h2)
  {
  }

  lemma SplitQueue<T>(q: seq<Stamped<T>>, n: nat, submitted: seq<T>)
    requires n <= |q| && Sorted(q) && Genuine(q, submitted)
    ensures Sorted(q[..n]) && Sorted(q[n..]) && Before(q[..n], q[n..])
    ensures Genuine(q[..n], submitted) && Genuine(q[n..], submitted)
    ensures forall ms: seq<Stamped<T>> :: Before(ms, q) ==> Before(ms, q[..n]) && Before(ms, q[n..])
  {
  }

  lemma DataQueued<T>(h: Half<T>, h2: Half<T>, n: nat)
    requires Queued(h) && DataStep(h, h2, n)
    ensures Queued(h2)
  {
    SplitQueue(h.x.send, n, h.led.submitted);
    var r := h2.x.retr;
    assert forall k :: 0 <= k < |h.x.retr| ==> r[k] == h.x.retr[k];
    assert forall k :: 0 <= k < |r| ==> Before(r[k].msgs, h2.x.send);
  }

  lemma DataKeepsOrder<T>(h: Half<T>, h2: Half<T>, n: nat, l: seq<Packet<Stamped<T>>>)
    requires InOrder(l, h.x, h.led.top) && DataStep(h, h2, n)
    ensures InOrder(l, h2.x, h.led.top)
    ensures forall i :: 0 <= i < |l| ==> Before(l[i].msgs, h.x.send[..n])
  {
    assert forall i :: 0 <= i < |l| ==> Before(l[i].msgs, h.x.send);
  }

  lemma DataExtendsOrder<T>(h: Half<T>, h2: Half<T>, n: nat, l: seq<Packet<Stamped<T>>>, p: Packet<Stamped<T>>)
    requires InOrder(l, h2.x, h.led.top) && Numbers(h) && Queued(h) && DataStep(h, h2, n)
    requires p.sn == h.x.snT && p.msgs == h.x.send[..n]
    requires forall i :: 0 <= i < |l| ==> Before(l[i].msgs, p.msgs)
    ensures InOrder(l + [p], h2.x, h.led.top)
  {
    SplitQueue(h.x.send, n, h.led.submitted);
    assert Before(p.msgs, h2.x.send);
  }

  lemma DataInOrder<T>(h: Half<T>, h2: Half<T>, n: nat)
    requires InOrder(Live(h.y.state, h.link), h.x, h.led.top) && Numbers(h) && Queued(h)
    requires DataStep(h, h2, n)
    ensures InOrder(Live(h2.y.state, h2.link), h2.x, h2.led.top)
  {
    var l := Live(h.y.state, h.link);
    DataKeepsOrder(h, h2, n, l);
    if h2.link != h.link {
      var cs :| h2.link == h.link + [Packet(Data, h.x.snT, cs, h.x.send[..n])];
      var p := Packet(Data, h.x.snT, cs, h.x.send[..n]);
      DataExtendsOrder(h, h2, n, l, p);
      AfterRespAppend(h.link, [p]);
      AfterRespNone([p]);
      assert Live(h.y.state, h2.link) == l + [p] || Live(h.y.state, h2.link) == [];
    }
  }

  lemma DataRest<T>(h: Half<T>, h2: Half<T>, n: nat)
    requires Queued(h) && Exclusive(h) && Fresh(h) && Delivered(h)
    requires DataStep(h, h2, n)
    ensures Exclusive(h2) && Fresh(h2) && Delivered(h2)
  {
    assert Exclusive(h2);
    assert AtLeast(h.x.send[..n], h.led.top);
    if j :| 0 <= j < |h2.link| && h2.link[j].kind.RetrResp? {
      assert h.link[j].kind.RetrResp?;
    }
    assert Fresh(h2);
  }

  lemma {:induction false} SenderData<T>(h: Half<T>, h2: Half<T>, n: nat)
    requires DirInv(h) && DataStep(h, h2, n)
    ensures DirInv(h2)
  {
    DataNumbers(h, h2, n);
    DataQueued(h, h2, n);
    DataInOrder(h, h2, n);
    DataRest(h, h2, n);
  }

  /* ----- answering a retransmission request ----- */

  /** The request at the head of back is answered: the queue is cut to its last
      entries from k on, which leave again after a response and before a heartbeat. */
  ghost predicate RespondStep<T>(h: Half<T>, h2: Half<T>, k: nat, cs: int) {
    && h.back != [] && h.back[0].kind.RetrReq? && h2.back == h.back[1..]
    && k <= |h.x.retr|
    && var kept := h.x.retr[k..];
    && h2.x.retr == Renumbered(kept, h.x.snT + 1)
    && h2.x.snT == h.x.snT + |kept| + 2
    && h2.x.csR < h2.x.snT
    && h2.x.send == h.x.send && h2.y == h.y && h2.led == h.led
    && (h2.link == h.link ||
        h2.link == h.link + ([Packet(RetrResp, h.x.snT, cs, [])] + Resent(kept, h.x.snT + 1, cs)
                             + [Packet(Heartbeat, h.x.snT + |kept| + 1, cs, [])]))
  }

  lemma RespondNumbers<T>(h: Half<T>, h2: Half<T>, k: nat, cs: int)
    requires Numbers(h) && RespondStep(h, h2, k, cs)
    ensures Numbers(h2)
  {
    if h2.link != h.link {
      var kept := h.x.retr[k..];
      var os := [Packet(RetrResp, h.x.snT, cs, [])] + Resent(kept, h.x.snT + 1, cs)
              + [Packet(Heartbeat, h.x.snT + |kept| + 1, cs, [])];
      assert forall i :: 0 <= i < |os| ==> os[i].sn == h.x.snT + i;
      assert forall i :: |h.link| <= i < |h2.link| ==> h2.link[i] == os[i - |h.link|];
    }
  }

  lemma RespondQueued<T>(h: Half<T>, h2: Half<T>, k: nat, cs: int)
    requires Queued(h) && RespondStep(h, h2, k, cs)
    ensures Queued(h2)
  {
  }

  lemma RespondExclusive<T>(h: Half<T>, h2: Half<T>, k: nat, cs: int)
    requires Exclusive(h) && RespondStep(h, h2, k, cs)
    ensures Exclusive(h2) && !Flowing(h2.y.state)
    ensures forall j :: 0 <= j < |h.link| ==> !h.link[j].kind.RetrResp?
  {
    assert h.back[0].kind.RetrReq?;
  }

  /** What is resent was not confirmed by the request. */
  ghost predicate OnlyUnconfirmed<T>(h: Half<T>, k: nat)
    requires h.back != []
  {
    forall i :: k <= i < |h.x.retr| ==> h.back[0].cs < h.x.retr[i].sn
  }

  lemma RespondFresh<T>(h: Half<T>, h2: Half<T>, k: nat, cs: int)
    requires Fresh(h) && Exclusive(h) && RespondStep(h, h2, k, cs) && OnlyUnconfirmed(h, k)
    ensures Fresh(h2) && AllNew(h2.x.retr, h2.led.top)
  {
    RespondExclusive(h, h2, k, cs);
    assert h.back[0].kind.RetrReq?;
    assert NewAbove(h.x.retr, h.back[0].cs, h.led.top);
  }

  /** The packets that follow the response, against the renumbered queue. */
  lemma ResentInOrder<T>(h2: Half<T>, rest: seq<Packet<Stamped<T>>>)
    requires Queued(h2) && AllNew(h2.x.retr, h2.led.top)
    requires forall k, l :: 0 <= k < l < |h2.x.retr| ==> h2.x.retr[k].sn < h2.x.retr[l].sn
    requires |rest| == |h2.x.retr| + 1
    requires forall i :: 0 <= i < |h2.x.retr| ==>
               rest[i].msgs == h2.x.retr[i].msgs && rest[i].sn == h2.x.retr[i].sn
    requires rest[|h2.x.retr|].msgs == []
    ensures InOrder(rest, h2.x, h2.led.top)
  {
    assert forall ms: seq<Stamped<T>> :: Before([], ms) && Before(ms, []);
    assert Sorted<T>([]) && AtLeast<T>([], h2.led.top);
    hide Genuine, Sorted, Before, AtLeast;
  }

  /** What follows the response. */
  function AfterAnswer<T>(h: Half<T>, k: nat, cs: int): seq<Packet<Stamped<T>>>
    requires k <= |h.x.retr|
  {
    Resent(h.x.retr[k..], h.x.snT + 1, cs) + [Packet(Heartbeat, h.x.snT + |h.x.retr[k..]| + 1, cs, [])]
  }

  lemma RespondLive<T>(h: Half<T>, h2: Half<T>, k: nat, cs: int)
    requires Exclusive(h) && RespondStep(h, h2, k, cs)
    ensures Live(h2.y.state, h2.link) == if h2.link == h.link then [] else AfterAnswer(h, k, cs)
  {
    RespondExclusive(h, h2, k, cs);
    hide Exclusive;
    AfterRespNone(h.link);
    if h2.link != h.link {
      var os := [Packet(RetrResp, h.x.snT, cs, [])] + Resent(h.x.retr[k..], h.x.snT + 1, cs)
              + [Packet(Heartbeat, h.x.snT + |h.x.retr[k..]| + 1, cs, [])];
      assert h2.link == h.link + os;
      AfterRespAppend(h.link, os);
      assert os[1..] == AfterAnswer(h, k, cs);
    }
  }

  lemma RespondInOrder<T>(h: Half<T>, h2: Half<T>, k: nat, cs: int)
    requires Exclusive(h) && Fresh(h) && Queued(h) && RespondStep(h, h2, k, cs) && OnlyUnconfirmed(h, k)
    ensures InOrder(Live(h2.y.state, h2.link), h2.x, h2.led.top)
  {
    hide Genuine, Sorted, Before, AtLeast, Live;
    RespondLive(h, h2, k, cs);
    RespondFresh(h, h2, k, cs);
    RespondQueued(h, h2, k, cs);
    hide Queued, Fresh, Exclusive;
    if h2.link != h.link {
      ResentInOrder(h2, AfterAnswer(h, k, cs));
    }
  }

  lemma RespondDelivered<T>(h: Half<T>, h2: Half<T>, k: nat, cs: int)
    requires Delivered(h) && Queued(h) && RespondStep(h, h2, k, cs)
    ensures Delivered(h2)
  {
  }

  lemma SenderRespond<T>(h: Half<T>, h2: Half<T>, k: nat, cs: int)
    requires DirInv(h) && RespondStep(h, h2, k, cs) && OnlyUnconfirmed(h, k)
    ensures DirInv(h2)
  {
    RespondNumbers(h, h2, k, cs);
    RespondQueued(h, h2, k, cs);
    RespondExclusive(h, h2, k, cs);
    RespondFresh(h, h2, k, cs);
    RespondInOrder(h, h2, k, cs);
    RespondDelivered(h, h2, k, cs);
  }

  /* ----- the three kinds of step ----- */

  /** A quiet step, a batch sent, or, after the quiet packets os, a request
      answered. */
  datatype Move<T> =
    | Quieting(k: nat, os: seq<Packet<Stamped<T>>>, more: seq<Stamped<T>>)
    | Batching(n: nat)
    | Answering(os: seq<Packet<Stamped<T>>>, k: nat, cs: int)

  /** The first k entries are those that the head of back makes the trim remove. */
  ghost predicate Trims<T>(h: Half<T>, k: nat) {
    h.back != [] && k <= |h.x.retr| && RemoveConfirmed(h.x.retr, h.back[0].cs) == h.x.retr[k..]
  }

  ghost predicate Moves<T>(h: Half<T>, h2: Half<T>, m: Move<T>) {
    match m
    case Quieting(k, os, more) => QuietStep(h, h2, k, os, more) && (k == 0 || Trims(h, k))
    case Batching(n) => DataStep(h, h2, n)
    case Answering(os, k, cs) =>
      var hm := h.(link := h.link + os);
      QuietStep(h, hm, 0, os, []) && RespondStep(hm, h2, k, cs) && Trims(h, k)
  }

  lemma MoveKeeps<T>(h: Half<T>, h2: Half<T>, m: Move<T>)
    requires DirInv(h) && Moves(h, h2, m)
    requires m.Answering? ==> h.back != [] && CleanCut(h.x.retr, h.back[0].cs)
    ensures DirInv(h2)
  {
    match m
    case Quieting(k, os, more) => SenderQuiet(h, h2, k, os, more);
    case Batching(n) => SenderData(h, h2, n);
    case Answering(os, k, cs) =>
      var hm := h.(link := h.link + os);
      SenderQuiet(h, hm, 0, os, []);
      CleanTrim(h, k);
      assert OnlyUnconfirmed(hm, k);
      SenderRespond(hm, h2, k, cs);
  }

  lemma CleanTrim<T>(h: Half<T>, k: nat)
    requires Trims(h, k) && CleanCut(h.x.retr, h.back[0].cs)
    ensures OnlyUnconfirmed(h, k)
  {
    var j := Found(h.x.retr, h.back[0].cs);
    RemoveConfirmedIs(h.x.retr, h.back[0].cs);
    assert |h.x.retr[k..]| == |h.x.retr| - k;
  }
}
