/** End-to-end properties of an SR connection, over unbounded numbers. */
module SrSafety {
  import opened Words
  import opened SrEndpoint
  import opened SrWorld
  import opened SrInvariant
  import opened SrSenderSteps
  import opened SrReceiver
  import opened SrReceiverSteps

  /* ----- loss ----- */

  lemma LossNumbers<T>(h: Half<T>, i: nat)
    requires Numbers(h)
    ensures Numbers(h.(link := Without(h.link, i)))
  {
  }

  lemma LossRest<T>(h: Half<T>, i: nat)
    requires Exclusive(h) && Fresh(h) && Delivered(h)
    ensures var h2 := h.(link := Without(h.link, i));
            Exclusive(h2) && Fresh(h2) && Delivered(h2)
  {
    var h2 := h.(link := Without(h.link, i));
    assert forall j :: 0 <= j < |h2.link| ==> h2.link[j] in h.link;
  }

  lemma LossInOrder<T>(h: Half<T>, i: nat)
    requires Exclusive(h) && InOrder(Live(h.y.state, h.link), h.x, h.led.top)
    ensures InOrder(Live(h.y.state, Without(h.link, i)), h.x, h.led.top)
  {
    if Flowing(h.y.state) {
      SubOrder(h.link, h.x, h.led.top, i);
    } else {
      var k := AfterRespWithout(h.link, i);
      SubOrder(AfterResp(h.link), h.x, h.led.top, k);
    }
  }

  lemma LossOnLink<T>(h: Half<T>, i: nat)
    requires DirInv(h)
    ensures DirInv(h.(link := Without(h.link, i)))
  {
    LossNumbers(h, i);
    LossRest(h, i);
    LossInOrder(h, i);
    assert Queued(h.(link := Without(h.link, i)));
  }

  lemma LossOnBack<T>(h: Half<T>, i: nat)
    requires DirInv(h)
    ensures DirInv(h.(back := Without(h.back, i)))
  {
    var h2 := h.(back := Without(h.back, i));
    assert Numbers(h2);
    assert Exclusive(h2);
    assert Fresh(h2);
    assert Queued(h2) && Delivered(h2);
    hide Numbers, Exclusive, Fresh, Queued, Delivered, InOrder;
  }

  /* ----- every step, every run ----- */

  /** If the event makes a side answer a request, what that side resends was
      not confirmed by it. */
  ghost predicate CleanStep<T>(w: World<T>, ev: Event<T>) {
    ev.Act? ==> CleanAction(ViewOf(w, ev.side), ev.action)
  }

  lemma {:induction false} StepKeeps<T>(w: World<T>, ev: Event<T>)
    requires Inv(w) && CleanStep(w, ev)
    ensures Inv(Step(w, ev, Exact))
  {
    match ev
    case Loss(s, i) =>
      var h := Half(w.a, w.b, w.ab, w.ba, w.fromA);
      var g := Half(w.b, w.a, w.ba, w.ab, w.fromB);
      if s.A? {
        LossOnLink(h, i);
        LossOnBack(g, i);
      } else {
        LossOnBack(h, i);
        LossOnLink(g, i);
      }
    case Act(s, act) =>
      var v := ViewOf(w, s);
      var peer := if s.A? then w.b else w.a;
      SenderStep(v, peer, act);
      ReceiverStep(v, peer, act);
  }

  /** Every request answered in the run is answered cleanly. */
  ghost predicate RunClean<T>(w: World<T>, evs: seq<Event<T>>) {
    forall k :: 0 <= k < |evs| ==> CleanStep(Run(w, evs[..k], Exact), evs[k])
  }

  ghost predicate RunInWindow<T>(w: World<T>, evs: seq<Event<T>>) {
    forall k :: 0 <= k <= |evs| ==> InWindow(Run(w, evs[..k], Exact))
  }

  lemma EstablishedInv<T>(client: Config, server: Config, x: int, y: int)
    ensures Inv<T>(Established(client, server, x, y, Exact))
  {
    hide DirInv;
    EstablishedDirs<T>(client, server, x, y);
  }

  lemma EmptyHalf<T>(x: Endpoint<Stamped<T>>, y: Endpoint<Stamped<T>>)
    requires x.retr == [] && x.send == [] && y.snR == y.csT + 1 && y.csT < x.snT && x.csR < x.snT
    ensures DirInv(Half(x, y, [], [], Ledger([], [], 0)))
  {
  }

  lemma EstablishedDirs<T>(client: Config, server: Config, x: int, y: int)
    ensures var w := Established<T>(client, server, x, y, Exact);
            DirInv(Half(w.a, w.b, w.ab, w.ba, w.fromA)) && DirInv(Half(w.b, w.a, w.ba, w.ab, w.fromB))
  {
    hide DirInv;
    var w := Established<T>(client, server, x, y, Exact);
    EmptyHalf(w.a, w.b);
    EmptyHalf(w.b, w.a);
  }

  lemma {:induction false} RunKeeps<T>(w: World<T>, evs: seq<Event<T>>)
    requires Inv(w) && RunClean(w, evs)
    ensures Inv(Run(w, evs, Exact))
    decreases |evs|
  {
    hide Step, CleanStep, Inv;
    if evs != [] {
      var init := evs[..|evs| - 1];
      assert forall k :: 0 <= k < |init| ==> init[..k] == evs[..k];
      RunKeeps(w, init);
      assert evs[..|init|] == init;
      StepKeeps(Run(w, init, Exact), evs[|evs| - 1]);
    }
  }

  /** Inside the 32-bit window every answer is clean. */
  lemma ActionInWindow<T>(v: View<T>, peer: Endpoint<Stamped<T>>, act: Action<T>)
    requires DirInv(Outgoing(v, peer)) && HalfInWindow(Outgoing(v, peer))
    ensures CleanAction(v, act)
  {
    if act.Receiving? && v.inc != [] {
      var h := Outgoing(v, peer);
      assert h.back[0].cs <= h.y.csT;
      WindowCutsClean(v.me.retr, v.inc[0].cs);
    }
  }

  lemma StepInWindow<T>(w: World<T>, ev: Event<T>)
    requires Inv(w) && InWindow(w)
    ensures CleanStep(w, ev)
  {
    if ev.Act? {
      ActionInWindow(ViewOf(w, ev.side), if ev.side.A? then w.b else w.a, ev.action);
    }
  }

  lemma {:induction false} WindowIsClean<T>(w: World<T>, evs: seq<Event<T>>)
    requires Inv(w) && RunInWindow(w, evs)
    ensures RunClean(w, evs) && Inv(Run(w, evs, Exact))
    decreases |evs|
  {
    hide Step, InWindow, Inv, CleanStep;
    if evs != [] {
      var init := evs[..|evs| - 1];
      assert forall k :: 0 <= k <= |init| ==> init[..k] == evs[..k];
      WindowIsClean(w, init);
      assert InWindow(Run(w, evs[..|init|], Exact));
      StepInWindow(Run(w, init, Exact), evs[|evs| - 1]);
      StepKeeps(Run(w, init, Exact), evs[|evs| - 1]);
      forall k | 0 <= k < |evs| ensures CleanStep(Run(w, evs[..k], Exact), evs[k]) {
        if k == |init| {
          assert evs[..k] == init;
        } else {
          assert init[..k] == evs[..k] && init[k] == evs[k];
        }
      }
    }
  }

  lemma DeliveredIsSubsequence<T(!new)>(led: Ledger<T>)
    requires Sorted(led.handed) && Genuine(led.handed, led.submitted)
    ensures IsSubsequence(Bodies(led.handed), led.submitted)
  {
    var pos: seq<nat> := seq(|led.handed|, i requires 0 <= i < |led.handed| => led.handed[i].rank);
    assert PicksFrom(pos, Bodies(led.handed), led.submitted);
  }

  /** Over links that lose packets, with any number of retransmissions, each
      side hands up a subsequence of what the other submitted: in order, and no
      submission twice, as long as requests are answered cleanly. */
  lemma {:induction false} EndToEnd<T(!new)>(client: Config, server: Config, x: int, y: int, evs: seq<Event<T>>)
    requires RunClean(Established(client, server, x, y, Exact), evs)
    ensures var w := Run(Established(client, server, x, y, Exact), evs, Exact);
            && IsSubsequence(Bodies(w.fromA.handed), w.fromA.submitted)
            && IsSubsequence(Bodies(w.fromB.handed), w.fromB.submitted)
  {
    var w0 := Established<T>(client, server, x, y, Exact);
    EstablishedInv<T>(client, server, x, y);
    RunKeeps(w0, evs);
    var w := Run(w0, evs, Exact);
    DeliveredIsSubsequence(w.fromA);
    DeliveredIsSubsequence(w.fromB);
  }

  /* ----- confirmations ----- */

  /** An accepted confirmation never moves back and never passes the last packet sent. */
  lemma AcceptedConfirmation<T>(h: Half<T>)
    requires Numbers(h) && HalfInWindow(h) && h.back != [] && CsValid(h.x, h.back[0])
    ensures h.x.csR <= h.back[0].cs < h.x.snT
  {
    assert h.back[0].cs <= h.y.csT;
    assert h.x.snT - h.back[0].cs <= U32;
  }

  lemma ReceiveConfirms<M>(e: Endpoint<M>, p: Packet<M>, cts: bool)
    requires |e.retr| <= MAX_QUEUE_SIZE && e.csR < e.snT && (CsValid(e, p) ==> e.csR <= p.cs < e.snT)
    ensures var o := Receive(e, p, cts, Exact);
            e.csR <= o.e.csR < o.e.snT && e.snT <= o.e.snT
  {
    hide HandleRetrReq, SnInSeq, SnRangeValid, CsValid, RemoveConfirmed, Resent, Renumbered;
    if p.kind.RetrReq? {
      HandleRetrReqIs(e, p);
    }
  }

  lemma PerformedConfirms<T>(v: View<T>, act: Action<T>)
    requires |v.me.retr| <= MAX_QUEUE_SIZE && v.me.csR < v.me.snT
    requires v.inc != [] && CsValid(v.me, v.inc[0]) ==> v.me.csR <= v.inc[0].cs < v.me.snT
    ensures var e := Performed(v, act, Exact).e;
            v.me.csR <= e.csR < e.snT && v.me.snT <= e.snT
  {
    if act.Receiving? && v.inc != [] {
      ReceiveConfirms(v.me, v.inc[0], act.ctsInSeq);
      hide Receive;
    }
  }

  lemma {:induction false} StepConfirms<T>(v: View<T>, peer: Endpoint<Stamped<T>>, act: Action<T>)
    requires DirInv(Outgoing(v, peer)) && HalfInWindow(Outgoing(v, peer))
    ensures var me := ActOn(v, act, Exact).me;
            v.me.csR <= me.csR < me.snT && v.me.snT <= me.snT && v.me.csR < v.me.snT
  {
    var h := Outgoing(v, peer);
    assert Numbers(h) && |v.me.retr| <= MAX_QUEUE_SIZE && v.me.csR < v.me.snT;
    hide DirInv, Numbers, HalfInWindow, CsValid, Performed;
    if v.inc != [] && CsValid(v.me, v.inc[0]) {
      AcceptedConfirmation(h);
    }
    PerformedConfirms(v, act);
  }

  function Me<T>(w: World<T>, s: Side): Endpoint<Stamped<T>> {
    if s.A? then w.a else w.b
  }

  lemma {:induction false} StepAdvances<T>(w: World<T>, ev: Event<T>, s: Side)
    requires Inv(w) && InWindow(w)
    ensures var w2 := Step(w, ev, Exact);
            && Me(w, s).csR <= Me(w2, s).csR && Me(w, s).snT <= Me(w2, s).snT
  {
    if ev.Act? && ev.side == s {
      StepConfirms(ViewOf(w, s), if s.A? then w.b else w.a, ev.action);
    }
  }

  lemma InvFacts<T>(w: World<T>, s: Side)
    requires Inv(w)
    ensures Me(w, s).csR < Me(w, s).snT && Me(w, s).snR == Me(w, s).csT + 1
    ensures |Me(w, s).retr| <= MAX_QUEUE_SIZE
  {
  }

  /** Along every run the last confirmed number C of either side only grows and
      stays below the next number T to send, and sn_r is cs_t + 1. */
  lemma {:induction false} CountersAdvance<T>(w: World<T>, evs: seq<Event<T>>, s: Side)
    requires Inv(w) && RunInWindow(w, evs)
    ensures var w2 := Run(w, evs, Exact);
            && Me(w, s).csR <= Me(w2, s).csR < Me(w2, s).snT
            && Me(w, s).snT <= Me(w2, s).snT
            && Me(w2, s).snR == Me(w2, s).csT + 1
    decreases |evs|
  {
    hide Step, InWindow, Inv, Me, RunClean;
    WindowIsClean(w, evs);
    InvFacts(Run(w, evs, Exact), s);
    if evs != [] {
      var init := evs[..|evs| - 1];
      assert forall k :: 0 <= k <= |init| ==> init[..k] == evs[..k];
      CountersAdvance(w, init, s);
      WindowIsClean(w, init);
      assert InWindow(Run(w, evs[..|init|], Exact));
      StepAdvances(Run(w, init, Exact), evs[|evs| - 1], s);
    }
  }

  /* ----- consecutive numbers ----- */

  function Numbering<M>(os: seq<Packet<M>>): (r: seq<int>)
    ensures |r| <= |os|
  {
    if os == [] then []
    else if os[0].kind.DiscReq? then Numbering(os[1..])
    else [os[0].sn] + Numbering(os[1..])
  }

  ghost predicate From(ns: seq<int>, n: int) {
    forall i :: 0 <= i < |ns| ==> ns[i] == n + i
  }

  lemma {:induction false} NumberingAppend<M>(l: seq<Packet<M>>, m: seq<Packet<M>>)
    ensures Numbering(l + m) == Numbering(l) + Numbering(m)
  {
    if l == [] {
      assert l + m == m;
    } else {
      assert (l + m)[1..] == l[1..] + m;
      NumberingAppend(l[1..], m);
    }
  }

  lemma {:induction false} NumberingAll<M>(os: seq<Packet<M>>)
    requires forall i :: 0 <= i < |os| ==> !os[i].kind.DiscReq?
    ensures |Numbering(os)| == |os| && forall i :: 0 <= i < |os| ==> Numbering(os)[i] == os[i].sn
  {
    if os != [] {
      NumberingAll(os[1..]);
    }
  }

  /** The numbers an outcome uses up start at the endpoint's next number, and
      while the channel exists the next number counts them. */
  ghost predicate UsesNumbers<M>(e: Endpoint<M>, e2: Endpoint<M>, out: seq<Packet<M>>) {
    && From(Numbering(out), e.snT)
    && (!e.attached ==> out == [] && !e2.attached)
    && (e2.attached ==> e2.snT == e.snT + |Numbering(out)|)
  }

  lemma RetrReqUsesNumbers<M>(e: Endpoint<M>, p: Packet<M>)
    requires |e.retr| <= MAX_QUEUE_SIZE && e.attached
    ensures var o := HandleRetrReq(e, p, Exact);
            UsesNumbers(e, o.e, o.out)
  {
    HandleRetrReqIs(e, p);
    var o := HandleRetrReq(e, p, Exact);
    if o.e.attached {
      NumberingAll(o.out);
    }
  }

  lemma ReceiveUsesNumbers<M>(e: Endpoint<M>, p: Packet<M>, cts: bool)
    requires |e.retr| <= MAX_QUEUE_SIZE
    ensures var o := Receive(e, p, cts, Exact);
            UsesNumbers(e, o.e, o.out)
  {
    if p.kind.RetrReq? && e.attached {
      RetrReqUsesNumbers(e, p);
    }
    hide HandleRetrReq, SnInSeq, SnRangeValid, CsValid, RemoveConfirmed, PushAll;
  }

  /** What one event makes the endpoint of side s send. */
  function SentIn<T>(w: World<T>, ev: Event<T>, s: Side, a: Arith): seq<Packet<Stamped<T>>> {
    if ev.Act? && ev.side == s then
      var v := ViewOf(w, s);
      var out := ActOn(v, ev.action, a).out;
      if |v.out| <= |out| then out[|v.out|..] else []
    else []
  }

  function Sent<T>(w: World<T>, evs: seq<Event<T>>, s: Side, a: Arith): seq<Packet<Stamped<T>>>
    decreases |evs|
  {
    if evs == [] then []
    else
      var init := evs[..|evs| - 1];
      Sent(w, init, s, a) + SentIn(Run(w, init, a), evs[|evs| - 1], s, a)
  }

  lemma PerformedUsesNumbers<T>(v: View<T>, act: Action<T>)
    requires |v.me.retr| <= MAX_QUEUE_SIZE
    ensures var o := Performed(v, act, Exact);
            UsesNumbers(v.me, o.e, o.out)
  {
    if act.Receiving? && v.inc != [] {
      ReceiveUsesNumbers(v.me, v.inc[0], act.ctsInSeq);
    }
  }

  lemma StepUsesNumbers<T>(w: World<T>, ev: Event<T>, s: Side)
    requires |Me(w, s).retr| <= MAX_QUEUE_SIZE
    ensures UsesNumbers(Me(w, s), Me(Step(w, ev, Exact), s), SentIn(w, ev, s, Exact))
  {
    if ev.Act? && ev.side == s {
      var v := ViewOf(w, s);
      PerformedUsesNumbers(v, ev.action);
      var o := Performed(v, ev.action, Exact);
      assert ActOn(v, ev.action, Exact).out == v.out + o.out;
      assert SentIn(w, ev, s, Exact) == o.out;
    }
  }

  /** The retransmission queue stays within its capacity, whatever arrives. */
  lemma ReceiveBounded<M>(e: Endpoint<M>, p: Packet<M>, cts: bool)
    requires |e.retr| <= MAX_QUEUE_SIZE
    ensures |Receive(e, p, cts, Exact).e.retr| <= MAX_QUEUE_SIZE
  {
    hide HandleRetrReq, RemoveConfirmed, SnInSeq, SnRangeValid, CsValid, Resent, PushAll;
    var k := RemoveConfirmedSuffix(e.retr, p.cs);
    HandleRetrReqIs(e, p);
  }

  lemma StepBounded<T>(w: World<T>, ev: Event<T>, s: Side)
    requires |Me(w, s).retr| <= MAX_QUEUE_SIZE
    ensures |Me(Step(w, ev, Exact), s).retr| <= MAX_QUEUE_SIZE
  {
    if ev.Act? && ev.side == s && ev.action.Receiving? {
      var v := ViewOf(w, s);
      if v.inc != [] {
        ReceiveBounded(v.me, v.inc[0], ev.action.ctsInSeq);
        hide Receive;
      }
    }
  }

  lemma {:induction false} RunBounded<T>(w: World<T>, evs: seq<Event<T>>, s: Side)
    requires |Me(w, s).retr| <= MAX_QUEUE_SIZE
    ensures |Me(Run(w, evs, Exact), s).retr| <= MAX_QUEUE_SIZE
    decreases |evs|
  {
    hide Step, Me;
    if evs != [] {
      RunBounded(w, evs[..|evs| - 1], s);
      StepBounded(Run(w, evs[..|evs| - 1], Exact), evs[|evs| - 1], s);
    }
  }

  /** In every run the packets a side sends, disconnection requests aside,
      carry consecutive numbers from the first one on. */
  lemma {:induction false} ConsecutiveNumbers<T>(w: World<T>, evs: seq<Event<T>>, s: Side)
    requires |Me(w, s).retr| <= MAX_QUEUE_SIZE
    ensures UsesNumbers(Me(w, s), Me(Run(w, evs, Exact), s), Sent(w, evs, s, Exact))
    decreases |evs|
  {
    hide Step, SentIn, Me;
    if evs != [] {
      var init := evs[..|evs| - 1];
      ConsecutiveNumbers(w, init, s);
      RunBounded(w, init, s);
      var w1 := Run(w, init, Exact);
      StepUsesNumbers(w1, evs[|evs| - 1], s);
      NumberingAppend(Sent(w, init, s, Exact), SentIn(w1, evs[|evs| - 1], s, Exact));
    }
  }
}
