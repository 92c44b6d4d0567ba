/** Runs in which no sequence number comes round: they stay in the window. */
module SrTurn {
  import opened Words
  import opened SrEndpoint
  import opened SrWorld
  import opened SrInvariant
  import opened SrSenderSteps
  import opened SrSafety
  import opened SrReceiverSteps
  import opened SrConservation
  import opened SrRefinement

  ghost predicate EntriesAbove<M>(q: seq<Entry<M>>, f: int) {
    forall k :: 0 <= k < |q| ==> f <= q[k].sn
  }

  ghost predicate ConfirmsAbove<M>(ps: seq<Packet<M>>, f: int) {
    forall i :: 0 <= i < |ps| ==> f <= ps[i].cs
  }

  /** Nothing remembered of this direction is numbered below f. */
  ghost predicate Above<T>(h: Half<T>, f: int) {
    f <= h.x.csR && f <= h.y.csT && EntriesAbove(h.x.retr, f) && ConfirmsAbove(h.back, f)
  }

  lemma AboveInWindow<T>(h: Half<T>, f: int)
    requires Above(h, f) && h.x.snT <= f + U32
    ensures HalfInWindow(h)
  {
  }

  lemma RequestAbove<M>(e: Endpoint<M>, p: Packet<M>, f: int, g: int)
    requires |e.retr| <= MAX_QUEUE_SIZE && EntriesAbove(e.retr, f) && f <= e.snT && g <= e.csT && g <= p.sn
    ensures var o := HandleRetrReq(e, p, Exact);
            EntriesAbove(o.e.retr, f) && g <= o.e.csT && ConfirmsAbove(o.out, g) && e.snT <= o.e.snT
  {
    HandleRetrReqIs(e, p);
    hide HandleRetrReq, RemoveConfirmed, SnInSeq;
  }

  /** An outcome that keeps the own direction above f and the other above g. */
  ghost predicate Stays<M>(e: Endpoint<M>, o: Outcome<M>, f: int, g: int) {
    EntriesAbove(o.e.retr, f) && g <= o.e.csT && ConfirmsAbove(o.out, g) && e.snT <= o.e.snT
  }

  lemma DataAbove<M>(e: Endpoint<M>, p: Packet<M>, cts: bool, f: int, g: int)
    requires EntriesAbove(e.retr, f) && g <= e.csT && g <= p.sn
    ensures Stays(e, HandleData(e, p, cts, Exact), f, g) && Stays(e, HandleRetrData(e, p, cts, Exact), f, g)
  {
    hide RemoveConfirmed, SnInSeq, PushAll;
    var k := RemoveConfirmedSuffix(e.retr, p.cs);
  }

  lemma OtherAbove<M>(e: Endpoint<M>, p: Packet<M>, cts: bool, f: int, g: int)
    requires EntriesAbove(e.retr, f) && g <= e.csT && g <= p.sn
    ensures Stays(e, HandleHeartbeat(e, p, cts, Exact), f, g) && Stays(e, HandleRetrResp(e, p, Exact), f, g)
  {
    hide SnInSeq;
  }

  lemma ReceiveAbove<M>(e: Endpoint<M>, p: Packet<M>, cts: bool, f: int, g: int)
    requires |e.retr| <= MAX_QUEUE_SIZE && EntriesAbove(e.retr, f) && f <= e.snT && g <= e.csT
    requires p.kind.DiscReq? || g <= p.sn
    ensures Stays(e, Receive(e, p, cts, Exact), f, g)
  {
    hide HandleRetrReq, HandleData, HandleRetrData, HandleHeartbeat, HandleRetrResp, SnRangeValid, CsValid;
    if !p.kind.DiscReq? {
      RequestAbove(e, p, f, g);
      DataAbove(e, p, cts, f, g);
      OtherAbove(e, p, cts, f, g);
    }
  }

  lemma BatchAbove<M>(e: Endpoint<M>, f: int, g: int)
    requires EntriesAbove(e.retr, f) && f <= e.snT && g <= e.csT
    ensures Stays(e, SendStep(e, Exact), f, g)
  {
  }

  lemma PerformedAbove<T>(v: View<T>, act: Action<T>, f: int, g: int)
    requires |v.me.retr| <= MAX_QUEUE_SIZE && EntriesAbove(v.me.retr, f) && f <= v.me.snT && g <= v.me.csT
    requires v.inc != [] ==> v.inc[0].kind.DiscReq? || g <= v.inc[0].sn
    ensures Stays(v.me, Performed(v, act, Exact), f, g)
  {
    hide Receive, SendStep, PushAll, Stamp;
    match act
    case Receiving(cts) =>
      if v.inc != [] {
        ReceiveAbove(v.me, v.inc[0], cts, f, g);
      }
    case Sending => BatchAbove(v.me, f, g);
    case _ =>
  }

  /** An action of one side: its own direction, above f, and the other, above g. */
  lemma {:induction false} ActAbove<T>(v: View<T>, peer: Endpoint<Stamped<T>>, act: Action<T>, f: int, g: int)
    requires DirInv(Outgoing(v, peer)) && DirInv(Incoming(v, peer)) && HalfInWindow(Outgoing(v, peer))
    requires Above(Outgoing(v, peer), f) && Above(Incoming(v, peer), g)
    ensures var v2 := ActOn(v, act, Exact);
            Above(Outgoing(v2, peer), f) && Above(Incoming(v2, peer), g) && v.me.snT <= v2.me.snT
  {
    var i := Incoming(v, peer);
    assert Numbers(i) && v.inc != [] ==> v.inc[0] == i.link[0];
    StepConfirms(v, peer, act);
    assert |v.me.retr| <= MAX_QUEUE_SIZE && v.me.csR < v.me.snT;
    PerformedAbove(v, act, f, g);
    hide Performed, DirInv, HalfInWindow;
  }

  ghost predicate BothAbove<T>(w: World<T>, f: int, g: int) {
    Above(Half(w.a, w.b, w.ab, w.ba, w.fromA), f) && Above(Half(w.b, w.a, w.ba, w.ab, w.fromB), g)
  }

  lemma LossAbove<T>(w: World<T>, s: Side, i: nat, f: int, g: int)
    requires BothAbove(w, f, g)
    ensures BothAbove(Step(w, Loss(s, i), Exact), f, g)
  {
    hide EntriesAbove;
  }

  lemma StepAbove<T>(w: World<T>, ev: Event<T>, f: int, g: int)
    requires Inv(w) && InWindow(w) && BothAbove(w, f, g)
    ensures BothAbove(Step(w, ev, Exact), f, g)
  {
    hide DirInv, HalfInWindow, Above, ActOn;
    match ev
    case Loss(s, i) => LossAbove(w, s, i, f, g);
    case Act(s, act) =>
      var v := ViewOf(w, s);
      if s.A? {
        ActAbove(v, w.b, act, f, g);
      } else {
        ActAbove(v, w.a, act, g, f);
      }
  }

  lemma ReceiveGrows<M>(e: Endpoint<M>, p: Packet<M>, cts: bool)
    requires |e.retr| <= MAX_QUEUE_SIZE
    ensures e.snT <= Receive(e, p, cts, Exact).e.snT
  {
    hide HandleRetrReq, RemoveConfirmed, SnInSeq, SnRangeValid, CsValid, Resent, Renumbered, PushAll;
    HandleRetrReqIs(e, p);
  }

  lemma PerformedGrows<T>(v: View<T>, act: Action<T>)
    requires |v.me.retr| <= MAX_QUEUE_SIZE
    ensures v.me.snT <= Performed(v, act, Exact).e.snT
  {
    if act.Receiving? && v.inc != [] {
      ReceiveGrows(v.me, v.inc[0], act.ctsInSeq);
      hide Receive;
    }
  }

  lemma NextNumberGrows<T>(w: World<T>, ev: Event<T>, s: Side)
    requires |Me(w, s).retr| <= MAX_QUEUE_SIZE
    ensures Me(w, s).snT <= Me(Step(w, ev, Exact), s).snT
  {
    if ev.Act? && ev.side == s {
      PerformedGrows(ViewOf(w, s), ev.action);
      hide Performed;
    }
  }

  lemma {:induction false} NumbersGrow<T>(w: World<T>, evs: seq<Event<T>>, k: nat, s: Side)
    requires |Me(w, s).retr| <= MAX_QUEUE_SIZE && k <= |evs|
    ensures Me(Run(w, evs[..k], Exact), s).snT <= Me(Run(w, evs, Exact), s).snT
    decreases |evs|
  {
    hide Step, Me;
    if k == |evs| {
      assert evs[..k] == evs;
    } else {
      var init := evs[..|evs| - 1];
      assert init[..k] == evs[..k];
      NumbersGrow(w, init, k, s);
      RunBounded(w, init, s);
      NextNumberGrows(Run(w, init, Exact), evs[|evs| - 1], s);
    }
  }

  /** No side has used up 2^32 - 2 numbers since the handshake. */
  ghost predicate OneTurn<T>(client: Config, server: Config, x: int, y: int, evs: seq<Event<T>>) {
    var w := Run(Established<T>(client, server, x, y, Exact), evs, Exact);
    w.a.snT <= x + U32 && w.b.snT <= y + U32
  }

  lemma WindowGrows<T>(w: World<T>, evs: seq<Event<T>>)
    requires evs != [] && RunInWindow(w, evs[..|evs| - 1]) && InWindow(Run(w, evs, Exact))
    ensures RunInWindow(w, evs)
  {
    var init := evs[..|evs| - 1];
    hide InWindow, Run;
    forall k | 0 <= k <= |evs| ensures InWindow(Run(w, evs[..k], Exact)) {
      if k < |evs| {
        assert init[..k] == evs[..k];
      } else {
        assert evs[..k] == evs;
      }
    }
  }

  lemma TurnOfPrefix<T>(client: Config, server: Config, x: int, y: int, evs: seq<Event<T>>)
    requires OneTurn(client, server, x, y, evs) && evs != []
    ensures OneTurn(client, server, x, y, evs[..|evs| - 1])
  {
    var w0 := Established<T>(client, server, x, y, Exact);
    NumbersGrow(w0, evs, |evs| - 1, A);
    NumbersGrow(w0, evs, |evs| - 1, B);
    hide Run;
  }

  lemma {:induction false} TurnStarts<T>(client: Config, server: Config, x: int, y: int)
    ensures var w0 := Established<T>(client, server, x, y, Exact);
            Inv(w0) && BothAbove(w0, x, y) && RunInWindow(w0, [])
  {
    var w0 := Established<T>(client, server, x, y, Exact);
    EstablishedInv<T>(client, server, x, y);
    assert BothAbove(w0, x, y);
    BothInWindow(w0, x, y);
  }

  lemma {:induction false} TurnStays<T>(client: Config, server: Config, x: int, y: int, evs: seq<Event<T>>)
    requires OneTurn(client, server, x, y, evs)
    ensures var w0 := Established<T>(client, server, x, y, Exact);
            var w := Run(w0, evs, Exact);
            Inv(w) && BothAbove(w, x, y) && RunInWindow(w0, evs)
    decreases |evs|
  {
    hide Established, Step, Inv, InWindow, BothAbove, CleanStep;
    var w0 := Established<T>(client, server, x, y, Exact);
    if evs == [] {
      TurnStarts<T>(client, server, x, y);
    } else {
      var init := evs[..|evs| - 1];
      var w1, w2 := Run(w0, init, Exact), Run(w0, evs, Exact);
      TurnOfPrefix(client, server, x, y, evs);
      TurnStays(client, server, x, y, init);
      assert init[..|init|] == init;
      assert InWindow(w1);
      StepAbove(w1, evs[|evs| - 1], x, y);
      StepInWindow(w1, evs[|evs| - 1]);
      StepKeeps(w1, evs[|evs| - 1]);
      BothInWindow(w2, x, y);
      WindowGrows(w0, evs);
    }
  }

  lemma BothInWindow<T>(w: World<T>, x: int, y: int)
    requires BothAbove(w, x, y) && w.a.snT <= x + U32 && w.b.snT <= y + U32
    ensures InWindow(w)
  {
    AboveInWindow(Half(w.a, w.b, w.ab, w.ba, w.fromA), x);
    AboveInWindow(Half(w.b, w.a, w.ba, w.ab, w.fromB), y);
  }

  /** The end-to-end result with a condition on the number of packets alone:
      until one side has sent about 2^32 packets, whatever is lost and however
      often retransmission happens, messages arrive in order and none twice,
      wherever in the 32-bit range the numbers start. */
  lemma EndToEndOneTurn<T(!new)>(client: Config, server: Config, x: int, y: int, evs: seq<Event<T>>)
    requires 0 <= x < U32 && 0 <= y < U32 && OneTurn(client, server, x, y, evs)
    ensures var w := Run(Established(client, server, x, y, Wrapped), evs, Wrapped);
            && IsSubsequence(Bodies(w.fromA.handed), w.fromA.submitted)
            && IsSubsequence(Bodies(w.fromB.handed), w.fromB.submitted)
  {
    TurnStays(client, server, x, y, evs);
    EstablishedInv<T>(client, server, x, y);
    WindowIsClean(Established(client, server, x, y, Exact), evs);
    EndToEnd32(client, server, x, y, evs);
  }

  /* ----- every number taken over is the one expected ----- */

  lemma AboveIsTrue<T>(v: View<T>, peer: Endpoint<Stamped<T>>, act: Action<T>, g: int)
    requires DirInv(Incoming(v, peer)) && Above(Incoming(v, peer), g) && peer.snT <= g + U32
    ensures TrueAction(v, act)
  {
    if act.Receiving? && v.inc != [] && TakesOver(v.me, v.inc[0]) {
      var i := Incoming(v, peer);
      assert Numbers(i) && v.inc[0] == i.link[0];
      assert v.me.snR <= v.inc[0].sn < peer.snT;
      assert Diff32(v.me.snR, v.inc[0].sn) == 0;
    }
  }

  lemma TurnStepTrue<T>(w: World<T>, ev: Event<T>, f: int, g: int)
    requires Inv(w) && BothAbove(w, f, g) && w.a.snT <= f + U32 && w.b.snT <= g + U32
    ensures TrueStep(w, ev)
  {
    if ev.Act? {
      var v := ViewOf(w, ev.side);
      hide DirInv, Above, TrueAction;
      if ev.side.A? {
        AboveIsTrue(v, w.b, ev.action, g);
      } else {
        AboveIsTrue(v, w.a, ev.action, f);
      }
    }
  }

  lemma {:induction false} TurnIsTrue<T>(client: Config, server: Config, x: int, y: int, evs: seq<Event<T>>)
    requires OneTurn(client, server, x, y, evs)
    ensures RunTrue(Established<T>(client, server, x, y, Exact), evs)
    decreases |evs|
  {
    hide Established, Step, Inv, BothAbove, TrueStep, Run;
    var w0 := Established<T>(client, server, x, y, Exact);
    if evs != [] {
      var init := evs[..|evs| - 1];
      TurnOfPrefix(client, server, x, y, evs);
      TurnIsTrue(client, server, x, y, init);
      TurnStays(client, server, x, y, init);
      TurnStepTrue(Run(w0, init, Exact), evs[|evs| - 1], x, y);
      forall k | 0 <= k < |evs| ensures TrueStep(Run(w0, evs[..k], Exact), evs[k]) {
        if k == |init| {
          assert evs[..k] == init;
        } else {
          assert init[..k] == evs[..k] && init[k] == evs[k];
        }
      }
    }
  }

  /** While neither side has used up its numbers, state RETRRUN meets no new
      data in sequence. */
  lemma OnlyResentInOneTurn<T>(client: Config, server: Config, x: int, y: int, evs: seq<Event<T>>, s: Side)
    requires OneTurn(client, server, x, y, evs)
    ensures OnlyResent(HalfOf(Run(Established(client, server, x, y, Exact), evs, Exact), s))
  {
    hide OneTurn, RunTrue, OnlyResent, Run;
    TurnIsTrue(client, server, x, y, evs);
    OnlyResentInRetransmission(client, server, x, y, evs, s);
  }
}
