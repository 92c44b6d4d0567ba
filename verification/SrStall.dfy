/** A heartbeat ahead of sequence ends delivery to its receiver: the side waits
    for a response that it never requests. */
module SrStall {
  import opened Words
  import opened SrEndpoint
  import opened SrWorld
  import opened SrInvariant
  import opened SrSafety
  import opened SrRefinement
  import opened SrLimits
  import opened SrConservation
  import opened SrReading
  import opened SrClosing

  ghost predicate NoneOf<M>(ps: seq<Packet<M>>, kind: Kind) {
    forall i :: 0 <= i < |ps| ==> ps[i].kind != kind
  }

  /** Side s neither takes data nor has asked, and no response is under way. */
  ghost predicate Stalled<T>(w: World<T>, s: Side) {
    && !Flowing(Me(w, s).state)
    && NoneOf(OutLink(w, s), RetrReq) && NoneOf(Heard(w, s), RetrResp)
    && |w.a.retr| <= MAX_QUEUE_SIZE && |w.b.retr| <= MAX_QUEUE_SIZE
  }

  lemma StalledReceives<M>(e: Endpoint<M>, p: Packet<M>, cts: bool)
    requires !Flowing(e.state) && !p.kind.RetrResp? && |e.retr| <= MAX_QUEUE_SIZE
    ensures var o := Receive(e, p, cts, Exact);
            !Flowing(o.e.state) && o.e.app == e.app && NoneOf(o.out, RetrReq)
  {
    ReceiveTransitions(e, p, cts, Exact);
    RequestsIff(e, p, cts);
    AnswerKeeps(e, p, Exact);
    hide SnRangeValid, CsValid, SnInSeq, HandleRetrReq, PushAll, RemoveConfirmed;
  }

  /** Only a request is answered with a response. */
  lemma NoResponse<M>(e: Endpoint<M>, p: Packet<M>, cts: bool)
    requires !p.kind.RetrReq?
    ensures NoneOf(Receive(e, p, cts, Exact).out, RetrResp)
  {
    hide SnRangeValid, CsValid, SnInSeq, PushAll, RemoveConfirmed;
  }

  lemma StalledActs<T>(v: View<T>, act: Action<T>)
    requires !Flowing(v.me.state) && NoneOf(v.inc, RetrResp) && |v.me.retr| <= MAX_QUEUE_SIZE
    ensures var o := Performed(v, act, Exact);
            !Flowing(o.e.state) && |o.e.app| <= |v.me.app| && NoneOf(o.out, RetrReq)
  {
    if act.Receiving? && v.inc != [] {
      StalledReceives(v.me, v.inc[0], act.ctsInSeq);
    }
    hide Receive, PushAll, Stamp, Flowing;
  }

  lemma PeerActs<T>(v: View<T>, act: Action<T>)
    requires NoneOf(v.inc, RetrReq)
    ensures NoneOf(Performed(v, act, Exact).out, RetrResp)
  {
    if act.Receiving? && v.inc != [] {
      NoResponse(v.me, v.inc[0], act.ctsInSeq);
    }
    hide Receive, PushAll, Stamp;
  }

  lemma NoneAppend<M>(ps: seq<Packet<M>>, qs: seq<Packet<M>>, kind: Kind)
    requires NoneOf(ps, kind) && NoneOf(qs, kind)
    ensures NoneOf(ps + qs, kind)
  {
  }

  lemma OwnStep<T>(w: World<T>, s: Side, act: Action<T>)
    requires Stalled(w, s)
    ensures var w2 := Step(w, Act(s, act), Exact);
            && !Flowing(Me(w2, s).state) && NoneOf(OutLink(w2, s), RetrReq) && NoneOf(Heard(w2, s), RetrResp)
            && HalfOf(w2, Peer(s)).led.handed == HalfOf(w, Peer(s)).led.handed
  {
    var v := ViewOf(w, s);
    StalledActs(v, act);
    NoneAppend(v.out, Performed(v, act, Exact).out, RetrReq);
    hide Performed, Flowing;
    var app := v.me.app;
    assert app[|app|..] == [] && v.theirs.handed + [] == v.theirs.handed;
  }

  lemma PeerStep<T>(w: World<T>, s: Side, act: Action<T>)
    requires Stalled(w, s)
    ensures var w2 := Step(w, Act(Peer(s), act), Exact);
            && !Flowing(Me(w2, s).state) && NoneOf(OutLink(w2, s), RetrReq) && NoneOf(Heard(w2, s), RetrResp)
            && HalfOf(w2, Peer(s)).led.handed == HalfOf(w, Peer(s)).led.handed
  {
    var v := ViewOf(w, Peer(s));
    PeerActs(v, act);
    NoneAppend(v.out, Performed(v, act, Exact).out, RetrResp);
    hide Performed, Flowing;
  }

  lemma LossStep<T>(w: World<T>, s: Side, from: Side, i: nat)
    requires Stalled(w, s)
    ensures var w2 := Step(w, Loss(from, i), Exact);
            Stalled(w2, s) && HalfOf(w2, Peer(s)).led.handed == HalfOf(w, Peer(s)).led.handed
  {
  }

  lemma StallStep<T>(w: World<T>, ev: Event<T>, s: Side)
    requires Stalled(w, s)
    ensures Stalled(Step(w, ev, Exact), s)
    ensures HalfOf(Step(w, ev, Exact), Peer(s)).led.handed == HalfOf(w, Peer(s)).led.handed
  {
    StepBounded(w, ev, A);
    StepBounded(w, ev, B);
    hide Step, NoneOf, HalfOf;
    match ev
    case Loss(from, i) => LossStep(w, s, from, i);
    case Act(side, act) =>
      if side == s {
        OwnStep(w, s, act);
      } else {
        PeerStep(w, s, act);
      }
  }

  lemma {:induction false} StalledForGood<T>(w: World<T>, evs: seq<Event<T>>, s: Side)
    requires Stalled(w, s)
    ensures Stalled(Run(w, evs, Exact), s)
    ensures HalfOf(Run(w, evs, Exact), Peer(s)).led.handed == HalfOf(w, Peer(s)).led.handed
    decreases |evs|
  {
    if evs != [] {
      hide Step, Stalled, HalfOf;
      StalledForGood(w, evs[..|evs| - 1], s);
      StallStep(Run(w, evs[..|evs| - 1], Exact), evs[|evs| - 1], s);
    }
  }

  /** After a heartbeat ahead of sequence nothing is handed up to this side any
      more, whatever follows: it has not asked for what it missed, and while it
      waits for an answer it asks for nothing. */
  lemma HeartbeatGapStalls<T>(w: World<T>, s: Side, cts: bool, more: seq<Event<T>>)
    requires Inv(w) && Heard(w, s) != [] && Heard(w, s)[0].kind.Heartbeat?
    requires ChecksOut(Me(w, s), Heard(w, s)[0]) && Flowing(Me(w, s).state)
    requires Diff32(Heard(w, s)[0].sn, Me(w, s).snR) != 0
    ensures var w2 := Run(Step(w, Act(s, Receiving(cts)), Exact), more, Exact);
            HalfOf(w2, Peer(s)).led.handed == HalfOf(w, Peer(s)).led.handed
  {
    var w1 := Step(w, Act(s, Receiving(cts)), Exact);
    StallBegins(w, s, cts);
    hide Step, Stalled, HalfOf, Inv;
    StalledForGood(w1, more, s);
  }

  /** While a side takes data, neither a request of its nor a response is under way. */
  lemma NoneUnderWay<T>(w: World<T>, s: Side)
    requires Inv(w) && Flowing(Me(w, s).state)
    ensures NoneOf(OutLink(w, s), RetrReq) && NoneOf(Heard(w, s), RetrResp)
    ensures Heard(w, s) != [] ==> NoneOf(Heard(w, s)[1..], RetrResp)
    ensures |w.a.retr| <= MAX_QUEUE_SIZE && |w.b.retr| <= MAX_QUEUE_SIZE
  {
    hide Numbers, Fresh, InOrder, Delivered;
    assert Exclusive(HalfOf(w, Peer(s)));
  }

  lemma StallBegins<T>(w: World<T>, s: Side, cts: bool)
    requires Inv(w) && Heard(w, s) != [] && Heard(w, s)[0].kind.Heartbeat?
    requires ChecksOut(Me(w, s), Heard(w, s)[0]) && Flowing(Me(w, s).state)
    requires Diff32(Heard(w, s)[0].sn, Me(w, s).snR) != 0
    ensures var w1 := Step(w, Act(s, Receiving(cts)), Exact);
            Stalled(w1, s) && HalfOf(w1, Peer(s)).led.handed == HalfOf(w, Peer(s)).led.handed
  {
    hide Inv, SnRangeValid, CsValid, NoneOf;
    NoneUnderWay(w, s);
    var v := ViewOf(w, s);
    SameDistance(v.inc[0].sn, v.me.snR);
    hide Diff32;
    assert v.me.app[|v.me.app|..] == [] && v.theirs.handed + [] == v.theirs.handed && v.out + [] == v.out;
  }

  /** The same in runs of the 32-bit program. */
  lemma HeartbeatGapStalls32<T>(
      client: Config, server: Config, x: int, y: int, evs: seq<Event<T>>, s: Side, cts: bool, more: seq<Event<T>>)
    requires 0 <= x < U32 && 0 <= y < U32 && RunClean(Established(client, server, x, y, Exact), evs)
    requires var w := Run(Established<T>(client, server, x, y, Exact), evs, Exact);
             && Heard(w, s) != [] && Heard(w, s)[0].kind.Heartbeat? && ChecksOut(Me(w, s), Heard(w, s)[0])
             && Diff32(Heard(w, s)[0].sn, Me(w, s).snR) != 0 && Flowing(Me(w, s).state)
    ensures var w0 := Established<T>(client, server, x, y, Wrapped);
            var after := Run(w0, evs + [Act(s, Receiving(cts))] + more, Wrapped);
            HalfOf(after, Peer(s)).led.handed == HalfOf(Run(w0, evs, Wrapped), Peer(s)).led.handed
  {
    var w0 := Established<T>(client, server, x, y, Exact);
    var act: seq<Event<T>> := [Act(s, Receiving(cts))];
    EstablishedInv<T>(client, server, x, y);
    RunKeeps(w0, evs);
    hide Established, Run, Step, Inv, RunClean, Heard, ChecksOut, Me;
    HeartbeatGapStalls(Run(w0, evs, Exact), s, cts, more);
    RunAppend(w0, evs, act);
    RunOne(Run(w0, evs, Exact), act[0]);
    RunAppend(w0, evs + act, more);
    LowEstablished<T>(client, server, x, y);
    LowRun(w0, evs);
    LowRun(w0, evs + act + more);
  }
}
