/** Every action of an endpoint is one of the sender steps of SrSender. */
module SrSenderSteps {
  import opened SrEndpoint
  import opened SrWorld
  import opened SrInvariant
  import opened SrSender

  ghost predicate QuietOutcome<M>(e: Endpoint<M>, p: Packet<M>, o: Outcome<M>, k: nat) {
    && k <= |e.retr| && (k == 0 || RemoveConfirmed(e.retr, p.cs) == e.retr[k..]) && o.e.retr == e.retr[k..]
    && o.e.send == e.send
    && Quiet(o.out, e.snT, o.e.snT) && e.snT <= o.e.snT
    && (o.e.csR == e.csR || o.e.csR == p.cs || o.e.csR == e.snT - 1)
  }

  /** The receive step removes confirmed entries. */
  predicate Trimming<M>(e: Endpoint<M>, p: Packet<M>, cts: bool) {
    && e.attached && SnRangeValid(e, p) && CsValid(e, p)
    && (p.kind.RetrReq? || (p.kind.Data? && SnInSeq(e, p) && e.state.Up? && cts))
  }

  lemma DataOutcome<M>(e: Endpoint<M>, p: Packet<M>, cts: bool) returns (k: nat)
    ensures QuietOutcome(e, p, HandleData(e, p, cts, Exact), k)
    ensures k > 0 ==> SnInSeq(e, p) && e.state.Up? && cts
  {
    assert e.retr[0..] == e.retr;
    k := 0;
    if SnInSeq(e, p) && e.state.Up? && cts {
      k := RemoveConfirmedSuffix(e.retr, p.cs);
    }
  }

  lemma HeartbeatOutcome<M>(e: Endpoint<M>, p: Packet<M>, cts: bool)
    ensures QuietOutcome(e, p, HandleHeartbeat(e, p, cts, Exact), 0)
  {
    hide SnInSeq;
    assert e.retr[0..] == e.retr;
  }

  lemma RetrDataOutcome<M>(e: Endpoint<M>, p: Packet<M>, cts: bool)
    ensures QuietOutcome(e, p, HandleRetrData(e, p, cts, Exact), 0)
  {
    hide SnInSeq;
    assert e.retr[0..] == e.retr;
  }

  lemma OtherOutcomes<M>(e: Endpoint<M>, p: Packet<M>)
    ensures QuietOutcome(e, p, HandleRetrResp(e, p, Exact), 0)
    ensures QuietOutcome(e, p, HandleDiscReq(e), 0)
    ensures QuietOutcome(e, p, Start(e), 0)
  {
    assert e.retr[0..] == e.retr;
  }

  /** Everything but an answered retransmission request is quiet for the sender. */
  lemma ReceiveOutcome<M>(e: Endpoint<M>, p: Packet<M>, cts: bool) returns (k: nat)
    requires !p.kind.RetrReq?
    ensures QuietOutcome(e, p, Receive(e, p, cts, Exact), k)
    ensures k > 0 ==> Trimming(e, p, cts)
  {
    OtherOutcomes(e, p);
    HeartbeatOutcome(e, p, cts);
    RetrDataOutcome(e, p, cts);
    hide QuietOutcome, HandleHeartbeat, HandleRetrData, HandleRetrResp, HandleData, HandleDiscReq;
    k := 0;
    if p.kind.Data? && e.attached && SnRangeValid(e, p) && CsValid(e, p) {
      k := DataOutcome(e, p, cts);
    }
  }

  lemma ReceiveIsQuiet<T>(v: View<T>, peer: Endpoint<Stamped<T>>, cts: bool) returns (k: nat)
    requires Numbers(Outgoing(v, peer)) && v.inc != [] && !v.inc[0].kind.RetrReq?
    ensures var o := Receive(v.me, v.inc[0], cts, Exact);
            QuietStep(Outgoing(v, peer), Outgoing(ActOn(v, Receiving(cts), Exact), peer), k, o.out, [])
    ensures k == 0 || (Trims(Outgoing(v, peer), k) && Trimming(v.me, v.inc[0], cts))
  {
    hide Receive, SnInSeq, SnRangeValid, CsValid;
    k := ReceiveOutcome(v.me, v.inc[0], cts);
    assert Outgoing(v, peer).back[0] == v.inc[0];
    assert v.me.send + [] == v.me.send;
  }

  /** HandleRetrReq on an endpoint whose queue is within bounds, spelled out. */
  function Answered<M>(e: Endpoint<M>, p: Packet<M>): Outcome<M> {
    var kept := RemoveConfirmed(e.retr, p.cs);
    var inSeq := SnInSeq(e, p);
    var closing := inSeq && e.state.Running?;
    var cs := if inSeq then p.sn else e.csT;
    Outcome(
      e.(retr := Renumbered(kept, e.snT + 1), snT := e.snT + |kept| + 2, csR := p.cs, csT := cs,
         snR := if inSeq then p.sn + 1 else e.snR,
         state := if closing then Closed else if inSeq then e.state else WaitResp,
         attached := e.attached && !closing),
      if !e.attached then []
      else if closing then [Packet(DiscReq, e.snT, e.csT, [])]
      else [Packet(RetrResp, e.snT, cs, [])] + Resent(kept, e.snT + 1, cs)
           + [Packet(Heartbeat, e.snT + |kept| + 1, cs, [])],
      [])
  }

  lemma ApplyRequestIs<M>(e: Endpoint<M>, p: Packet<M>)
    ensures var inSeq := SnInSeq(e, p);
            var closing := inSeq && e.state.Running?;
            ApplyRequest(e, p, Exact) == Outcome(
              e.(retr := RemoveConfirmed(e.retr, p.cs), csR := p.cs,
                 csT := if inSeq then p.sn else e.csT,
                 snR := if inSeq then p.sn + 1 else e.snR,
                 state := if closing then Closed else e.state,
                 attached := e.attached && !closing),
              if closing && e.attached then [Packet(DiscReq, e.snT, e.csT, [])] else [], [])
  {
    hide SnInSeq, RemoveConfirmed;
  }

  lemma RetransmitDataIs<M>(o: Outcome<M>)
    requires |o.e.retr| <= MAX_QUEUE_SIZE
    ensures var n := o.e.snT;
            RetransmitData(o, Exact) == Outcome(
              o.e.(snT := n + |o.e.retr| + 1, retr := Renumbered(o.e.retr, n)),
              if o.e.attached then
                o.out + Resent(o.e.retr, n, o.e.csT) + [Packet(Heartbeat, n + |o.e.retr|, o.e.csT, [])]
              else o.out,
              o.up)
  {
    RetransmitAllIs(o.(e := o.e.(retr := [])), o.e.retr);
    hide RetransmitAll, Resent, Renumbered;
    assert [] + Renumbered(o.e.retr, o.e.snT) == Renumbered(o.e.retr, o.e.snT);
  }

  lemma HandleRetrReqIs<M>(e: Endpoint<M>, p: Packet<M>)
    requires |e.retr| <= MAX_QUEUE_SIZE
    ensures HandleRetrReq(e, p, Exact) == Answered(e, p)
  {
    var k := RemoveConfirmedSuffix(e.retr, p.cs);
    ApplyRequestIs(e, p);
    hide ApplyRequest, RemoveConfirmed, RetransmitData, Resent, Renumbered, SnInSeq;
    var o1 := ApplyRequest(e, p, Exact);
    RetransmitDataIs(Emit(o1, RetrResp, [], Exact));
    var resp: seq<Packet<M>> := [Packet(RetrResp, e.snT, o1.e.csT, [])];
    assert [] + resp == resp;
  }

  /** The receive step gets as far as answering a retransmission request. */
  predicate Answers<M>(e: Endpoint<M>, p: Packet<M>) {
    p.kind.RetrReq? && e.attached && SnRangeValid(e, p) && CsValid(e, p)
  }

  lemma AnswerIsRespond<T>(v: View<T>, peer: Endpoint<Stamped<T>>, h2: Half<T>) returns (k: nat)
    requires Numbers(Outgoing(v, peer)) && v.inc != [] && v.inc[0].kind.RetrReq?
    requires !(SnInSeq(v.me, v.inc[0]) && v.me.state.Running?)
    requires var o := Answered(v.me, v.inc[0]);
             h2 == Half(o.e, peer, v.out + o.out, v.inc[1..], v.mine)
    ensures RespondStep(Outgoing(v, peer), h2, k, if SnInSeq(v.me, v.inc[0]) then v.inc[0].sn else v.me.csT)
    ensures Trims(Outgoing(v, peer), k)
  {
    k := RemoveConfirmedSuffix(v.me.retr, v.inc[0].cs);
    assert Outgoing(v, peer).back[0].cs < v.me.snT;
    hide Numbers, RemoveConfirmed, Renumbered, Resent, SnInSeq;
    assert v.out + [] == v.out;
  }

  /** In state Running the request closes the connection: only a disconnection
      request leaves, the answer goes nowhere. */
  lemma RefusalIsRespond<T>(v: View<T>, peer: Endpoint<Stamped<T>>, h2: Half<T>) returns (k: nat)
    requires Numbers(Outgoing(v, peer)) && v.inc != [] && v.inc[0].kind.RetrReq? && v.me.attached
    requires SnInSeq(v.me, v.inc[0]) && v.me.state.Running?
    requires var o := Answered(v.me, v.inc[0]);
             h2 == Half(o.e, peer, v.out + o.out, v.inc[1..], v.mine)
    ensures var disc := Packet(DiscReq, v.me.snT, v.me.csT, []);
            RespondStep(Outgoing(v, peer).(link := v.out + [disc]), h2, k, v.inc[0].sn)
    ensures Trims(Outgoing(v, peer), k)
  {
    k := RemoveConfirmedSuffix(v.me.retr, v.inc[0].cs);
    assert Outgoing(v, peer).back[0].cs < v.me.snT;
    hide Numbers, RemoveConfirmed, Renumbered, Resent, SnInSeq;
  }

  lemma OutgoingAfter<T>(v: View<T>, peer: Endpoint<Stamped<T>>, cts: bool)
    requires v.inc != []
    ensures var o := Receive(v.me, v.inc[0], cts, Exact);
            Outgoing(ActOn(v, Receiving(cts), Exact), peer) == Half(o.e, peer, v.out + o.out, v.inc[1..], v.mine)
  {
    hide Receive;
  }

  lemma NoQuiet<T>(h: Half<T>)
    requires Numbers(h)
    ensures QuietStep(h, h.(link := h.link + []), 0, [], []) && h.(link := h.link + []) == h
  {
    assert h.link + [] == h.link && h.x.send + [] == h.x.send;
  }

  lemma DisconnectIsQuiet<T>(h: Half<T>, p: Packet<Stamped<T>>)
    requires Numbers(h) && p == Packet(DiscReq, h.x.snT, p.cs, [])
    ensures QuietStep(h, h.(link := h.link + [p]), 0, [p], [])
  {
    assert h.x.send + [] == h.x.send;
  }

  /** A request that passes the checks. */
  lemma RequestMove<T>(v: View<T>, peer: Endpoint<Stamped<T>>, h2: Half<T>) returns (m: Move<T>)
    requires Numbers(Outgoing(v, peer)) && v.inc != [] && v.inc[0].kind.RetrReq? && v.me.attached
    requires var o := Answered(v.me, v.inc[0]);
             h2 == Half(o.e, peer, v.out + o.out, v.inc[1..], v.mine)
    ensures Moves(Outgoing(v, peer), h2, m) && m.Answering?
  {
    hide Numbers, Answered, SnInSeq, RespondStep, Trims, QuietStep;
    var p := v.inc[0];
    var h := Outgoing(v, peer);
    if SnInSeq(v.me, p) && v.me.state.Running? {
      var disc := Packet(DiscReq, v.me.snT, v.me.csT, []);
      DisconnectIsQuiet(h, disc);
      var k := RefusalIsRespond(v, peer, h2);
      m := Answering([disc], k, p.sn);
    } else {
      NoQuiet(h);
      var k := AnswerIsRespond(v, peer, h2);
      m := Answering([], k, if SnInSeq(v.me, p) then p.sn else v.me.csT);
    }
  }

  lemma NothingSent<T>(v: View<T>, peer: Endpoint<Stamped<T>>, h2: Half<T>)
    requires Numbers(Outgoing(v, peer)) && v.inc != [] && h2 == Outgoing(v, peer).(back := v.inc[1..])
    ensures Moves(Outgoing(v, peer), h2, Quieting(0, [], []))
  {
    assert v.me.send + [] == v.me.send && v.out + [] == v.out;
  }

  lemma RetrReqMove<T>(v: View<T>, peer: Endpoint<Stamped<T>>, cts: bool) returns (m: Move<T>)
    requires Numbers(Outgoing(v, peer)) && |v.me.retr| <= MAX_QUEUE_SIZE
    requires v.inc != [] && v.inc[0].kind.RetrReq?
    ensures Moves(Outgoing(v, peer), Outgoing(ActOn(v, Receiving(cts), Exact), peer), m)
    ensures !m.Batching? && (m.Answering? <==> Answers(v.me, v.inc[0])) && (m.Quieting? ==> m.k == 0)
  {
    hide ActOn, HandleRetrReq, Answered, SnRangeValid, CsValid;
    var p := v.inc[0];
    var h2 := Outgoing(ActOn(v, Receiving(cts), Exact), peer);
    OutgoingAfter(v, peer, cts);
    HandleRetrReqIs(v.me, p);
    if Answers(v.me, p) {
      m := RequestMove(v, peer, h2);
    } else {
      NothingSent(v, peer, h2);
      m := Quieting(0, [], []);
    }
  }

  lemma SubmitMove<T>(v: View<T>, peer: Endpoint<Stamped<T>>, bodies: seq<T>) returns (m: Move<T>)
    requires Numbers(Outgoing(v, peer))
    ensures Moves(Outgoing(v, peer), Outgoing(ActOn(v, Submitting(bodies), Exact), peer), m) && m.Quieting? && m.k == 0
  {
    var ms := Stamp(bodies, |v.mine.submitted|);
    var o := Submit(v.me, ms);
    var more := [];
    if o.e.send != v.me.send {
      var k := PushAllIs(v.me.send, ms, 2 * v.me.cfg.maxPacket);
      more := ms[..k];
    }
    assert v.me.send + [] == v.me.send;
    m := Quieting(0, o.out, more);
  }

  lemma SendMove<T>(v: View<T>, peer: Endpoint<Stamped<T>>) returns (m: Move<T>)
    requires Numbers(Outgoing(v, peer))
    ensures Moves(Outgoing(v, peer), Outgoing(ActOn(v, Sending, Exact), peer), m)
    ensures !m.Answering? && (m.Quieting? ==> m.k == 0)
    ensures m.Batching? ==> |v.me.retr| <= v.me.cfg.maxPacket && (v.me.cfg.maxPacket > 0 ==> m.n > 0)
  {
    var h := Outgoing(v, peer);
    var h2 := Outgoing(ActOn(v, Sending, Exact), peer);
    var o := SendStep(v.me, Exact);
    if o == Start(v.me) {
      assert v.me.send + [] == v.me.send;
      m := Quieting(0, [], []);
    } else {
      var n := |v.me.send| - |o.e.send|;
      assert o.e.send == v.me.send[n..];
      if v.me.attached {
        assert h2.link == h.link + [Packet(Data, h.x.snT, v.me.csT, v.me.send[..n])];
      }
      m := Batching(n);
    }
  }

  lemma LocalMove<T>(v: View<T>, peer: Endpoint<Stamped<T>>, act: Action<T>) returns (m: Move<T>)
    requires Numbers(Outgoing(v, peer))
    requires !act.Submitting? && !act.Sending? && (act.Receiving? ==> v.inc == [])
    ensures Moves(Outgoing(v, peer), Outgoing(ActOn(v, act, Exact), peer), m) && m.Quieting? && m.k == 0
  {
    hide Receive, Submit, SendStep;
    assert v.me.send + [] == v.me.send;
    assert v.me.csR < v.me.snT;
    assert v.me.retr[0..] == v.me.retr;
    assert v.mine.submitted + [] == v.mine.submitted;
    hide Numbers;
    m := Quieting(0, Performed(v, act, Exact).out, []);
    match act
    case Beating(expired, due) =>
    case Disconnecting =>
    case Fetching =>
    case Receiving(_) =>
  }

  lemma OtherMove<T>(v: View<T>, peer: Endpoint<Stamped<T>>, cts: bool) returns (m: Move<T>)
    requires Numbers(Outgoing(v, peer)) && v.inc != [] && !v.inc[0].kind.RetrReq?
    ensures Moves(Outgoing(v, peer), Outgoing(ActOn(v, Receiving(cts), Exact), peer), m) && m.Quieting?
    ensures m.k > 0 ==> Trimming(v.me, v.inc[0], cts)
  {
    var k := ReceiveIsQuiet(v, peer, cts);
    m := Quieting(k, Receive(v.me, v.inc[0], cts, Exact).out, []);
  }

  /** The retransmission request that act takes, if any, is answered cleanly. */
  ghost predicate CleanAction<T>(v: View<T>, act: Action<T>) {
    act.Receiving? && v.inc != [] && Answers(v.me, v.inc[0]) ==> CleanCut(v.me.retr, v.inc[0].cs)
  }

  /** Whatever an endpoint does is one of the sender's moves. */
  lemma {:induction false} SenderMoves<T>(v: View<T>, peer: Endpoint<Stamped<T>>, act: Action<T>) returns (m: Move<T>)
    requires Numbers(Outgoing(v, peer)) && |v.me.retr| <= MAX_QUEUE_SIZE
    ensures Moves(Outgoing(v, peer), Outgoing(ActOn(v, act, Exact), peer), m)
    ensures m.Answering? ==> act.Receiving? && v.inc != [] && Answers(v.me, v.inc[0])
    ensures m.Quieting? && m.k > 0 ==> act.Receiving? && v.inc != [] && Trimming(v.me, v.inc[0], act.ctsInSeq)
    ensures m.Batching? ==> |v.me.retr| <= v.me.cfg.maxPacket && (v.me.cfg.maxPacket > 0 ==> m.n > 0)
    ensures act.Submitting? ==> m.Quieting?
  {
    hide Numbers, Moves, ActOn, Answers, Trimming;
    match act
    case Submitting(bodies) => m := SubmitMove(v, peer, bodies);
    case Sending => m := SendMove(v, peer);
    case Receiving(cts) =>
      if v.inc == [] {
        m := LocalMove(v, peer, act);
      } else if v.inc[0].kind.RetrReq? {
        m := RetrReqMove(v, peer, cts);
      } else {
        m := OtherMove(v, peer, cts);
      }
    case _ => m := LocalMove(v, peer, act);
  }

  /** Whatever an endpoint does keeps the invariant of its outgoing direction,
      as long as it answers requests cleanly. */
  lemma {:induction false} SenderStep<T>(v: View<T>, peer: Endpoint<Stamped<T>>, act: Action<T>)
    requires DirInv(Outgoing(v, peer)) && CleanAction(v, act)
    ensures DirInv(Outgoing(ActOn(v, act, Exact), peer))
  {
    var h := Outgoing(v, peer);
    assert Numbers(h) && |v.me.retr| <= MAX_QUEUE_SIZE;
    hide DirInv, Numbers, Moves, ActOn, CleanCut;
    var m := SenderMoves(v, peer, act);
    MoveKeeps(h, Outgoing(ActOn(v, act, Exact), peer), m);
  }
}
