/** When a connection changes its state, and what a closed side still does. */
module SrClosing {
  import opened Words
  import opened SrEndpoint
  import opened SrWorld
  import opened SrInvariant
  import opened SrSenderSteps
  import opened SrSafety
  import opened SrConservation
  import opened SrReading

  function Heard<T>(w: World<T>, s: Side): seq<Packet<Stamped<T>>> {
    ViewOf(w, s).inc
  }

  function OutLink<T>(w: World<T>, s: Side): seq<Packet<Stamped<T>>> {
    HalfOf(w, s).link
  }

  /** The packet reaches a handler. */
  predicate ChecksOut<M>(e: Endpoint<M>, p: Packet<M>) {
    e.attached && SnRangeValid(e, p) && CsValid(e, p)
  }

  /** The packet is in sequence and its time stamp is looked at. */
  predicate TimeMatters<M>(e: Endpoint<M>, p: Packet<M>) {
    && Diff32(p.sn, e.snR) == 0
    && (|| ((p.kind.Heartbeat? || p.kind.Data?) && (e.state.Up? || e.state.Running?))
        || (p.kind.RetrData? && e.state.Running?))
  }

  predicate Shut<M>(e: Endpoint<M>) {
    e.state.Closed? && !e.attached
  }

  function Shutting<M>(e: Endpoint<M>): Endpoint<M> {
    e.(state := Closed, attached := false)
  }

  lemma SameDistance(m: int, n: int)
    ensures Diff32(m, n) == 0 <==> Diff32(n, m) == 0
  {
    if (m - n) % U32 == 0 {
      assert n - m == U32 * -((m - n) / U32);
    }
    if (n - m) % U32 == 0 {
      assert m - n == U32 * -((n - m) / U32);
    }
  }

  /* ----- the ways to close ----- */

  /** A packet whose time stamp is out of sequence closes the connection: nothing
      is taken over or handed up, and a disconnection request leaves. */
  lemma LatePacketCloses<T>(w: World<T>, s: Side, a: Arith)
    requires Heard(w, s) != [] && ChecksOut(Me(w, s), Heard(w, s)[0]) && TimeMatters(Me(w, s), Heard(w, s)[0])
    ensures var e, w2 := Me(w, s), Step(w, Act(s, Receiving(false)), a);
            && Me(w2, s) == Shutting(e)
            && OutLink(w2, s) == OutLink(w, s) + [Packet(DiscReq, e.snT, e.csT, [])]
            && HalfOf(w2, Peer(s)).led == HalfOf(w, Peer(s)).led
  {
    var e, p := Me(w, s), Heard(w, s)[0];
    SameDistance(p.sn, e.snR);
    hide SnRangeValid, CsValid, Diff32;
    assert e.app[|e.app|..] == [];
  }

  /** A disconnection request closes the connection, and nothing is answered. */
  lemma RequestCloses<T>(w: World<T>, s: Side, cts: bool, a: Arith)
    requires Heard(w, s) != [] && ChecksOut(Me(w, s), Heard(w, s)[0]) && Heard(w, s)[0].kind.DiscReq?
    ensures var w2 := Step(w, Act(s, Receiving(cts)), a);
            && Me(w2, s) == Shutting(Me(w, s)) && OutLink(w2, s) == OutLink(w, s)
            && HalfOf(w2, Peer(s)).led == HalfOf(w, Peer(s)).led
  {
    var e := Me(w, s);
    hide SnRangeValid, CsValid;
    assert e.app[|e.app|..] == [];
    assert OutLink(w, s) + [] == OutLink(w, s);
  }

  /** When T_i has expired the connection is closed; a heartbeat then due uses
      up a number but no longer leaves. */
  lemma TimerCloses<T>(w: World<T>, s: Side, due: bool, a: Arith)
    requires !Me(w, s).state.Closed?
    ensures var e, w2 := Me(w, s), Step(w, Act(s, Beating(true, due)), a);
            && Me(w2, s) == Shutting(e).(snT := if due then Norm(e.snT + 1, a) else e.snT)
            && OutLink(w2, s) == OutLink(w, s) + (if e.attached then [Packet(DiscReq, e.snT, e.csT, [])] else [])
            && HalfOf(w2, Peer(s)).led == HalfOf(w, Peer(s)).led
  {
    var e := Me(w, s);
    assert e.app[|e.app|..] == [];
  }

  /** The service refuses messages during a retransmission: the connection is
      closed with a disconnection request, none of them is queued. */
  lemma RefusalCloses<T>(w: World<T>, s: Side, bodies: seq<T>, a: Arith)
    requires Me(w, s).state.WaitResp? || Me(w, s).state.Running?
    ensures var e, w2 := Me(w, s), Step(w, Act(s, Submitting(bodies)), a);
            && Me(w2, s) == e.(state := Closed)
            && OutLink(w2, s) == OutLink(w, s) + (if e.attached then [Packet(DiscReq, e.snT, e.csT, [])] else [])
  {
  }

  /* ----- the states a packet leads to ----- */

  /** What the handling of p on e says of the state: each change exactly when. */
  ghost predicate Transitions<M>(e: Endpoint<M>, p: Packet<M>, cts: bool, s2: State) {
    var next := Diff32(p.sn, e.snR) == 0;
    var flowing := e.state.Up? || e.state.Running?;
    && (s2.Closed? <==>
          || (e.state.Closed? && !(p.kind.RetrReq? && ChecksOut(e, p) && !next))
          || (ChecksOut(e, p) &&
              (|| p.kind.DiscReq?
               || (p.kind.RetrResp? && !e.state.WaitResp?)
               || (p.kind.RetrData? && e.state.Up?)
               || (p.kind.RetrReq? && e.state.Running? && next)
               || (TimeMatters(e, p) && !cts))))
    && (s2.Running? && !e.state.Running? <==> ChecksOut(e, p) && p.kind.RetrResp? && e.state.WaitResp?)
    && (s2.Up? && !e.state.Up? <==> ChecksOut(e, p) && p.kind.Heartbeat? && next && e.state.Running? && cts)
    && (s2.WaitResp? && !e.state.WaitResp? <==>
          ChecksOut(e, p) && !next &&
          (|| (p.kind.RetrReq? && !e.state.WaitResp?)
           || ((p.kind.Data? || p.kind.Heartbeat?) && flowing)
           || (p.kind.RetrData? && e.state.Running?)))
  }

  lemma ReceiveTransitions<M>(e: Endpoint<M>, p: Packet<M>, cts: bool, a: Arith)
    ensures Transitions(e, p, cts, Receive(e, p, cts, a).e.state)
  {
    hide SnRangeValid, CsValid, Diff32, HandleRetrReq, PushAll, RemoveConfirmed;
    SameDistance(p.sn, e.snR);
    AnswerKeeps(e, p, a);
    assert SnInSeq(e, p) <==> p.kind.RetrResp? || p.kind.DiscReq? || Diff32(p.sn, e.snR) == 0;
    hide SnInSeq;
    if ChecksOut(e, p) {
      match p.kind
      case Heartbeat =>
      case Data =>
      case RetrReq =>
      case RetrResp =>
      case RetrData =>
      case DiscReq =>
    }
  }

  /** Each change of state by a received packet, exactly when it happens. */
  lemma TransitionsIff<T>(w: World<T>, s: Side, cts: bool, a: Arith)
    requires Heard(w, s) != []
    ensures Transitions(Me(w, s), Heard(w, s)[0], cts, Me(Step(w, Act(s, Receiving(cts)), a), s).state)
  {
    ReceiveTransitions(Me(w, s), Heard(w, s)[0], cts, a);
    hide Transitions, Receive;
  }

  /** A retransmission is requested exactly for data ahead of sequence; a
      heartbeat ahead of sequence makes the side wait without a request. */
  lemma RequestsIff<M>(e: Endpoint<M>, p: Packet<M>, cts: bool)
    requires |e.retr| <= MAX_QUEUE_SIZE
    ensures var o := Receive(e, p, cts, Exact);
            (exists i :: 0 <= i < |o.out| && o.out[i].kind.RetrReq?) <==>
              && ChecksOut(e, p) && Diff32(p.sn, e.snR) != 0
              && ((p.kind.Data? && (e.state.Up? || e.state.Running?)) || (p.kind.RetrData? && e.state.Running?))
  {
    hide SnRangeValid, CsValid, Diff32, HandleRetrReq, PushAll, RemoveConfirmed;
    SameDistance(p.sn, e.snR);
    HandleRetrReqIs(e, p);
    var o := Receive(e, p, cts, Exact);
    if ChecksOut(e, p) && p.kind.RetrReq? {
      forall i | 0 <= i < |o.out| ensures !o.out[i].kind.RetrReq? {
      }
    } else if ChecksOut(e, p) && !SnInSeq(e, p) && o.out != [] {
      assert o.out[0].kind.RetrReq? || o.out[0].kind.DiscReq?;
    }
  }

  /* ----- after the close ----- */

  lemma ShutActs<T>(v: View<T>, act: Action<T>, a: Arith)
    requires Shut(v.me)
    ensures var v2 := ActOn(v, act, a);
            && v2.me == v.me.(app := v2.me.app) && v2.out == v.out && v2.theirs == v.theirs
  {
    hide Stamp;
    assert v.out + [] == v.out && v.theirs.handed + [] == v.theirs.handed;
    assert v.me.app[|v.me.app|..] == [];
  }

  lemma ShutStep<T>(w: World<T>, ev: Event<T>, s: Side, a: Arith)
    requires Shut(Me(w, s))
    ensures var w2 := Step(w, ev, a);
            && Me(w2, s) == Me(w, s).(app := Me(w2, s).app)
            && SentIn(w, ev, s, a) == [] && HalfOf(w2, Peer(s)).led.handed == HalfOf(w, Peer(s)).led.handed
  {
    if ev.Act? && ev.side == s {
      ShutActs(ViewOf(w, s), ev.action, a);
    }
    hide ActOn;
  }

  /** Whatever follows, a side that is closed and has lost its channel sends
      nothing, hands nothing up and stays as it is; only its buffer is read. */
  lemma {:induction false} ShutForGood<T>(w: World<T>, evs: seq<Event<T>>, s: Side, a: Arith)
    requires Shut(Me(w, s))
    ensures var w2 := Run(w, evs, a);
            && Me(w2, s) == Me(w, s).(app := Me(w2, s).app)
            && Sent(w, evs, s, a) == [] && HalfOf(w2, Peer(s)).led.handed == HalfOf(w, Peer(s)).led.handed
    decreases |evs|
  {
    if evs != [] {
      hide Step, SentIn, HalfOf, Me;
      ShutForGood(w, evs[..|evs| - 1], s, a);
      ShutStep(Run(w, evs[..|evs| - 1], a), evs[|evs| - 1], s, a);
    }
  }
}
