/** What each event changes on one side of the connection, field by field. */
module SrEffects {
  import opened Words
  import opened SrEndpoint
  import opened SrWorld
  import opened SrInvariant
  import opened SrSafety
  import opened SrConservation
  import opened SrClosing

  /* ----- which packets are looked at ----- */

  /** n lies d numbers after m, modulo 2^32. */
  predicate Ahead(n: int, m: int, d: nat) {
    (n - m - d) % U32 == 0
  }

  lemma AheadIff(n: int, m: int, d: nat)
    requires d < U32
    ensures Ahead(n, m, d) <==> Diff32(n, m) == d
  {
    var r, q := (n - m) % U32, (n - m) / U32;
    assert n - m - d == q * U32 + (r - d);
    if Ahead(n, m, d) {
      assert r - d == U32 * ((n - m - d) / U32 - q);
    }
    if r == d {
      assert n - m - d == q * U32;
    }
  }

  /** A packet reaches its handler exactly if its number lies at most ten times
      N_SENDMAX ahead of the expected one, a response aside, and it confirms a
      number from the last confirmed one up to the last one sent. */
  lemma ChecksOutIff<M>(e: Endpoint<M>, p: Packet<M>)
    requires e.cfg.sendMax * 10 < U32
    ensures ChecksOut(e, p) <==>
              && e.attached
              && (p.kind.RetrResp? || exists d: nat :: d <= e.cfg.sendMax * 10 && Ahead(p.sn, e.snR, d))
              && (exists c: nat, t: nat :: c < t < U32 && Ahead(p.cs, e.csR, c) && Ahead(e.snT, e.csR, t))
  {
    var n, c, t := Diff32(p.sn, e.snR), Diff32(p.cs, e.csR), Diff32(e.snT, e.csR);
    AheadIff(p.sn, e.snR, n);
    AheadIff(p.cs, e.csR, c);
    AheadIff(e.snT, e.csR, t);
    forall d: nat | d < U32
      ensures Ahead(p.sn, e.snR, d) <==> n == d
      ensures Ahead(p.cs, e.csR, d) <==> c == d
      ensures Ahead(e.snT, e.csR, d) <==> t == d
    {
      AheadIff(p.sn, e.snR, d);
      AheadIff(p.cs, e.csR, d);
      AheadIff(e.snT, e.csR, d);
    }
    hide Ahead, Diff32;
  }

  /** Any other packet is taken off the link, and that is all. */
  lemma OthersAreIgnored<T>(w: World<T>, s: Side, cts: bool, a: Arith)
    requires Heard(w, s) != [] && !ChecksOut(Me(w, s), Heard(w, s)[0])
    ensures var w2 := Step(w, Act(s, Receiving(cts)), a);
            && Me(w2, s) == Me(w, s) && OutLink(w2, s) == OutLink(w, s) && Heard(w2, s) == Heard(w, s)[1..]
            && w2.fromA == w.fromA && w2.fromB == w.fromB
  {
    hide SnRangeValid, CsValid;
    var app := Me(w, s).app;
    assert app[|app|..] == [];
    assert OutLink(w, s) + [] == OutLink(w, s);
    assert w.fromA.handed + [] == w.fromA.handed && w.fromB.handed + [] == w.fromB.handed;
  }

  /* ----- what a packet that is looked at changes ----- */

  predicate InSequence<M>(e: Endpoint<M>, p: Packet<M>) {
    Diff32(p.sn, e.snR) == 0
  }

  /** The packet's messages go to the receive buffer. */
  predicate Accepts<M>(e: Endpoint<M>, p: Packet<M>, cts: bool) {
    && ChecksOut(e, p) && InSequence(e, p) && cts
    && ((p.kind.Data? && e.state.Up?) || (p.kind.RetrData? && e.state.Running?))
  }

  /** Everything sent so far counts as confirmed. */
  predicate ConfirmsAll<M>(e: Endpoint<M>, p: Packet<M>, cts: bool) {
    && ChecksOut(e, p)
    && (|| (p.kind.RetrResp? && e.state.WaitResp?)
        || (p.kind.Heartbeat? && InSequence(e, p) && cts && Flowing(e.state)))
  }

  /** The number of the packet becomes the last one received. */
  predicate TakesNumber<M>(e: Endpoint<M>, p: Packet<M>, cts: bool) {
    || Accepts(e, p, cts) || ConfirmsAll(e, p, cts)
    || (ChecksOut(e, p) && InSequence(e, p) && (p.kind.RetrReq? || (p.kind.Data? && e.state.Running? && cts)))
  }

  /** Numbers and queues after a packet, retransmission requests aside for what
      they send: only data in state UP and requests shorten the queue. */
  ghost predicate Effect<M>(e: Endpoint<M>, p: Packet<M>, cts: bool, e2: Endpoint<M>, a: Arith) {
    && e2.cfg == e.cfg && e2.send == e.send
    && e2.snR == (if TakesNumber(e, p, cts) then Norm(p.sn + 1, a) else e.snR)
    && e2.csT == (if TakesNumber(e, p, cts) then p.sn else e.csT)
    && e2.csR == (if Accepts(e, p, cts) || (ChecksOut(e, p) && p.kind.RetrReq?) then p.cs
                  else if ConfirmsAll(e, p, cts) then Norm(e.snT - 1, a)
                  else e.csR)
    && e2.app == (if Accepts(e, p, cts) then PushAll(e.app, p.msgs, e.cfg.sendMax) else e.app)
    && (!p.kind.RetrReq? || !ChecksOut(e, p) ==>
          e2.retr == if Accepts(e, p, cts) && p.kind.Data? then RemoveConfirmed(e.retr, p.cs) else e.retr)
  }

  lemma AnswerNumbers<M>(e: Endpoint<M>, p: Packet<M>, a: Arith)
    ensures var e2 := HandleRetrReq(e, p, a).e;
            && e2.csR == p.cs
            && e2.snR == (if SnInSeq(e, p) then Norm(p.sn + 1, a) else e.snR)
            && e2.csT == (if SnInSeq(e, p) then p.sn else e.csT)
  {
    hide SnInSeq, RetransmitAll, RemoveConfirmed;
    var o := Emit(ApplyRequest(e, p, a), RetrResp, [], a);
    ResendKeeps(o.(e := o.e.(retr := [])), o.e.retr, a);
  }

  lemma ReceiveEffect<M>(e: Endpoint<M>, p: Packet<M>, cts: bool, a: Arith)
    ensures Effect(e, p, cts, Receive(e, p, cts, a).e, a)
  {
    hide SnRangeValid, CsValid, Diff32, HandleRetrReq, PushAll, RemoveConfirmed;
    SameDistance(p.sn, e.snR);
    AnswerKeeps(e, p, a);
    AnswerNumbers(e, p, a);
    assert SnInSeq(e, p) <==> p.kind.RetrResp? || p.kind.DiscReq? || InSequence(e, p);
    hide SnInSeq, InSequence;
    if ChecksOut(e, p) {
      match p.kind
      case Heartbeat =>
      case Data =>
      case RetrReq =>
      case RetrResp =>
      case RetrData =>
      case DiscReq =>
    }
  }

  /** What a received packet does to the numbers and queues of a side. */
  lemma EffectOfPacket<T>(w: World<T>, s: Side, cts: bool, a: Arith)
    requires Heard(w, s) != []
    ensures Effect(Me(w, s), Heard(w, s)[0], cts, Me(Step(w, Act(s, Receiving(cts)), a), s), a)
  {
    ReceiveEffect(Me(w, s), Heard(w, s)[0], cts, a);
    hide Effect, Receive;
  }

  /* ----- the other threads ----- */

  /** What fits is kept in order, the rest is dropped. */
  lemma {:induction false} PushAllCuts<X>(q: seq<X>, xs: seq<X>, cap: nat)
    requires |q| <= cap
    ensures PushAll(q, xs, cap) == (q + xs)[..if |q| + |xs| <= cap then |q| + |xs| else cap]
    decreases |xs|
  {
    if xs == [] {
      assert q + xs == q;
    } else if |q| < cap {
      PushAllCuts(q + [xs[0]], xs[1..], cap);
      assert (q + [xs[0]]) + xs[1..] == q + xs;
    } else {
      PushAllCuts(q, xs[1..], cap);
      assert (q + xs[1..])[..cap] == (q + xs)[..cap];
    }
  }

  /** In state UP the messages of a call join the queue as far as there is room
      for 2 * maxPacket; a call with more than maxPacket of them is dropped. */
  lemma SubmitQueues<T>(w: World<T>, s: Side, bodies: seq<T>, a: Arith)
    requires Me(w, s).state.Up? && |Me(w, s).send| <= 2 * Me(w, s).cfg.maxPacket
    ensures var e, w2 := Me(w, s), Step(w, Act(s, Submitting(bodies)), a);
            var all := e.send + Stamp(bodies, |HalfOf(w, s).led.submitted|);
            var room := 2 * e.cfg.maxPacket;
            && OutLink(w2, s) == OutLink(w, s)
            && Me(w2, s) == if |bodies| > e.cfg.maxPacket then e
                            else e.(send := all[..if |all| <= room then |all| else room])
  {
    var e := Me(w, s);
    PushAllCuts(e.send, Stamp(bodies, |HalfOf(w, s).led.submitted|), 2 * e.cfg.maxPacket);
    hide PushAll, Stamp;
    assert OutLink(w, s) + [] == OutLink(w, s);
  }

  /** A pass of the send thread takes the oldest messages, at most maxPacket of
      them, into one packet under the next number, and remembers that packet if
      there is room; nothing is sent while more than maxPacket packets wait to be
      confirmed. */
  lemma SendTakes<T>(w: World<T>, s: Side, a: Arith)
    ensures var e, w2 := Me(w, s), Step(w, Act(s, Sending), a);
            if e.state.Closed? || |e.retr| > e.cfg.maxPacket || e.send == [] then
              Me(w2, s) == e && OutLink(w2, s) == OutLink(w, s)
            else
              var n := if |e.send| < e.cfg.maxPacket then |e.send| else e.cfg.maxPacket;
              var entries := e.retr + (if |e.retr| == MAX_QUEUE_SIZE then [] else [Entry(e.snT, e.send[..n])]);
              && Me(w2, s) == e.(send := e.send[n..], snT := Norm(e.snT + 1, a), retr := entries)
              && OutLink(w2, s) == OutLink(w, s)
                   + (if e.attached then [Packet(Data, e.snT, e.csT, e.send[..n])] else [])
  {
    assert Me(w, s).retr + [] == Me(w, s).retr;
    assert OutLink(w, s) + [] == OutLink(w, s);
  }

  /** A pass of the heartbeat thread before T_i has expired: a heartbeat with the
      next number if one is due, and nothing otherwise. */
  lemma BeatSends<T>(w: World<T>, s: Side, due: bool, a: Arith)
    requires !Me(w, s).state.Closed?
    ensures var e, w2 := Me(w, s), Step(w, Act(s, Beating(false, due)), a);
            && Me(w2, s) == (if due then e.(snT := Norm(e.snT + 1, a)) else e)
            && OutLink(w2, s) == OutLink(w, s)
                 + (if due && e.attached then [Packet(Heartbeat, e.snT, e.csT, [])] else [])
  {
  }

  /** The application's disconnection closes as an expired timer does. */
  lemma DisconnectCloses<T>(w: World<T>, s: Side, a: Arith)
    ensures var e, w2 := Me(w, s), Step(w, Act(s, Disconnecting), a);
            && Me(w2, s) == Shutting(e)
            && OutLink(w2, s) == OutLink(w, s)
                 + (if e.attached && !e.state.Closed? then [Packet(DiscReq, e.snT, e.csT, [])] else [])
  {
  }
}
