/** Every action of an endpoint is one of the receiver steps of SrReceiver. */
module SrReceiverSteps {
  import opened SrEndpoint
  import opened SrWorld
  import opened SrInvariant
  import opened SrReceiver
  import opened SrSenderSteps

  /** What an outcome that leaves the buffer alone means for the receiver:
      either all numbers stay or those of p are taken over. */
  ghost predicate PassiveOutcome<M>(e: Endpoint<M>, p: Packet<M>, o: Outcome<M>) {
    && o.up == [] && o.e.app == e.app
    && (|| (o.e.csT == e.csT && o.e.snR == e.snR)
        || (!p.kind.DiscReq? && o.e.csT == p.sn && o.e.snR == p.sn + 1))
    && (Flowing(o.e.state) ==> Flowing(e.state))
    && (forall i :: 0 <= i < |o.out| ==> !o.out[i].kind.RetrReq? && (o.out[i].cs == e.csT || o.out[i].cs == o.e.csT))
  }

  /** If a number is taken over without anything handed up, then that of a
      heartbeat or request, or of data in state Running. */
  ghost predicate QuietTaking<M>(e: Endpoint<M>, p: Packet<M>, o: Outcome<M>) {
    && (o.e.csT != e.csT ==>
          && TakesOver(e, p)
          && (p.kind.Heartbeat? || p.kind.RetrReq? || (p.kind.Data? && e.state.Running?)))
    && (o.e.state.Running? ==> e.state.Running?)
  }

  lemma RetrReqOutcome<M>(e: Endpoint<M>, p: Packet<M>)
    requires p.kind.RetrReq? && |e.retr| <= MAX_QUEUE_SIZE
    ensures PassiveOutcome(e, p, HandleRetrReq(e, p, Exact))
    ensures HandleRetrReq(e, p, Exact).e.csT != e.csT ==> SnInSeq(e, p)
    ensures HandleRetrReq(e, p, Exact).e.state.Running? ==> e.state.Running?
  {
    HandleRetrReqIs(e, p);
  }

  /** The three active cases, as the handlers take them. */
  predicate HandsUp<M>(e: Endpoint<M>, p: Packet<M>, cts: bool) {
    && e.attached && SnRangeValid(e, p) && CsValid(e, p) && SnInSeq(e, p) && cts
    && ((p.kind.Data? && e.state.Up?) || (p.kind.RetrData? && e.state.Running?))
  }

  /** The receive buffer takes all messages of p. */
  predicate HasRoom<M>(e: Endpoint<M>, p: Packet<M>) {
    |e.app| + |p.msgs| <= e.cfg.sendMax
  }

  lemma {:induction false} PushAllFits<X>(q: seq<X>, xs: seq<X>, cap: nat)
    requires |q| + |xs| <= cap
    ensures PushAll(q, xs, cap) == q + xs
    decreases |xs|
  {
    if xs != [] {
      PushAllFits(q + [xs[0]], xs[1..], cap);
      assert q + [xs[0]] + xs[1..] == q + xs;
    }
  }

  /** The number of p is taken over as the next in sequence. */
  predicate TakesOver<M>(e: Endpoint<M>, p: Packet<M>) {
    e.attached && SnRangeValid(e, p) && CsValid(e, p) && SnInSeq(e, p) && !p.kind.RetrResp? && !p.kind.DiscReq?
  }

  predicate Requests<M>(e: Endpoint<M>, p: Packet<M>) {
    && e.attached && SnRangeValid(e, p) && CsValid(e, p) && !SnInSeq(e, p)
    && ((p.kind.Data? && Flowing(e.state)) || (p.kind.RetrData? && e.state.Running?))
  }

  predicate Resumes<M>(e: Endpoint<M>, p: Packet<M>) {
    e.attached && CsValid(e, p) && p.kind.RetrResp? && e.state.WaitResp?
  }

  lemma ReceiveElse<M>(e: Endpoint<M>, p: Packet<M>, cts: bool)
    requires |e.retr| <= MAX_QUEUE_SIZE
    requires !HandsUp(e, p, cts) && !Requests(e, p) && !Resumes(e, p)
    ensures PassiveOutcome(e, p, Receive(e, p, cts, Exact)) && QuietTaking(e, p, Receive(e, p, cts, Exact))
  {
    hide SnRangeValid, CsValid, HandleRetrReq;
    if p.kind.RetrReq? {
      RetrReqOutcome(e, p);
    }
  }

  lemma ReceiveHandsUp<M>(e: Endpoint<M>, p: Packet<M>, cts: bool) returns (n: nat)
    requires HandsUp(e, p, cts)
    ensures var o := Receive(e, p, cts, Exact);
            && n <= |p.msgs| && o.e.app == e.app + p.msgs[..n] && o.up == p.msgs && o.out == []
            && (HasRoom(e, p) ==> n == |p.msgs|)
            && o.e.csT == p.sn && o.e.snR == p.sn + 1 && Flowing(o.e.state)
  {
    n := PushAllIs(e.app, p.msgs, e.cfg.sendMax);
    if HasRoom(e, p) {
      PushAllFits(e.app, p.msgs, e.cfg.sendMax);
      assert |e.app + p.msgs[..n]| == |e.app + p.msgs|;
    }
    assert [] + p.msgs == p.msgs;
  }

  lemma ReceiveRequests<M>(e: Endpoint<M>, p: Packet<M>, cts: bool)
    requires Requests(e, p)
    ensures var o := Receive(e, p, cts, Exact);
            && o.out == [Packet(RetrReq, e.snT, e.csT, [])] && o.up == [] && o.e.app == e.app
            && o.e.csT == e.csT && o.e.snR == e.snR && o.e.state.WaitResp?
  {
  }

  /** What the view alone says of a reception. */
  ghost predicate Accounts<T>(v: View<T>, v2: View<T>, act: Action<T>, r: Reception<T>) {
    && (v2.me.state.Running? ==> v.me.state.Running? || r.Resuming?)
    && (r.HandingUp? ==>
          && act.Receiving? && v.inc != [] && HandsUp(v.me, v.inc[0], act.ctsInSeq)
          && (HasRoom(v.me, v.inc[0]) ==> r.n == |v.inc[0].msgs|))
    && (r.Passing? && v2.me.csT != v.me.csT ==>
          && act.Receiving? && v.inc != [] && TakesOver(v.me, v.inc[0]) && v2.me.csT == v.inc[0].sn
          && (v.inc[0].kind.Heartbeat? || v.inc[0].kind.RetrReq? || (v.inc[0].kind.Data? && v.me.state.Running?)))
  }

  lemma HandingUpMove<T>(v: View<T>, peer: Endpoint<Stamped<T>>, cts: bool) returns (r: Reception<T>)
    requires v.inc != [] && HandsUp(v.me, v.inc[0], cts)
    ensures var v2 := ActOn(v, Receiving(cts), Exact);
            Receives(Incoming(v, peer), Incoming(v2, peer), r) && Accounts(v, v2, Receiving(cts), r)
  {
    var p := v.inc[0];
    var n := ReceiveHandsUp(v.me, p, cts);
    var o := Receive(v.me, p, cts, Exact);
    hide Receive;
    assert o.e.app[|v.me.app|..] == p.msgs[..n];
    assert v.out + [] == v.out;
    r := HandingUp(n);
  }

  lemma RequestingMove<T>(v: View<T>, peer: Endpoint<Stamped<T>>, cts: bool) returns (r: Reception<T>)
    requires v.inc != [] && Requests(v.me, v.inc[0])
    ensures var v2 := ActOn(v, Receiving(cts), Exact);
            Receives(Incoming(v, peer), Incoming(v2, peer), r) && Accounts(v, v2, Receiving(cts), r)
  {
    ReceiveRequests(v.me, v.inc[0], cts);
    hide Receive;
    assert v.theirs.handed + [] == v.theirs.handed;
    r := Requesting(v.me.snT);
  }

  lemma ResumingMove<T>(v: View<T>, peer: Endpoint<Stamped<T>>, cts: bool) returns (r: Reception<T>)
    requires v.inc != [] && Resumes(v.me, v.inc[0])
    ensures var v2 := ActOn(v, Receiving(cts), Exact);
            Receives(Incoming(v, peer), Incoming(v2, peer), r) && Accounts(v, v2, Receiving(cts), r)
  {
    assert v.theirs.handed + [] == v.theirs.handed && v.out + [] == v.out;
    r := Resuming;
  }

  lemma PassingMove<T>(v: View<T>, peer: Endpoint<Stamped<T>>, cts: bool) returns (r: Reception<T>)
    requires Numbers(Incoming(v, peer)) && v.inc != [] && |v.me.retr| <= MAX_QUEUE_SIZE
    requires !HandsUp(v.me, v.inc[0], cts) && !Requests(v.me, v.inc[0]) && !Resumes(v.me, v.inc[0])
    ensures var v2 := ActOn(v, Receiving(cts), Exact);
            Receives(Incoming(v, peer), Incoming(v2, peer), r) && Accounts(v, v2, Receiving(cts), r)
  {
    ReceiveElse(v.me, v.inc[0], cts);
    assert v.inc[0].kind.DiscReq? || v.me.csT < v.inc[0].sn;
    hide Receive, SnInSeq, SnRangeValid, CsValid, TakesOver, HandsUp, Requests, Resumes, Numbers;
    assert v.theirs.handed + [] == v.theirs.handed;
    r := Passing(Receive(v.me, v.inc[0], cts, Exact).out);
  }

  lemma ReceivingMoves<T>(v: View<T>, peer: Endpoint<Stamped<T>>, cts: bool) returns (r: Reception<T>)
    requires Numbers(Incoming(v, peer)) && v.inc != [] && |v.me.retr| <= MAX_QUEUE_SIZE
    ensures var v2 := ActOn(v, Receiving(cts), Exact);
            Receives(Incoming(v, peer), Incoming(v2, peer), r) && Accounts(v, v2, Receiving(cts), r)
  {
    var p := v.inc[0];
    hide Numbers, Receives, Accounts, ActOn, HandsUp, Requests, Resumes;
    if HandsUp(v.me, p, cts) {
      r := HandingUpMove(v, peer, cts);
    } else if Requests(v.me, p) {
      r := RequestingMove(v, peer, cts);
    } else if Resumes(v.me, p) {
      r := ResumingMove(v, peer, cts);
    } else {
      r := PassingMove(v, peer, cts);
    }
  }

  /** Sending and heartbeats leave what was received alone. */
  ghost predicate Unmoved<M>(e: Endpoint<M>, o: Outcome<M>) {
    && o.up == [] && o.e.app == e.app && o.e.csT == e.csT && o.e.snR == e.snR
    && (Flowing(o.e.state) ==> o.e.state == e.state)
    && forall i :: 0 <= i < |o.out| ==> !o.out[i].kind.RetrReq? && o.out[i].cs == e.csT
  }

  lemma BatchOutcome<M>(e: Endpoint<M>)
    ensures Unmoved(e, SendStep(e, Exact))
  {
  }

  lemma BeatOutcome<M>(e: Endpoint<M>, expired: bool, due: bool)
    ensures Unmoved(e, HeartbeatStep(e, expired, due, Exact))
  {
  }

  lemma LocalOutcome<T>(v: View<T>, act: Action<T>)
    requires act.Receiving? ==> v.inc == []
    ensures var o := Performed(v, act, Exact);
            && o.up == [] && |o.e.app| <= |v.me.app| && (o.e.app == v.me.app || act.Fetching?)
            && o.e.csT == v.me.csT && o.e.snR == v.me.snR
            && (Flowing(o.e.state) ==> o.e.state == v.me.state)
            && forall i :: 0 <= i < |o.out| ==> !o.out[i].kind.RetrReq? && o.out[i].cs == v.me.csT
  {
    hide Receive, PushAll, Stamp, SendStep, HeartbeatStep;
    match act
    case Sending => BatchOutcome(v.me);
    case Beating(expired, due) => BeatOutcome(v.me, expired, due);
    case _ =>
  }

  /** Actions other than receiving touch neither the numbers received nor the buffer. */
  lemma LocalReception<T>(v: View<T>, peer: Endpoint<Stamped<T>>, act: Action<T>) returns (r: Reception<T>)
    requires Numbers(Incoming(v, peer)) && (act.Receiving? ==> v.inc == [])
    ensures var v2 := ActOn(v, act, Exact);
            Receives(Incoming(v, peer), Incoming(v2, peer), r) && Accounts(v, v2, act, r)
  {
    LocalOutcome(v, act);
    hide Performed, Numbers, TakesOver, HandsUp;
    assert v.theirs.handed + [] == v.theirs.handed;
    r := Passing(Performed(v, act, Exact).out);
  }

  /** Whatever an endpoint does is one of the receiver's steps. */
  lemma ReceiverMoves<T>(v: View<T>, peer: Endpoint<Stamped<T>>, act: Action<T>) returns (r: Reception<T>)
    requires Numbers(Incoming(v, peer)) && |v.me.retr| <= MAX_QUEUE_SIZE
    ensures var v2 := ActOn(v, act, Exact);
            Receives(Incoming(v, peer), Incoming(v2, peer), r) && Accounts(v, v2, act, r)
  {
    hide Numbers, Receives, Accounts, ActOn;
    if act.Receiving? && v.inc != [] {
      r := ReceivingMoves(v, peer, act.ctsInSeq);
    } else {
      r := LocalReception(v, peer, act);
    }
  }

  /** Whatever an endpoint does keeps the invariant of its incoming direction. */
  lemma ReceiverStep<T>(v: View<T>, peer: Endpoint<Stamped<T>>, act: Action<T>)
    requires DirInv(Incoming(v, peer)) && |v.me.retr| <= MAX_QUEUE_SIZE
    ensures DirInv(Incoming(ActOn(v, act, Exact), peer))
  {
    assert Numbers(Incoming(v, peer));
    hide DirInv, Numbers, Receives, Accounts, ActOn;
    var r := ReceiverMoves(v, peer, act);
    ReceptionKeeps(Incoming(v, peer), Incoming(ActOn(v, act, Exact), peer), r);
  }
}
