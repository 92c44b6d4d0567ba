/** The guard of the end-to-end result is exact: an answer that is not clean
    resends a message that the peer has already passed to its receive buffer. */
module SrCleanAnswers {
  import opened SrEndpoint
  import opened SrWorld
  import opened SrInvariant
  import opened SrSender
  import opened SrSenderSteps
  import opened SrReceiver
  import opened SrReceiverSteps
  import opened SrSafety
  import opened SrConservation

  /** A queue entry at or below the number last taken has been passed on. */
  ghost predicate Passed<T>(h: Half<T>) {
    forall k :: 0 <= k < |h.x.retr| && h.x.retr[k].sn <= h.y.csT ==> Below(h.x.retr[k].msgs, h.led.top)
  }

  ghost predicate NoneEmpty<T>(h: Half<T>) {
    forall k :: 0 <= k < |h.x.retr| ==> h.x.retr[k].msgs != []
  }

  /* ----- the sender ----- */

  lemma MovePassed<T>(h: Half<T>, h2: Half<T>, m: Move<T>)
    requires Numbers(h) && Moves(h, h2, m) && Passed(h) && NoneEmpty(h) && (m.Batching? ==> m.n > 0)
    ensures Passed(h2) && NoneEmpty(h2)
  {
  }

  /* ----- the receiver ----- */

  lemma TakePassed<T>(h: Half<T>, h2: Half<T>)
    requires Matched(h) && h2.x == h.x && h2.led == h.led && Passed(h)
    requires h2.y.csT == h.y.csT
          || (h.link != [] && h.link[0].sn == h2.y.csT == h.y.csT + 1
             && (h.link[0].kind.Heartbeat? || h.link[0].kind.RetrReq?))
    ensures Passed(h2)
  {
  }

  lemma HandUpPassed<T>(h: Half<T>, h2: Half<T>, n: nat)
    requires Matched(h) && HandUpStep(h, h2, n) && h.link[0].sn == h.y.csT + 1 && !h.link[0].kind.DiscReq?
    requires Passed(h) && InOrder(h.link, h.x, h.led.top)
    ensures Passed(h2)
  {
    TopMoves(h.link[0].msgs, [], h.led.top);
  }

  lemma ResumePassed<T>(h: Half<T>, h2: Half<T>)
    requires AnswerAhead(h) && ResumeStep(h, h2)
    ensures Passed(h2)
  {
  }

  lemma ReceptionPassed<T>(v: View<T>, peer: Endpoint<Stamped<T>>, act: Action<T>, r: Reception<T>)
    requires var v2 := ActOn(v, act, Exact);
             Receives(Incoming(v, peer), Incoming(v2, peer), r) && Accounts(v, v2, act, r)
    requires Orderly(Incoming(v, peer)) && DirInv(Incoming(v, peer)) && Passed(Incoming(v, peer))
    requires TrueAction(v, act)
    ensures Passed(Incoming(ActOn(v, act, Exact), peer))
  {
    var h, h2 := Incoming(v, peer), Incoming(ActOn(v, act, Exact), peer);
    assert Matched(h) && AnswerAhead(h) && h.y.snR == h.y.csT + 1;
    hide Matched, AnswerAhead, ActOn, Passed, SnInSeq, SnRangeValid, CsValid;
    match r
    case Passing(os) =>
      if h2.y.csT != h.y.csT && v.me.state.Running? {
        NextInRetransmission(h);
      }
      TakePassed(h, h2);
    case HandingUp(n) => HandUpPassed(h, h2, n);
    case Requesting(sn) => TakePassed(h, h2);
    case Resuming => ResumePassed(h, h2);
  }

  /* ----- runs ----- */

  lemma ActPassed<T>(v: View<T>, peer: Endpoint<Stamped<T>>, act: Action<T>)
    requires DirInv(Incoming(v, peer)) && Orderly(Outgoing(v, peer)) && Orderly(Incoming(v, peer))
    requires Passed(Outgoing(v, peer)) && NoneEmpty(Outgoing(v, peer)) && Passed(Incoming(v, peer))
    requires TrueAction(v, act) && v.me.cfg.maxPacket > 0
    ensures var v2 := ActOn(v, act, Exact);
            Passed(Outgoing(v2, peer)) && NoneEmpty(Outgoing(v2, peer)) && Passed(Incoming(v2, peer))
  {
    hide Orderly, DirInv, ActOn, Moves, Receives, Accounts, Numbers, Passed, NoneEmpty;
    NumbersOf(Outgoing(v, peer));
    NumbersOf(Incoming(v, peer));
    var m := SenderMoves(v, peer, act);
    MovePassed(Outgoing(v, peer), Outgoing(ActOn(v, act, Exact), peer), m);
    var r := ReceiverMoves(v, peer, act);
    ReceptionPassed(v, peer, act, r);
  }

  ghost predicate Settled<T>(w: World<T>) {
    && Inv(w) && BothOrderly(w)
    && Passed(HalfOf(w, A)) && NoneEmpty(HalfOf(w, A)) && w.a.cfg.maxPacket > 0
    && Passed(HalfOf(w, B)) && NoneEmpty(HalfOf(w, B)) && w.b.cfg.maxPacket > 0
  }

  lemma LossPassed<T>(w: World<T>, s: Side, i: nat)
    requires Settled(w)
    ensures var w2 := Step(w, Loss(s, i), Exact);
            Passed(HalfOf(w2, A)) && NoneEmpty(HalfOf(w2, A)) && Passed(HalfOf(w2, B)) && NoneEmpty(HalfOf(w2, B))
  {
    hide Orderly, DirInv;
  }

  lemma ActSettled<T>(w: World<T>, s: Side, act: Action<T>)
    requires Settled(w) && TrueStep(w, Act(s, act))
    ensures var w2 := Step(w, Act(s, act), Exact);
            Passed(HalfOf(w2, A)) && NoneEmpty(HalfOf(w2, A)) && Passed(HalfOf(w2, B)) && NoneEmpty(HalfOf(w2, B))
  {
    hide Orderly, DirInv, ActOn, Passed, TrueAction;
    assert forall h: Half<T>, h2: Half<T> :: h2.x == h.x && NoneEmpty(h) ==> NoneEmpty(h2);
    ActPassed(ViewOf(w, s), if s.A? then w.b else w.a, act);
  }

  lemma StepSettled<T>(w: World<T>, ev: Event<T>)
    requires Settled(w) && CleanStep(w, ev) && TrueStep(w, ev)
    ensures Settled(Step(w, ev, Exact))
  {
    hide Inv, BothOrderly, Passed, NoneEmpty, Step, HalfOf, CleanStep, TrueStep;
    StepKeeps(w, ev);
    StepOrderly(w, ev);
    ConfigStays(w, ev, A);
    ConfigStays(w, ev, B);
    match ev
    case Loss(s, i) => LossPassed(w, s, i);
    case Act(s, act) => ActSettled(w, s, act);
  }

  lemma {:induction false} RunSettled<T>(w: World<T>, evs: seq<Event<T>>)
    requires Settled(w) && RunClean(w, evs) && RunTrue(w, evs)
    ensures Settled(Run(w, evs, Exact))
    decreases |evs|
  {
    hide Step, CleanStep, TrueStep, Settled;
    if evs != [] {
      var init := evs[..|evs| - 1];
      assert forall k :: 0 <= k < |init| ==> init[..k] == evs[..k];
      assert evs[..|init|] == init;
      RunSettled(w, init);
      StepSettled(Run(w, init, Exact), evs[|evs| - 1]);
    }
  }

  /* ----- the guard is exact ----- */

  /** Of what s would resend next, nothing has been passed to the peer's receive
      buffer. */
  ghost predicate ResendsUnseen<T>(w: World<T>, s: Side) {
    AllNew(HalfOf(w, s).x.retr, HalfOf(w, s).led.top)
  }

  /** The action takes a request and answers it; in state RETRRUN a request in
      sequence closes the connection instead. */
  predicate AnswersNow<T>(v: View<T>, act: Action<T>) {
    && act.Receiving? && v.inc != [] && Answers(v.me, v.inc[0])
    && !(SnInSeq(v.me, v.inc[0]) && v.me.state.Running?)
  }

  lemma TrimsAt<T>(h: Half<T>, k: nat, i: nat)
    requires Trims(h, k) && Found(h.x.retr, h.back[0].cs) < i < |h.x.retr|
    ensures k <= i
  {
    hide Found;
    var q, c := h.x.retr, h.back[0].cs;
    RemoveConfirmedIs(q, c);
    assert |q[k..]| == |q[Found(q, c) + 1..]|;
  }

  lemma UncleanResendsSeen<T>(h: Half<T>, h2: Half<T>, k: nat, cs: int)
    requires Numbers(h) && Passed(h) && NoneEmpty(h) && RespondStep(h, h2, k, cs) && Trims(h, k)
    requires !CleanCut(h.x.retr, h.back[0].cs)
    ensures !AllNew(h2.x.retr, h2.led.top)
  {
    hide Found, Trims;
    var q := h.x.retr;
    var i :| Found(q, h.back[0].cs) < i < |q| && q[i].sn <= h.back[0].cs;
    TrimsAt(h, k, i);
    assert Below(q[i].msgs, h.led.top) && q[i].msgs != [];
    hide Numbers, Passed, NoneEmpty;
    assert h2.x.retr[i - k].msgs == q[i].msgs;
    assert q[i].msgs[0].rank < h.led.top;
  }

  lemma AnswerStep<T>(v: View<T>, peer: Endpoint<Stamped<T>>, act: Action<T>) returns (k: nat, cs: int)
    requires Numbers(Outgoing(v, peer)) && |v.me.retr| <= MAX_QUEUE_SIZE && AnswersNow(v, act)
    ensures var h2 := Outgoing(ActOn(v, act, Exact), peer);
            && RespondStep(Outgoing(v, peer), h2, k, cs) && Trims(Outgoing(v, peer), k)
            && |v.out| < |h2.link| && h2.link[|v.out|].kind.RetrResp?
  {
    hide Numbers, ActOn, HandleRetrReq, RespondStep, Trims, SnRangeValid, CsValid, SnInSeq;
    var h2 := Outgoing(ActOn(v, act, Exact), peer);
    OutgoingAfter(v, peer, act.ctsInSeq);
    HandleRetrReqIs(v.me, v.inc[0]);
    cs := if SnInSeq(v.me, v.inc[0]) then v.inc[0].sn else v.me.csT;
    k := AnswerIsRespond(v, peer, h2);
    hide Renumbered, Resent, RemoveConfirmed;
  }

  lemma AnnouncedIsNew<T>(h: Half<T>, j: nat)
    requires Fresh(h) && j < |h.link| && h.link[j].kind.RetrResp?
    ensures AllNew(h.x.retr, h.led.top)
  {
  }

  /** Answering a request keeps the joint invariant exactly when the answer is
      clean, and exactly then nothing that is resent has been passed on before. */
  lemma AnswerKeepsIff<T>(w: World<T>, s: Side, act: Action<T>)
    requires Settled(w) && AnswersNow(ViewOf(w, s), act)
    ensures var w2 := Step(w, Act(s, act), Exact);
            && (CleanStep(w, Act(s, act)) <==> ResendsUnseen(w2, s))
            && (CleanStep(w, Act(s, act)) <==> Inv(w2))
  {
    var v, peer := ViewOf(w, s), if s.A? then w.b else w.a;
    var w2 := Step(w, Act(s, act), Exact);
    var h, h2 := Outgoing(v, peer), Outgoing(ActOn(v, act, Exact), peer);
    assert h == HalfOf(w, s) && h2.x == HalfOf(w2, s).x && h2.led == HalfOf(w2, s).led;
    NumbersOf(h);
    hide ActOn, Orderly, Passed, NoneEmpty, CleanCut, Answers;
    var k, cs := AnswerStep(v, peer, act);
    if CleanStep(w, Act(s, act)) {
      StepKeeps(w, Act(s, act));
    } else {
      UncleanResendsSeen(h, h2, k, cs);
    }
    if Inv(w2) {
      AnnouncedIsNew(HalfOf(w2, s), |v.out|);
    }
  }

  lemma EstablishedSettled<T>(client: Config, server: Config, x: int, y: int)
    requires client.maxPacket > 0 && server.maxPacket > 0
    ensures Settled<T>(Established(client, server, x, y, Exact))
  {
    EstablishedInv<T>(client, server, x, y);
    EstablishedOrderly<T>(client, server, x, y);
    hide Inv, BothOrderly;
  }

  /** After any run that answered its requests cleanly, the next answer resends
      nothing already passed to the peer's receive buffer if and only if it is
      clean too. */
  lemma CleanAnswerIff<T>(client: Config, server: Config, x: int, y: int, evs: seq<Event<T>>, s: Side, act: Action<T>)
    requires client.maxPacket > 0 && server.maxPacket > 0
    requires RunClean(Established(client, server, x, y, Exact), evs)
    requires RunTrue(Established(client, server, x, y, Exact), evs)
    requires AnswersNow(ViewOf(Run(Established(client, server, x, y, Exact), evs, Exact), s), act)
    ensures var w := Run(Established<T>(client, server, x, y, Exact), evs, Exact);
            CleanStep(w, Act(s, act)) <==> ResendsUnseen(Step(w, Act(s, act), Exact), s)
  {
    hide Run, Settled, AnswersNow, CleanStep, ResendsUnseen, RunClean, RunTrue;
    EstablishedSettled<T>(client, server, x, y);
    RunSettled(Established<T>(client, server, x, y, Exact), evs);
    AnswerKeepsIff(Run(Established<T>(client, server, x, y, Exact), evs, Exact), s, act);
  }
}
