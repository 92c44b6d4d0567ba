/** Each guard of SrConservation is needed: runs that lose a message for good. */
module SrLosses {
  import opened Words
  import opened SrEndpoint
  import opened SrWorld
  import opened SrInvariant
  import opened SrLimits
  import opened SrReceiverSteps
  import opened SrConservation
  import SrAliasing

  /** m was accepted from a, is held nowhere and is not under way. */
  ghost predicate LostBy(w0: World<int>, evs: seq<Event<int>>, m: Stamped<int>) {
    var w := Run(w0, evs, Exact);
    m in Accepted(w0, evs, A) && !Held(HalfOf(w, A), m) && w.ab == []
  }

  lemma {:induction false} AcceptedStays(w: World<int>, evs: seq<Event<int>>, more: seq<Event<int>>, m: Stamped<int>)
    requires m in Accepted(w, evs, A)
    ensures m in Accepted(w, evs + more, A)
    decreases |more|
  {
    if more == [] {
      assert evs + more == evs;
    } else {
      AcceptedStays(w, evs, more[..|more| - 1], m);
      assert (evs + more)[..|evs + more| - 1] == evs + more[..|more| - 1];
    }
  }

  lemma SubmitAccepts(w: World<int>, text: int)
    requires w.a.cfg.maxPacket >= 1 && w.a.state.Up? && w.a.send == []
    ensures AcceptedIn(w, Act(A, Submitting([text])), A) == [Stamped(|w.fromA.submitted|, text)]
  {
    var m := Stamped(|w.fromA.submitted|, text);
    SubmitStep(w, text);
    assert [m][0..] == [m];
  }

  /** The message submitted after evs is accepted, whatever comes next. */
  lemma AcceptedAfter(w0: World<int>, evs: seq<Event<int>>, text: int, more: seq<Event<int>>)
    requires var w := Run(w0, evs, Exact);
             w.a.cfg.maxPacket >= 1 && w.a.state.Up? && w.a.send == []
    ensures Stamped(|Run(w0, evs, Exact).fromA.submitted|, text) in Accepted(w0, evs + SubmitAndSend(text) + more, A)
  {
    hide AcceptedIn, Step, Run;
    var w := Run(w0, evs, Exact);
    var m := Stamped(|w.fromA.submitted|, text);
    var e := Act(A, Submitting([text]));
    SubmitAccepts(w, text);
    assert (evs + [e])[..|evs|] == evs;
    assert m in Accepted(w0, evs + [e], A);
    AcceptedStays(w0, evs + [e], [Act(A, Sending)] + more, m);
    assert evs + [e] + ([Act(A, Sending)] + more) == evs + SubmitAndSend(text) + more;
  }

  /* ----- a trim that stops at no confirmed entry ----- */

  lemma AcceptedFirst(w0: World<int>, text: int, more: seq<Event<int>>)
    requires w0.a.cfg.maxPacket >= 1 && w0.a.state.Up? && w0.a.send == []
    ensures Stamped(|w0.fromA.submitted|, text) in Accepted(w0, SubmitAndSend(text) + more, A)
  {
    hide SubmitAndSend, Accepted;
    SrAliasing.RunNone(w0);
    AcceptedAfter(w0, [], text, more);
    assert [] + SubmitAndSend(text) + more == SubmitAndSend(text) + more;
  }

  lemma AcceptedInLossy()
    ensures M7 in Accepted(Established(CFG, CFG, 0, 0, Exact), FIRST + SECOND, A)
  {
    var w0 := Established<int>(CFG, CFG, 0, 0, Exact);
    AcceptedFirst(w0, 7, [Loss(A, 0)] + SubmitAndSend(8) + SECOND);
    hide SubmitAndSend, Accepted;
    assert SubmitAndSend(7) + ([Loss(A, 0)] + SubmitAndSend(8) + SECOND) == FIRST + SECOND;
  }

  /** In LossyRun the request confirms number 1, which is not queued, while 2
      and 3 are. */
  lemma UnsafeTrimLoses()
    ensures LostBy(Established(CFG, CFG, 0, 0, Exact), FIRST + SECOND, M7)
    ensures !SafeCut(TwoQueued().retr, 1)
  {
    hide Run, Accepted, Established;
    LossyRun();
    AcceptedInLossy();
    assert TwoQueued().retr[0].sn == 2 && TwoQueued().retr[1].sn == 3;
  }

  /* ----- a receive buffer without room ----- */

  const FIVE := Config(20, 5)
  const SEVENS := [7, 7, 7, 7, 7]

  function Sevens(first: nat, n: nat): seq<Stamped<int>> {
    seq(n, i requires 0 <= i < n => Stamped(first + i, 7))
  }

  /** k packets of five messages taken by B; the application fetches none. */
  function Stuffed(k: nat): World<int> {
    World(
      Endpoint(FIVE, Up, true, 2 + k, 1, 0, 0, seq(k, i requires 0 <= i < k => Entry(2 + i, Sevens(5 * i, 5))), [], []),
      Endpoint(FIVE, Up, true, 1, 2 + k, 1 + k, 0, [], [], Sevens(0, 5 * k)),
      [], [], Ledger(seq(5 * k, _ => 7), Sevens(0, 5 * k), 5 * k), Ledger([], [], 0))
  }

  function StuffedSubmitted(k: nat): World<int> {
    var w := Stuffed(k);
    w.(a := w.a.(send := Sevens(5 * k, 5)), fromA := w.fromA.(submitted := w.fromA.submitted + SEVENS))
  }

  function StuffedSent(k: nat): World<int> {
    var w := Stuffed(k);
    w.(a := Stuffed(k + 1).a, ab := [Packet(Data, 2 + k, 0, Sevens(5 * k, 5))],
       fromA := w.fromA.(submitted := w.fromA.submitted + SEVENS))
  }

  lemma SubmitsFive(k: nat)
    ensures Step(Stuffed(k), Act(A, Submitting(SEVENS)), Exact) == StuffedSubmitted(k)
  {
    var w := Stuffed(k);
    assert Stamp(SEVENS, |w.fromA.submitted|) == Sevens(5 * k, 5);
    PushAllFits(w.a.send, Sevens(5 * k, 5), 10);
    assert [] + Sevens(5 * k, 5) == Sevens(5 * k, 5);
    hide PushAll, Sevens;
    assert w.fromB.handed + [] == w.fromB.handed;
  }

  lemma SendsFive(k: nat)
    requires k < 4
    ensures Step(StuffedSubmitted(k), Act(A, Sending), Exact) == StuffedSent(k)
  {
    var w := StuffedSubmitted(k);
    assert w.a.send[..5] == w.a.send && w.a.send[5..] == [];
    assert w.a.retr + [Entry(2 + k, Sevens(5 * k, 5))] == Stuffed(k + 1).a.retr;
    hide Sevens;
    assert w.fromB.handed + [] == w.fromB.handed;
  }

  lemma AcceptsFive(k: nat)
    requires k < 4
    ensures var w := StuffedSent(k);
            Receive(w.b, w.ab[0], true, Exact) == Outcome(Stuffed(k + 1).b, [], Sevens(5 * k, 5))
  {
    var w := StuffedSent(k);
    PushAllFits(w.b.app, Sevens(5 * k, 5), 20);
    assert w.b.app + Sevens(5 * k, 5) == Sevens(0, 5 * k + 5);
    hide PushAll, Sevens;
    assert [] + w.ab[0].msgs == w.ab[0].msgs;
  }

  lemma FiveLonger(k: nat)
    ensures var old5, new5 := Sevens(0, 5 * k), Sevens(5 * k, 5);
            && Sevens(0, 5 * k + 5) == old5 + new5 && (old5 + new5)[|old5|..] == new5
            && |old5| == 5 * k && |new5| == 5 && new5[4].rank == 5 * k + 4
    ensures seq<int>(5 * k, _ => 7) + SEVENS == seq(5 * k + 5, _ => 7)
  {
  }

  lemma TakesFive(k: nat)
    requires k < 4
    ensures Step(StuffedSent(k), Act(B, Receiving(true)), Exact) == Stuffed(k + 1)
  {
    hide Receive, Sevens;
    AcceptsFive(k);
    FiveLonger(k);
    var w := StuffedSent(k);
    assert w.fromA.submitted == seq(5 * k + 5, _ => 7);
    assert w.ab[1..] == [] && w.ba + [] == w.ba;
  }

  const FIVE_MORE: seq<Event<int>> := [Act(A, Submitting(SEVENS))] + [Act(A, Sending)] + [Act(B, Receiving(true))]

  function Stuffing(k: nat): seq<Event<int>> {
    if k == 0 then [] else Stuffing(k - 1) + FIVE_MORE
  }

  lemma {:induction false} Stuffs(k: nat)
    requires k <= 4
    ensures Run(Established(FIVE, FIVE, 0, 0, Exact), Stuffing(k), Exact) == Stuffed(k)
  {
    var w0 := Established<int>(FIVE, FIVE, 0, 0, Exact);
    if k == 0 {
      SrAliasing.RunNone(w0);
      assert Stuffed(0) == w0;
    } else {
      hide Run, Stuffed, Established;
      Stuffs(k - 1);
      FiveMore(k - 1);
      RunAppend(w0, Stuffing(k - 1), FIVE_MORE);
    }
  }

  lemma FiveMore(k: nat)
    requires k < 4
    ensures Run(Stuffed(k), FIVE_MORE, Exact) == Stuffed(k + 1)
  {
    hide Step, Run, Stuffed, StuffedSubmitted, StuffedSent;
    var w := Stuffed(k);
    var submit, send := Act(A, Submitting(SEVENS)), Act(A, Sending);
    SubmitsFive(k);
    SendsFive(k);
    TakesFive(k);
    RunOne(w, submit);
    RunAppend(w, [submit], [send]);
    RunOne(StuffedSubmitted(k), send);
    RunAppend(w, [submit] + [send], [Act(B, Receiving(true))]);
    RunOne(StuffedSent(k), Act(B, Receiving(true)));
  }

  /** The next message finds the buffer full. */
  lemma FullBufferStep()
    ensures var w2 := Step(AfterSend(Stuffed(4), 7), Act(B, Receiving(true)), Exact);
            && w2.ab == [] && w2.b.csT == 6 && w2.fromA.handed == Sevens(0, 20) && w2.b.state.Up?
            && w2.a.send == [] && w2.a.retr == Stuffed(4).a.retr + [Entry(6, [Stamped(20, 7)])]
  {
    var m := Stamped(20, 7);
    assert [m][1..] == [];
    assert PushAll(Sevens(0, 20), [m], 20) == PushAll(Sevens(0, 20), [], 20);
  }

  lemma NotAmongSevens(h: Half<int>)
    requires h.led.handed == Sevens(0, 20) && h.x.send == [] && h.y.csT == 6
    requires h.x.retr == Stuffed(4).a.retr + [Entry(6, [Stamped(20, 7)])]
    ensures !Held(h, Stamped(20, 7))
  {
  }

  /** A buffer of twenty messages is full: the next one is confirmed and lost,
      with no packet lost and both sides UP. */
  lemma FullBufferLoses()
    ensures var w0 := Established<int>(FIVE, FIVE, 0, 0, Exact);
            var evs := Stuffing(4) + SubmitAndSend(7) + [Act(B, Receiving(true))];
            LostBy(w0, evs, Stamped(20, 7)) && Run(w0, evs, Exact).a.state.Up? && Run(w0, evs, Exact).b.state.Up?
  {
    var w0 := Established<int>(FIVE, FIVE, 0, 0, Exact);
    var rb := Act(B, Receiving(true));
    var w := Stuffed(4);
    assert w.a.send == [] && w.a.state.Up? && w.a.attached && |w.a.retr| == 4 && w.a.cfg == FIVE
           && |w.fromA.submitted| == 20;
    Stuffs(4);
    FullBufferStep();
    SendOne(w, 7);
    assert AfterSend(w, 7).a.state.Up? && Step(AfterSend(w, 7), rb, Exact).a.state.Up?;
    hide Run, Accepted, Step, AfterSend, SubmitAndSend, Stuffing, Held, Stuffed, Established;
    AcceptedAfter(w0, Stuffing(4), 7, [rb]);
    RunAppend(w0, Stuffing(4), SubmitAndSend(7));
    RunAppend(w0, Stuffing(4) + SubmitAndSend(7), [rb]);
    RunOne(AfterSend(w, 7), rb);
    NotAmongSevens(HalfOf(Step(AfterSend(w, 7), rb, Exact), A));
  }

  /** In general: of a batch handed up the buffer keeps all exactly when there
      is room. */
  lemma BufferTakesAllIff<M>(e: Endpoint<M>, p: Packet<M>, cts: bool)
    requires HandsUp(e, p, cts) && |e.app| <= e.cfg.sendMax
    ensures Receive(e, p, cts, Exact).e.app == e.app + p.msgs <==> HasRoom(e, p)
  {
    var n := ReceiveHandsUp(e, p, cts);
    PushAllBound(e.app, p.msgs, e.cfg.sendMax);
    hide SnRangeValid, CsValid, SnInSeq;
    if HasRoom(e, p) {
      assert p.msgs[..n] == p.msgs;
    }
  }

  lemma {:induction false} PushAllBound<X>(q: seq<X>, xs: seq<X>, cap: nat)
    requires |q| <= cap
    ensures |PushAll(q, xs, cap)| <= cap
    decreases |xs|
  {
    if xs != [] {
      PushAllBound(Push(q, xs[0], cap), xs[1..], cap);
    }
  }

  /* ----- a retransmission queue without room ----- */

  const WIDE := Config(20, 10)

  function Fill(n: nat): seq<Event<int>> {
    if n == 0 then [] else Fill(n - 1) + SubmitAndSend(7) + [Loss(A, 0)]
  }

  function Filled(n: nat): World<int> {
    var w0 := Established<int>(WIDE, WIDE, 0, 0, Exact);
    var k := if n <= MAX_QUEUE_SIZE then n else MAX_QUEUE_SIZE;
    w0.(a := w0.a.(snT := 2 + n, retr := seq(k, i requires 0 <= i < k => Entry(2 + i, [Stamped(i, 7)]))),
        fromA := Ledger(seq(n, _ => 7), [], 0))
  }

  lemma FilledFurther(n: nat)
    ensures var w, w2 := AfterSend(Filled(n), 7), Filled(n + 1);
            w.a == w2.a && w.fromA == w2.fromA && |w.ab| == 1
  {
    assert AfterSend(Filled(n), 7).a.retr == Filled(n + 1).a.retr;
    assert seq(n, _ => 7) + [7] == seq(n + 1, _ => 7);
  }

  lemma FillsOne(n: nat)
    ensures Step(AfterSend(Filled(n), 7), Loss(A, 0), Exact) == Filled(n + 1)
  {
    FilledFurther(n);
    var w := AfterSend(Filled(n), 7);
    assert w.b == Filled(n + 1).b && w.ba == [] && w.fromB == Filled(n + 1).fromB;
    assert w.ab[..0] + w.ab[1..] == [];
  }

  lemma {:induction false} Fills(n: nat)
    requires n <= 11
    ensures Run(Established(WIDE, WIDE, 0, 0, Exact), Fill(n), Exact) == Filled(n)
  {
    var w0 := Established<int>(WIDE, WIDE, 0, 0, Exact);
    if n == 0 {
      SrAliasing.RunNone(w0);
      assert Filled(0) == w0;
    } else {
      FillsOne(n - 1);
      var w1 := Filled(n - 1);
      assert w1.a.send == [] && w1.a.state.Up? && w1.a.attached && |w1.a.retr| <= 10 && w1.a.cfg == WIDE;
      Fills(n - 1);
      hide Step, Run, AfterSend, SubmitAndSend, Filled, Established;
      RunAppend(w0, Fill(n - 1), SubmitAndSend(7));
      SendOne(w1, 7);
      RunAppend(w0, Fill(n - 1) + SubmitAndSend(7), [Loss(A, 0)]);
      RunOne(AfterSend(w1, 7), Loss(A, 0));
    }
  }

  /** With packets of ten messages the send step runs on a full queue of ten:
      the eleventh packet is not remembered. */
  lemma FullQueueLoses()
    ensures LostBy(Established(WIDE, WIDE, 0, 0, Exact), Fill(11), Stamped(10, 7))
  {
    var w0 := Established<int>(WIDE, WIDE, 0, 0, Exact);
    Fills(10);
    Fills(11);
    assert Fill(11) == Fill(10) + SubmitAndSend(7) + [Loss(A, 0)];
    assert |Filled(10).fromA.submitted| == 10;
    hide Run, Accepted, SubmitAndSend, Established, Fill;
    AcceptedAfter(w0, Fill(10), 7, [Loss(A, 0)]);
    var h := HalfOf(Filled(11), A);
    forall k ensures !InEntry(h, Stamped(10, 7), k) {
    }
  }

  /* ----- a number 2^32 ahead of the one expected ----- */

  const UNHEARD: seq<Event<int>> := [Act(A, Beating(false, true))] + [Loss(A, 0)]

  function Beats(n: nat): seq<Event<int>> {
    if n == 0 then [] else Beats(n - 1) + UNHEARD
  }

  function Unheard(n: nat): World<int> {
    var w0 := Established<int>(CFG, CFG, 0, 0, Exact);
    w0.(a := w0.a.(snT := 3 + n, retr := [Entry(2, [M7])]), fromA := Ledger([7], [], 0))
  }

  lemma OneBeat(n: nat)
    ensures Run(Unheard(n), UNHEARD, Exact) == Unheard(n + 1)
  {
    var w1 := Unheard(n + 1).(ab := [Packet(Heartbeat, 3 + n, 0, [])]);
    assert Step(Unheard(n), Act(A, Beating(false, true)), Exact) == w1;
    assert Step(w1, Loss(A, 0), Exact) == Unheard(n + 1);
    hide Step, Run, Unheard;
    RunOne(Unheard(n), Act(A, Beating(false, true)));
    RunAppend(Unheard(n), [Act(A, Beating(false, true))], [Loss(A, 0)]);
    RunOne(w1, Loss(A, 0));
  }

  lemma {:induction false} ManyBeats(n: nat)
    ensures Run(Unheard(0), Beats(n), Exact) == Unheard(n)
  {
    hide Run, Unheard;
    if n == 0 {
      SrAliasing.RunNone(Unheard(0));
    } else {
      ManyBeats(n - 1);
      OneBeat(n - 1);
      RunAppend(Unheard(0), Beats(n - 1), UNHEARD);
    }
  }

  lemma FirstUnheard()
    ensures Run(Established(CFG, CFG, 0, 0, Exact), SubmitAndSend(7) + [Loss(A, 0)], Exact) == Unheard(0)
  {
    var w0 := Established<int>(CFG, CFG, 0, 0, Exact);
    assert Step(AfterSend(w0, 7), Loss(A, 0), Exact) == Unheard(0);
    hide Step, Run, AfterSend, SubmitAndSend, Unheard;
    SendOne(w0, 7);
    RunAppend(w0, SubmitAndSend(7), [Loss(A, 0)]);
    RunOne(AfterSend(w0, 7), Loss(A, 0));
  }

  function SkipRun(): seq<Event<int>> {
    SubmitAndSend(7) + [Loss(A, 0)] + Beats(U32 - 1) + SubmitAndSend(8) + [Act(B, Receiving(true))]
  }

  /** The packet that is taken in sequence is 2^32 packets late: all between
      were lost, and the first message is passed over. */
  lemma TakesSkipped()
    ensures var w := Step(AfterSend(Unheard(U32 - 1), 8), Act(B, Receiving(true)), Exact);
            && w.ab == [] && w.b.csT == U32 + 2 && w.fromA.handed == [M8]
            && w.a.send == [] && w.a.retr == [Entry(2, [M7]), Entry(U32 + 2, [M8])]
  {
    SrAliasing.PushesOne([], M8);
  }

  function AfterFirst(): seq<Event<int>> {
    [Loss(A, 0)] + Beats(U32 - 1) + SubmitAndSend(8) + [Act(B, Receiving(true))]
  }

  lemma SkipRunIs()
    ensures SkipRun() == SubmitAndSend(7) + AfterFirst()
  {
    hide SubmitAndSend, Beats;
  }

  lemma SkipEnds()
    ensures Run(Established(CFG, CFG, 0, 0, Exact), SkipRun(), Exact)
         == Step(AfterSend(Unheard(U32 - 1), 8), Act(B, Receiving(true)), Exact)
  {
    var w0 := Established<int>(CFG, CFG, 0, 0, Exact);
    var rb := Act(B, Receiving(true));
    var w1 := Unheard(U32 - 1);
    SendOne(w1, 8);
    hide Step, Run, AfterSend, SubmitAndSend, Unheard, Beats;
    FirstUnheard();
    ManyBeats(U32 - 1);
    var first := SubmitAndSend(7) + [Loss(A, 0)];
    RunAppend(w0, first, Beats(U32 - 1));
    RunAppend(w0, first + Beats(U32 - 1), SubmitAndSend(8));
    RunAppend(w0, first + Beats(U32 - 1) + SubmitAndSend(8), [rb]);
    RunOne(AfterSend(w1, 8), rb);
  }

  lemma NotHeldAnyMore(w: World<int>)
    requires w.a.send == [] && w.a.retr == [Entry(2, [M7]), Entry(U32 + 2, [M8])]
    requires w.b.csT == U32 + 2 && w.fromA.handed == [M8]
    ensures !Held(HalfOf(w, A), M7)
  {
  }

  lemma FirstIsAccepted()
    ensures M7 in Accepted(Established(CFG, CFG, 0, 0, Exact), SkipRun(), A)
  {
    var w0 := Established<int>(CFG, CFG, 0, 0, Exact);
    AcceptedFirst(w0, 7, AfterFirst());
    SkipRunIs();
    hide Accepted, SkipRun, AfterFirst, SubmitAndSend;
  }

  lemma SkippedNumberLoses()
    ensures LostBy(Established(CFG, CFG, 0, 0, Exact), SkipRun(), M7)
  {
    hide Step, Run, AfterSend, Unheard, Accepted, SkipRun, Held, Established;
    FirstIsAccepted();
    SkipEnds();
    TakesSkipped();
    NotHeldAnyMore(Run(Established(CFG, CFG, 0, 0, Exact), SkipRun(), Exact));
  }
}
