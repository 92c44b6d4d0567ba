/** Where the SR layer's delivery ends: what is lost, and why numbers must stay
    within one 32-bit window. */
module SrLimits {
  import opened Words
  import opened SrEndpoint
  import opened SrWorld
  import opened SrInvariant

  /** Every entry above the confirmed number c is still queued. */
  ghost predicate KeepsUnconfirmed<M>(q: seq<Entry<M>>, c: int) {
    forall i :: 0 <= i < |q| && c < q[i].sn ==> q[i] in RemoveConfirmed(q, c)
  }

  /** No entry at or below the confirmed number c is queued any more. */
  ghost predicate DropsConfirmed<M>(q: seq<Entry<M>>, c: int) {
    forall i :: 0 <= i < |RemoveConfirmed(q, c)| ==> c < RemoveConfirmed(q, c)[i].sn
  }

  ghost predicate Ascending<M>(q: seq<Entry<M>>) {
    forall i, j :: 0 <= i < j < |q| ==> q[i].sn < q[j].sn
  }

  /** sr_remove_confirmed_messages keeps the unconfirmed packets exactly when
      the entry it stops at is confirmed or, if it stops at none, all are. */
  lemma TrimIsSafeIff<M>(q: seq<Entry<M>>, c: int)
    requires Ascending(q)
    ensures KeepsUnconfirmed(q, c) <==> SafeCut(q, c)
  {
    var j := Found(q, c);
    RemoveConfirmedIs(q, c);
    if j < |q| {
      var rest := q[j + 1..];
      if q[j].sn <= c {
        forall i | 0 <= i < |q| && c < q[i].sn ensures q[i] in rest {
          assert q[i] == rest[i - j - 1];
        }
      } else {
        forall i | 0 <= i < |rest| ensures rest[i] != q[j] {
          assert rest[i] == q[i + j + 1];
        }
      }
    }
  }

  /** It removes all confirmed packets exactly when the entry it stops at, if
      any, is followed only by unconfirmed ones. */
  lemma TrimIsCleanIff<M>(q: seq<Entry<M>>, c: int)
    requires Ascending(q)
    ensures DropsConfirmed(q, c) <==> CleanCut(q, c)
  {
    var j := Found(q, c);
    RemoveConfirmedIs(q, c);
    if j < |q| {
      var rest := q[j + 1..];
      assert forall i :: j < i < |q| ==> q[i] == rest[i - j - 1];
    }
  }

  /** Inside the window the entry it stops at is the confirmed packet itself:
      then it is safe exactly when that packet is queued or nothing above it. */
  lemma TrimInWindowIff<M>(q: seq<Entry<M>>, c: int)
    requires Ascending(q) && forall i :: 0 <= i < |q| ==> -U32 < q[i].sn - c < U32
    ensures CleanCut(q, c)
    ensures SafeCut(q, c) <==>
            (exists i :: 0 <= i < |q| && q[i].sn == c) || (forall i :: 0 <= i < |q| ==> q[i].sn <= c)
  {
    WindowCutsClean(q, c);
    var j := Found(q, c);
    forall i | 0 <= i < |q| && q[i].sn == c ensures j < |q| {
      assert Diff32(q[i].sn, c) == 0;
    }
  }

  /** Right after a heartbeat was accepted, a packet that arrives before this
      side sends again passes the confirmation check exactly when it confirms
      the last packet sent; one that left the peer earlier is discarded, even
      though it is next in sequence. */
  lemma HeartbeatDiscardsOlderConfirmations<M>(e: Endpoint<M>, hb: Packet<M>, p: Packet<M>)
    requires Flowing(e.state) && SnInSeq(e, hb) && hb.kind.Heartbeat?
    requires e.snT - U32 <= p.cs < e.snT
    ensures var e2 := HandleHeartbeat(e, hb, true, Exact).e;
            CsValid(e2, p) <==> p.cs == e.snT - 1
  {
    assert Diff32(p.cs, e.snT - 1) == 0 <==> p.cs == e.snT - 1;
  }

  /* ----- a run that loses messages for good ----- */

  lemma {:induction false} RunAppend<T>(w: World<T>, evs: seq<Event<T>>, more: seq<Event<T>>)
    ensures Run(w, evs + more, Exact) == Run(Run(w, evs, Exact), more, Exact)
    decreases |more|
  {
    if more == [] {
      assert evs + more == evs;
    } else {
      RunAppend(w, evs, more[..|more| - 1]);
      assert (evs + more)[..|evs + more| - 1] == evs + more[..|more| - 1];
    }
  }

  lemma RunOne<T>(w: World<T>, ev: Event<T>)
    ensures Run(w, [ev], Exact) == Step(w, ev, Exact)
  {
    assert [ev][..0] == [];
    assert Run(w, [], Exact) == w;
  }

  const M7 := Stamped(0, 7)
  const M8 := Stamped(1, 8)
  const CFG := Config(20, 4)

  function Lossy(a: Endpoint<Stamped<int>>, b: Endpoint<Stamped<int>>,
                 ab: seq<Packet<Stamped<int>>>, ba: seq<Packet<Stamped<int>>>, n: nat): World<int>
    requires n <= 2
  {
    World(a, b, ab, ba, Ledger([7, 8][..n], [], 0), Ledger([], [], 0))
  }

  lemma SubmitOne(a: Endpoint<Stamped<int>>, m: Stamped<int>)
    requires a.cfg.maxPacket >= 1 && a.state.Up? && a.send == []
    ensures Submit(a, [m]) == Start(a.(send := [m]))
  {
    var cap := 2 * a.cfg.maxPacket;
    assert PushAll([], [m], cap) == PushAll([m], [m][1..], cap);
    assert PushAll([m], [], cap) == [m];
    assert [m][1..] == [];
  }

  function SubmitAndSend(text: int): seq<Event<int>> {
    [Act(A, Submitting([text]))] + [Act(A, Sending)]
  }

  function AfterSubmit(w: World<int>, text: int): World<int> {
    w.(a := w.a.(send := [Stamped(|w.fromA.submitted|, text)]),
       fromA := w.fromA.(submitted := w.fromA.submitted + [text]))
  }

  function AfterSend(w: World<int>, text: int): World<int> {
    var m := Stamped(|w.fromA.submitted|, text);
    w.(a := w.a.(snT := w.a.snT + 1, retr := Push(w.a.retr, Entry(w.a.snT, [m]), MAX_QUEUE_SIZE)),
       ab := w.ab + [Packet(Data, w.a.snT, w.a.csT, [m])],
       fromA := w.fromA.(submitted := w.fromA.submitted + [text]))
  }

  lemma SubmitStep(w: World<int>, text: int)
    requires w.a.cfg.maxPacket >= 1 && w.a.state.Up? && w.a.send == []
    ensures Step(w, Act(A, Submitting([text])), Exact) == AfterSubmit(w, text)
  {
    var m := Stamped(|w.fromA.submitted|, text);
    assert Stamp([text], |w.fromA.submitted|) == [m];
    SubmitOne(w.a, m);
    hide Submit;
    assert w.ab + [] == w.ab && w.fromB.handed + [] == w.fromB.handed;
  }

  lemma SendOf(w: World<int>, text: int)
    requires w.a.cfg.maxPacket >= 1 && w.a.state.Up? && w.a.send == [] && w.a.attached
             && |w.a.retr| <= w.a.cfg.maxPacket
    ensures Step(AfterSubmit(w, text), Act(A, Sending), Exact) == AfterSend(w, text)
  {
    var m := Stamped(|w.fromA.submitted|, text);
    assert [m][..1] == [m] && [m][1..] == [];
    assert w.fromB.handed + [] == w.fromB.handed;
  }

  /** Submitting one message and sending it. */
  lemma SendOne(w: World<int>, text: int)
    requires w.a.cfg.maxPacket >= 1 && w.a.state.Up? && w.a.send == [] && w.a.attached
             && |w.a.retr| <= w.a.cfg.maxPacket
    ensures Run(w, SubmitAndSend(text), Exact) == AfterSend(w, text)
  {
    hide Step;
    RunOne(w, Act(A, Submitting([text])));
    RunAppend(w, [Act(A, Submitting([text]))], [Act(A, Sending)]);
    RunOne(AfterSubmit(w, text), Act(A, Sending));
    SubmitStep(w, text);
    SendOf(w, text);
  }

  const FIRST: seq<Event<int>> := SubmitAndSend(7) + [Loss(A, 0)] + SubmitAndSend(8)

  const SECOND: seq<Event<int>> :=
    [Act(B, Receiving(true))] + [Act(A, Receiving(true))]
    + [Act(B, Receiving(true))] + [Act(B, Receiving(true))]

  function TwoQueued(): Endpoint<Stamped<int>> {
    Endpoint(CFG, Up, true, 4, 1, 0, 0, [Entry(2, [M7]), Entry(3, [M8])], [], [])
  }

  function Waiting(): Endpoint<Stamped<int>> {
    Endpoint(CFG, Up, true, 1, 2, 1, 0, [], [], [])
  }

  lemma LossyFirst()
    ensures Run(Established(CFG, CFG, 0, 0, Exact), FIRST, Exact) ==
            Lossy(TwoQueued(), Waiting(), [Packet(Data, 3, 0, [M8])], [], 2)
  {
    var w0 := Established<int>(CFG, CFG, 0, 0, Exact);
    var w1 := AfterSend(w0, 7);
    var w2 := w1.(ab := []);
    assert Step(w1, Loss(A, 0), Exact) == w2;
    assert AfterSend(w2, 8) == Lossy(TwoQueued(), Waiting(), [Packet(Data, 3, 0, [M8])], [], 2);
    hide Step, Run, SubmitAndSend, AfterSend;
    SendOne(w0, 7);
    RunAppend(w0, SubmitAndSend(7), [Loss(A, 0)]);
    RunOne(w1, Loss(A, 0));
    RunAppend(w0, SubmitAndSend(7) + [Loss(A, 0)], SubmitAndSend(8));
    SendOne(w2, 8);
  }

  lemma OutOfSequence()
    ensures Step(Lossy(TwoQueued(), Waiting(), [Packet(Data, 3, 0, [M8])], [], 2), Act(B, Receiving(true)), Exact) ==
            Lossy(TwoQueued(), Waiting().(state := WaitResp, snT := 2), [], [Packet(RetrReq, 1, 1, [])], 2)
  {
  }

  lemma EmptiedAnswer(b: Endpoint<Stamped<int>>)
    ensures Step(Lossy(TwoQueued(), b, [], [Packet(RetrReq, 1, 1, [])], 2), Act(A, Receiving(true)), Exact) ==
            Lossy(Endpoint(CFG, Up, true, 6, 2, 1, 1, [], [], []), b,
                  [Packet(RetrResp, 4, 1, []), Packet(Heartbeat, 5, 1, [])], [], 2)
  {
    RemoveConfirmedIs(TwoQueued().retr, 1);
  }

  lemma ResumeAndUp(a: Endpoint<Stamped<int>>, b: Endpoint<Stamped<int>>)
    requires b == Waiting().(state := WaitResp, snT := 2)
    ensures var rb := Act(B, Receiving(true));
            var w1 := Step(Lossy(a, b, [Packet(RetrResp, 4, 1, []), Packet(Heartbeat, 5, 1, [])], [], 2), rb, Exact);
            Step(w1, rb, Exact) == Lossy(a, b.(state := Up, snR := 6, csT := 5, csR := 1), [], [], 2)
  {
  }

  /** Four single events in a row. */
  lemma RunFour<T>(w: World<T>, e1: Event<T>, e2: Event<T>, e3: Event<T>, e4: Event<T>)
    ensures Run(w, [e1] + [e2] + [e3] + [e4], Exact) ==
            Step(Step(Step(Step(w, e1, Exact), e2, Exact), e3, Exact), e4, Exact)
  {
    RunOne(w, e1);
    RunAppend(w, [e1], [e2]);
    RunOne(Run(w, [e1], Exact), e2);
    RunAppend(w, [e1] + [e2], [e3]);
    RunOne(Run(w, [e1] + [e2], Exact), e3);
    RunAppend(w, [e1] + [e2] + [e3], [e4]);
    RunOne(Run(w, [e1] + [e2] + [e3], Exact), e4);
  }

  /** The first message is lost on its way; the second arrives out of sequence.
      The request confirms a heartbeat, which is not queued, so the sender
      answers with an emptied queue. Both sides are up again, nothing is queued
      or under way, and neither message was handed up. */
  lemma LossyRun()
    ensures var w := Run(Established(CFG, CFG, 0, 0, Exact), FIRST + SECOND, Exact);
            && w.a.state.Up? && w.b.state.Up? && w.ab == [] && w.ba == []
            && w.a.send == [] && w.a.retr == []
            && w.fromA.submitted == [7, 8] && w.fromA.handed == []
  {
    var w0 := Established<int>(CFG, CFG, 0, 0, Exact);
    var w1 := Lossy(TwoQueued(), Waiting(), [Packet(Data, 3, 0, [M8])], [], 2);
    LossyFirst();
    RunAppend(w0, FIRST, SECOND);
    RunFour(w1, Act(B, Receiving(true)), Act(A, Receiving(true)), Act(B, Receiving(true)), Act(B, Receiving(true)));
    OutOfSequence();
    EmptiedAnswer(Waiting().(state := WaitResp, snT := 2));
    ResumeAndUp(Endpoint(CFG, Up, true, 6, 2, 1, 1, [], [], []), Waiting().(state := WaitResp, snT := 2));
  }
}
