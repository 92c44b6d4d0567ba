/** What goes wrong when a 32-bit number comes round: a run in which a message
    is handed up twice, and a run in which one is passed over. */
module SrAliasing {
  import opened Words
  import opened SrEndpoint
  import opened SrWorld
  import opened SrInvariant
  import opened SrSenderSteps
  import opened SrLimits
  import opened SrRefinement

  /* ----- two messages delivered, then heartbeats only ----- */

  const ROUND: seq<Event<int>> :=
    [Act(A, Beating(false, true))] + [Act(B, Receiving(true))] + [Act(B, Beating(false, true))]
      + [Act(A, Receiving(true))]

  function Rounds(n: nat): seq<Event<int>> {
    if n == 0 then [] else Rounds(n - 1) + ROUND
  }

  /** After r rounds: the two delivered messages are still queued at a. */
  function BeatenA(r: nat): Endpoint<Stamped<int>> {
    Endpoint(CFG, Up, true, 4 + r, 1 + r, r, if r == 0 then 0 else 3 + r, [Entry(2, [M7]), Entry(3, [M8])], [], [])
  }

  function BeatenB(r: nat): Endpoint<Stamped<int>> {
    Endpoint(CFG, Up, true, 1 + r, 4 + r, 3 + r, if r == 0 then 0 else r - 1, [], [], [M7, M8])
  }

  const DELIVERED := Ledger([7, 8], [M7, M8], 2)
  const NOTHING: Ledger<int> := Ledger([], [], 0)

  function Beaten(r: nat): World<int> {
    World(BeatenA(r), BeatenB(r), [], [], DELIVERED, NOTHING)
  }

  /** A round half over: B has taken A's heartbeat. */
  function HalfBeaten(r: nat): World<int> {
    World(BeatenA(r).(snT := 5 + r), BeatenB(r).(snR := 5 + r, csT := 4 + r, csR := r), [], [], DELIVERED, NOTHING)
  }

  lemma BeatOfA(r: nat)
    ensures Step(Step(Beaten(r), Act(A, Beating(false, true)), Exact), Act(B, Receiving(true)), Exact) == HalfBeaten(r)
  {
    var w1 := Beaten(r).(a := BeatenA(r).(snT := 5 + r), ab := [Packet(Heartbeat, 4 + r, r, [])]);
    assert Step(Beaten(r), Act(A, Beating(false, true)), Exact) == w1;
  }

  lemma BeatOfB(r: nat)
    ensures Step(Step(HalfBeaten(r), Act(B, Beating(false, true)), Exact), Act(A, Receiving(true)), Exact)
            == Beaten(r + 1)
  {
    var w2 := HalfBeaten(r);
    var w3 := w2.(b := w2.b.(snT := 2 + r), ba := [Packet(Heartbeat, 1 + r, 4 + r, [])]);
    assert Step(w2, Act(B, Beating(false, true)), Exact) == w3;
  }

  lemma OneRound(r: nat)
    ensures Run(Beaten(r), ROUND, Exact) == Beaten(r + 1)
  {
    hide Step, Run, Beaten, HalfBeaten;
    BeatOfA(r);
    BeatOfB(r);
    RunFour(Beaten(r), Act(A, Beating(false, true)), Act(B, Receiving(true)), Act(B, Beating(false, true)),
      Act(A, Receiving(true)));
  }

  lemma {:induction false} ManyRounds(n: nat)
    ensures Run(Beaten(0), Rounds(n), Exact) == Beaten(n)
  {
    hide Step, Run, Beaten;
    if n == 0 {
      RunNone(Beaten(0));
    } else {
      ManyRounds(n - 1);
      RunAppend(Beaten(0), Rounds(n - 1), ROUND);
      OneRound(n - 1);
    }
  }

  lemma RunNone<T>(w: World<T>)
    ensures Run(w, [], Exact) == w
  {
  }

  /** a submits a message, sends it, and b takes it. */
  function Deliver(text: int): seq<Event<int>> {
    SubmitAndSend(text) + [Act(B, Receiving(true))]
  }

  lemma Delivers(w: World<int>, text: int, taken: World<int>)
    requires w.a.cfg.maxPacket >= 1 && w.a.state.Up? && w.a.send == [] && w.a.attached
             && |w.a.retr| <= w.a.cfg.maxPacket
    requires Step(AfterSend(w, text), Act(B, Receiving(true)), Exact) == taken
    ensures Run(w, Deliver(text), Exact) == taken
  {
    hide Step, Run, AfterSend, SubmitAndSend;
    SendOne(w, text);
    RunAppend(w, SubmitAndSend(text), [Act(B, Receiving(true))]);
    RunOne(AfterSend(w, text), Act(B, Receiving(true)));
  }

  const START := Deliver(7) + Deliver(8)

  function TakenOnce(): Endpoint<Stamped<int>> {
    Endpoint(CFG, Up, true, 1, 3, 2, 0, [], [], [M7])
  }

  function FirstTaken(): World<int> {
    World(Endpoint(CFG, Up, true, 3, 1, 0, 0, [Entry(2, [M7])], [], []), TakenOnce(), [], [], Ledger([7], [M7], 1),
      NOTHING)
  }

  lemma TakesFirst()
    ensures Run(Established(CFG, CFG, 0, 0, Exact), Deliver(7), Exact) == FirstTaken()
  {
    var w0 := Established<int>(CFG, CFG, 0, 0, Exact);
    var sent := FirstTaken().(b := w0.b, ab := [Packet(Data, 2, 0, [M7])], fromA := Ledger([7], [], 0));
    PushesOne([], M7);
    assert RemoveConfirmed<Stamped<int>>([], 0) == [];
    assert AfterSend(w0, 7) == sent;
    hide Run, Deliver;
    assert Step(sent, Act(B, Receiving(true)), Exact) == FirstTaken();
    Delivers(w0, 7, FirstTaken());
  }

  lemma TakesSecond()
    ensures Run(FirstTaken(), Deliver(8), Exact) == Beaten(0)
  {
    var sent := Beaten(0).(b := TakenOnce(), ab := [Packet(Data, 3, 0, [M8])], fromA := Ledger([7, 8], [M7], 1));
    PushesOne([M7], M8);
    assert AfterSend(FirstTaken(), 8) == sent;
    hide Run, Deliver;
    assert Step(sent, Act(B, Receiving(true)), Exact) == Beaten(0);
    Delivers(FirstTaken(), 8, Beaten(0));
  }

  lemma Starts()
    ensures Run(Established(CFG, CFG, 0, 0, Exact), START, Exact) == Beaten(0)
  {
    hide Run, Deliver;
    TakesFirst();
    TakesSecond();
    RunAppend(Established(CFG, CFG, 0, 0, Exact), Deliver(7), Deliver(8));
  }

  lemma PushesOne(q: seq<Stamped<int>>, m: Stamped<int>)
    requires |q| < 20
    ensures PushAll(q, [m], 20) == q + [m]
  {
    assert [m][1..] == [];
    assert PushAll(q, [m], 20) == PushAll(q + [m], [], 20);
  }

  /* ----- the number of the first message comes round ----- */

  const M9 := Stamped(2, 9)
  const M10 := Stamped(3, 10)

  const LOSE: seq<Event<int>> :=
    SubmitAndSend(9) + [Loss(A, 0)] + SubmitAndSend(10)
  const RESEND: seq<Event<int>> :=
    [Act(B, Receiving(true))] + [Act(A, Receiving(true))] + [Act(B, Receiving(true))] + [Act(B, Receiving(true))]

  const QUEUE := [Entry(2, [M7]), Entry(3, [M8]), Entry(U32 + 3, [M9]), Entry(U32 + 4, [M10])]
  const KEPT := [Entry(3, [M8]), Entry(U32 + 3, [M9]), Entry(U32 + 4, [M10])]

  function LostA(): Endpoint<Stamped<int>> {
    BeatenA(U32 - 1).(snT := U32 + 5, retr := QUEUE)
  }

  function Lost(): World<int> {
    World(LostA(), BeatenB(U32 - 1), [Packet(Data, U32 + 4, U32 - 1, [M10])], [], Ledger([7, 8, 9, 10], [M7, M8], 2),
      NOTHING)
  }

  lemma Loses()
    ensures Run(Beaten(U32 - 1), LOSE, Exact) == Lost()
  {
    var w := Beaten(U32 - 1);
    var w1 := AfterSend(w, 9);
    var w2 := w1.(ab := []);
    assert Step(w1, Loss(A, 0), Exact) == w2;
    assert AfterSend(w2, 10) == Lost();
    hide Step, Run, SubmitAndSend, AfterSend, Lost;
    SendOne(w, 9);
    RunAppend(w, SubmitAndSend(9), [Loss(A, 0)]);
    RunOne(w1, Loss(A, 0));
    RunAppend(w, SubmitAndSend(9) + [Loss(A, 0)], SubmitAndSend(10));
    SendOne(w2, 10);
  }

  lemma Asks()
    ensures Step(Lost(), Act(B, Receiving(true)), Exact)
         == Lost().(b := BeatenB(U32 - 1).(state := WaitResp, snT := U32 + 1), ab := [],
                    ba := [Packet(RetrReq, U32, U32 + 2, [])])
  {
  }

  lemma TrimStopsEarly()
    ensures RemoveConfirmed(QUEUE, U32 + 2) == KEPT && !CleanCut(QUEUE, U32 + 2)
  {
    assert Diff32(2, U32 + 2) == 0;
    assert QUEUE[1..] == KEPT;
    assert Found(QUEUE, U32 + 2) == 0;
    assert QUEUE[1].sn == 3;
  }

  function Resending(): seq<Packet<Stamped<int>>> {
    [Packet(RetrResp, U32 + 5, U32, []), Packet(RetrData, U32 + 6, U32, [M8]), Packet(RetrData, U32 + 7, U32, [M9]),
     Packet(RetrData, U32 + 8, U32, [M10]), Packet(Heartbeat, U32 + 9, U32, [])]
  }

  function ResentA(): Endpoint<Stamped<int>> {
    LostA().(snT := U32 + 10, snR := U32 + 1, csT := U32, csR := U32 + 2,
             retr := [Entry(U32 + 6, [M8]), Entry(U32 + 7, [M9]), Entry(U32 + 8, [M10])])
  }

  lemma AnswerIs()
    ensures HandleRetrReq(LostA(), Packet(RetrReq, U32, U32 + 2, []), Exact) == Outcome(ResentA(), Resending(), [])
  {
    TrimStopsEarly();
    HandleRetrReqIs(LostA(), Packet(RetrReq, U32, U32 + 2, []));
    hide RemoveConfirmed;
    assert Renumbered(KEPT, U32 + 6) == ResentA().retr;
    assert Resent(KEPT, U32 + 6, U32) == Resending()[1..4];
  }

  function Asked(): World<int> {
    Lost().(b := BeatenB(U32 - 1).(state := WaitResp, snT := U32 + 1), ab := [],
      ba := [Packet(RetrReq, U32, U32 + 2, [])])
  }

  function Resent2(): World<int> {
    Asked().(a := ResentA(), ab := Resending(), ba := [])
  }

  lemma Answers2()
    ensures Step(Asked(), Act(A, Receiving(true)), Exact) == Resent2()
  {
    AnswerIs();
    hide HandleRetrReq;
  }

  lemma TakesTwice()
    ensures var rb := Act(B, Receiving(true));
            var w := Step(Step(Resent2(), rb, Exact), rb, Exact);
            w.fromA == Ledger([7, 8, 9, 10], [M7, M8, M8], 2)
  {
    var rb := Act(B, Receiving(true));
    var b := BeatenB(U32 - 1).(state := Running, snT := U32 + 1, snR := U32 + 6, csT := U32 + 5, csR := U32);
    var w1 := Resent2().(b := b, ab := Resending()[1..]);
    assert Step(Resent2(), rb, Exact) == w1;
    assert Resending()[1..][0] == Packet(RetrData, U32 + 6, U32, [M8]);
    PushesOne([M7, M8], M8);
  }

  /** Two messages delivered, 2^32 - 1 rounds of heartbeats, a loss. */
  function TwiceRun(): seq<Event<int>> {
    START + Rounds(U32 - 1) + LOSE + RESEND
  }

  lemma NotInOrder()
    ensures !IsSubsequence([7, 8, 8], [7, 8, 9, 10])
  {
    var xs, ys := [7, 8, 8], [7, 8, 9, 10];
    forall pos: seq<nat> | |pos| == 3 && forall i :: 0 <= i < 3 ==> pos[i] < 4 && xs[i] == ys[pos[i]]
      ensures pos[1] == pos[2]
    {
      assert xs[1] == ys[pos[1]] && xs[2] == ys[pos[2]];
    }
  }

  /** The second message is handed up twice, although one packet was lost and
      every number last confirmed is close to the next to send: an entry that
      heartbeats left in the queue looks confirmed after 2^32 numbers. */
  lemma HandedUpTwice()
    ensures var led := Run(Established(CFG, CFG, 0, 0, Exact), TwiceRun(), Exact).fromA;
            led.submitted == [7, 8, 9, 10] && Bodies(led.handed) == [7, 8, 8]
            && !IsSubsequence(Bodies(led.handed), led.submitted)
  {
    hide Step, Run, Rounds;
    var w0 := Established<int>(CFG, CFG, 0, 0, Exact);
    Starts();
    ManyRounds(U32 - 1);
    RunAppend(w0, START, Rounds(U32 - 1));
    Loses();
    RunAppend(w0, START + Rounds(U32 - 1), LOSE);
    RunAppend(w0, START + Rounds(U32 - 1) + LOSE, RESEND);
    RunFour(Lost(), Act(B, Receiving(true)), Act(A, Receiving(true)), Act(B, Receiving(true)), Act(B, Receiving(true)));
    Asks();
    Answers2();
    TakesTwice();
    assert Bodies([M7, M8, M8]) == [7, 8, 8];
    NotInOrder();
  }

  /** The same run of the 32-bit program. */
  lemma HandedUpTwice32()
    ensures var led := Run(Established(CFG, CFG, 0, 0, Wrapped), TwiceRun(), Wrapped).fromA;
            led.submitted == [7, 8, 9, 10] && Bodies(led.handed) == [7, 8, 8]
            && !IsSubsequence(Bodies(led.handed), led.submitted)
  {
    hide Run, TwiceRun;
    HandedUpTwice();
    LowEstablished<int>(CFG, CFG, 0, 0);
    LowRun(Established<int>(CFG, CFG, 0, 0, Exact), TwiceRun());
  }
}
