/** The 32-bit machine is the image modulo 2^32 of the unbounded one.

  No assumption is needed for this: the program only copies, increments and
  decrements sequence numbers, and every comparison it makes depends on the
  numbers modulo 2^32 alone. The safety results of SrSafety carry over.
*/
module SrRefinement {
  import opened Words
  import opened SrEndpoint
  import opened SrWorld
  import opened SrInvariant
  import opened SrSafety

  function LowP<M>(p: Packet<M>): Packet<M> {
    p.(sn := p.sn % U32, cs := p.cs % U32)
  }

  function LowE<M>(e: Entry<M>): Entry<M> {
    e.(sn := e.sn % U32)
  }

  function LowPs<M>(ps: seq<Packet<M>>): seq<Packet<M>> {
    seq(|ps|, i requires 0 <= i < |ps| => LowP(ps[i]))
  }

  function LowEs<M>(es: seq<Entry<M>>): seq<Entry<M>> {
    seq(|es|, i requires 0 <= i < |es| => LowE(es[i]))
  }

  function Low<M>(e: Endpoint<M>): Endpoint<M> {
    e.(snT := e.snT % U32, snR := e.snR % U32, csT := e.csT % U32, csR := e.csR % U32,
       retr := LowEs(e.retr))
  }

  function LowO<M>(o: Outcome<M>): Outcome<M> {
    Outcome(Low(o.e), LowPs(o.out), o.up)
  }

  function LowW<T>(w: World<T>): World<T> {
    World(Low(w.a), Low(w.b), LowPs(w.ab), LowPs(w.ba), w.fromA, w.fromB)
  }

  function LowV<T>(v: View<T>): View<T> {
    v.(me := Low(v.me), inc := LowPs(v.inc), out := LowPs(v.out))
  }

  /* ----- checks ----- */

  lemma ModShift(a: int, k: int)
    ensures (a + k * U32) % U32 == a % U32
  {
  }

  lemma SameDiff(a: int, b: int)
    ensures Diff32(a % U32, b % U32) == Diff32(a, b)
    ensures Diff32(a % U32, b) == Diff32(a, b)
    ensures Diff32(a, b % U32) == Diff32(a, b)
  {
    ModShift(a - b, -(a / U32));
    ModShift(a - b, b / U32);
    ModShift(a - b, b / U32 - a / U32);
    assert a % U32 == a - (a / U32) * U32 && b % U32 == b - (b / U32) * U32;
  }

  lemma {:induction false} SameChecks<M>(e: Endpoint<M>, p: Packet<M>)
    ensures SnInSeq(Low(e), LowP(p)) == SnInSeq(e, p)
    ensures SnRangeValid(Low(e), LowP(p)) == SnRangeValid(e, p)
    ensures CsValid(Low(e), LowP(p)) == CsValid(e, p)
  {
    SameDiff(e.snR, p.sn);
    SameDiff(p.sn, e.snR);
    SameDiff(p.cs, e.csR);
    SameDiff(e.snT, e.csR);
  }

  /* ----- building blocks ----- */

  lemma LowPsAppend<M>(ps: seq<Packet<M>>, qs: seq<Packet<M>>)
    ensures LowPs(ps + qs) == LowPs(ps) + LowPs(qs)
  {
  }

  lemma LowEmit<M>(o: Outcome<M>, k: Kind, msgs: seq<M>)
    ensures LowO(Emit(o, k, msgs, Exact)) == Emit(LowO(o), k, msgs, Wrapped)
  {
    var p := Packet(k, o.e.snT, o.e.csT, msgs);
    LowPsAppend(o.out, [p]);
    assert LowPs([p]) == [LowP(p)];
    assert (o.e.snT + 1) % U32 == (o.e.snT % U32 + 1) % U32;
  }

  lemma LowClose<M>(o: Outcome<M>)
    ensures LowO(EmitDisconnect(o)) == EmitDisconnect(LowO(o))
    ensures LowO(Close(o)) == Close(LowO(o))
  {
    var p := Packet(DiscReq, o.e.snT, o.e.csT, []);
    LowPsAppend(o.out, [p]);
    assert LowPs([p]) == [LowP(p)];
  }

  lemma LowTake<M>(o: Outcome<M>, p: Packet<M>)
    ensures LowO(TakeNumber(o, p, Exact)) == TakeNumber(LowO(o), LowP(p), Wrapped)
  {
    assert (p.sn + 1) % U32 == (p.sn % U32 + 1) % U32;
  }

  lemma LowConfirm<M>(o: Outcome<M>, n: int)
    ensures LowO(Confirm(o, n - 1)) == Confirm(LowO(o), (n % U32 - 1) % U32)
  {
    assert (n - 1) % U32 == (n % U32 - 1) % U32;
  }

  lemma {:induction false} LowRemove<M>(q: seq<Entry<M>>, c: int)
    ensures LowEs(RemoveConfirmed(q, c)) == RemoveConfirmed(LowEs(q), c % U32)
  {
    if q != [] {
      SameDiff(q[0].sn, c);
      assert LowEs(q)[1..] == LowEs(q[1..]);
      LowRemove(q[1..], c);
    }
  }

  lemma LowTrim<M>(o: Outcome<M>, c: int)
    ensures LowO(ConfirmAndTrim(o, c)) == ConfirmAndTrim(LowO(o), c % U32)
  {
    LowRemove(o.e.retr, c);
  }

  lemma LowPush<M>(q: seq<Entry<M>>, e: Entry<M>)
    ensures LowEs(Push(q, e, MAX_QUEUE_SIZE)) == Push(LowEs(q), LowE(e), MAX_QUEUE_SIZE)
  {
  }

  lemma {:induction false} LowRetransmitAll<M>(o: Outcome<M>, q: seq<Entry<M>>)
    ensures LowO(RetransmitAll(o, q, Exact)) == RetransmitAll(LowO(o), LowEs(q), Wrapped)
    decreases |q|
  {
    if q != [] {
      var x := Entry(o.e.snT, q[0].msgs);
      LowPush(o.e.retr, x);
      var queued := o.(e := o.e.(retr := Push(o.e.retr, x, MAX_QUEUE_SIZE)));
      LowEmit(queued, RetrData, q[0].msgs);
      assert LowEs(q)[1..] == LowEs(q[1..]);
      LowRetransmitAll(Emit(queued, RetrData, q[0].msgs, Exact), q[1..]);
    }
  }

  lemma LowRetransmit<M>(o: Outcome<M>)
    ensures LowO(RetransmitData(o, Exact)) == RetransmitData(LowO(o), Wrapped)
  {
    var cleared := o.(e := o.e.(retr := []));
    assert LowO(cleared) == LowO(o).(e := LowO(o).e.(retr := []));
    LowRetransmitAll(cleared, o.e.retr);
    LowEmit(RetransmitAll(cleared, o.e.retr, Exact), Heartbeat, []);
  }

  /* ----- handlers ----- */

  lemma LowHeartbeat<M>(e: Endpoint<M>, p: Packet<M>, cts: bool)
    ensures LowO(HandleHeartbeat(e, p, cts, Exact)) == HandleHeartbeat(Low(e), LowP(p), cts, Wrapped)
  {
    SameChecks(e, p);
    LowClose(Start(e));
    LowTake(Start(e), p);
    LowConfirm(TakeNumber(Start(e), p, Exact), e.snT);
  }

  lemma LowRequest<M>(e: Endpoint<M>)
    ensures LowO(RequestRetransmission(Start(e), Exact)) == RequestRetransmission(Start(Low(e)), Wrapped)
  {
    LowEmit(Start(e), RetrReq, []);
  }

  lemma {:induction false} LowData<M>(e: Endpoint<M>, p: Packet<M>, cts: bool)
    ensures LowO(HandleData(e, p, cts, Exact)) == HandleData(Low(e), LowP(p), cts, Wrapped)
  {
    SameChecks(e, p);
    LowClose(Start(e));
    LowRequest(e);
    LowTake(Start(e), p);
    LowTake(AddToBuffer(Start(e), p.msgs), p);
    LowTrim(TakeNumber(AddToBuffer(Start(e), p.msgs), p, Exact), p.cs);
  }

  lemma LowRetrData<M>(e: Endpoint<M>, p: Packet<M>, cts: bool)
    ensures LowO(HandleRetrData(e, p, cts, Exact)) == HandleRetrData(Low(e), LowP(p), cts, Wrapped)
  {
    SameChecks(e, p);
    LowClose(Start(e));
    LowRequest(e);
    LowTake(AddToBuffer(Start(e), p.msgs), p);
  }

  lemma LowApplyRequest<M>(e: Endpoint<M>, p: Packet<M>)
    ensures LowO(ApplyRequest(e, p, Exact)) == ApplyRequest(Low(e), LowP(p), Wrapped)
  {
    SameChecks(e, p);
    var o := Start(e);
    LowClose(o);
    var o1 := if e.state.Running? then Close(o) else o;
    LowTake(o1, p);
    LowTrim(TakeNumber(o1, p, Exact), p.cs);
    LowTrim(o, p.cs);
  }

  lemma LowRetrReq<M>(e: Endpoint<M>, p: Packet<M>)
    ensures LowO(HandleRetrReq(e, p, Exact)) == HandleRetrReq(Low(e), LowP(p), Wrapped)
  {
    SameChecks(e, p);
    LowApplyRequest(e, p);
    LowEmit(ApplyRequest(e, p, Exact), RetrResp, []);
    LowRetransmit(Emit(ApplyRequest(e, p, Exact), RetrResp, [], Exact));
  }

  lemma LowRetrResp<M>(e: Endpoint<M>, p: Packet<M>)
    ensures LowO(HandleRetrResp(e, p, Exact)) == HandleRetrResp(Low(e), LowP(p), Wrapped)
  {
    LowClose(Start(e));
    LowTake(Start(e), p);
    LowConfirm(TakeNumber(Start(e), p, Exact), e.snT);
  }

  lemma {:induction false} LowReceive<M>(e: Endpoint<M>, p: Packet<M>, cts: bool)
    ensures LowO(Receive(e, p, cts, Exact)) == Receive(Low(e), LowP(p), cts, Wrapped)
  {
    SameChecks(e, p);
    LowHeartbeat(e, p, cts);
    LowData(e, p, cts);
    LowRetrData(e, p, cts);
    LowRetrReq(e, p);
    LowRetrResp(e, p);
  }

  lemma LowSend<M>(e: Endpoint<M>)
    ensures LowO(SendStep(e, Exact)) == SendStep(Low(e), Wrapped)
  {
    if !e.state.Closed? && |e.retr| <= e.cfg.maxPacket && e.send != [] {
      var n := if |e.send| >= e.cfg.maxPacket then e.cfg.maxPacket else |e.send|;
      var x := Entry(e.snT, e.send[..n]);
      LowPush(e.retr, x);
      var e1 := e.(send := e.send[n..], retr := Push(e.retr, x, MAX_QUEUE_SIZE));
      LowEmit(Start(e1), Data, e.send[..n]);
    }
  }

  lemma LowPerformed<T>(v: View<T>, act: Action<T>)
    ensures LowO(Performed(v, act, Exact)) == Performed(LowV(v), act, Wrapped)
  {
    match act
    case Submitting(bodies) => LowClose(Start(v.me));
    case Sending => LowSend(v.me);
    case Beating(expired, due) =>
      LowClose(Start(v.me));
      var o := if expired then Close(Start(v.me)) else Start(v.me);
      LowEmit(o, Heartbeat, []);
    case Disconnecting => LowClose(Start(v.me));
    case Receiving(cts) =>
      if v.inc != [] {
        LowReceive(v.me, v.inc[0], cts);
      }
    case Fetching =>
  }

  /* ----- runs ----- */

  lemma LowActOn<T>(v: View<T>, act: Action<T>)
    ensures LowV(ActOn(v, act, Exact)) == ActOn(LowV(v), act, Wrapped)
  {
    LowPerformed(v, act);
    LowPsAppend(v.out, Performed(v, act, Exact).out);
    assert v.inc != [] ==> LowPs(v.inc)[1..] == LowPs(v.inc[1..]);
  }

  lemma LowViews<T>(w: World<T>, s: Side, v: View<T>)
    ensures LowV(ViewOf(w, s)) == ViewOf(LowW(w), s) && LowW(Update(w, s, v)) == Update(LowW(w), s, LowV(v))
  {
    hide LowPs, Low;
  }

  lemma LowWithout<M>(ps: seq<Packet<M>>, i: nat)
    ensures LowPs(Without(ps, i)) == Without(LowPs(ps), i)
  {
  }

  lemma {:induction false} LowStep<T>(w: World<T>, ev: Event<T>)
    ensures LowW(Step(w, ev, Exact)) == Step(LowW(w), ev, Wrapped)
  {
    hide LowPs, Low, Without, ActOn;
    match ev
    case Loss(_, i) =>
      LowWithout(w.ab, i);
      LowWithout(w.ba, i);
    case Act(s, act) =>
      hide LowW, LowV, ViewOf, Update;
      LowActOn(ViewOf(w, s), act);
      LowViews(w, s, ActOn(ViewOf(w, s), act, Exact));
  }

  /** Running the 32-bit machine and projecting the unbounded run agree, always. */
  lemma {:induction false} LowRun<T>(w: World<T>, evs: seq<Event<T>>)
    ensures LowW(Run(w, evs, Exact)) == Run(LowW(w), evs, Wrapped)
    decreases |evs|
  {
    if evs != [] {
      var init := evs[..|evs| - 1];
      LowRun(w, init);
      LowStep(Run(w, init, Exact), evs[|evs| - 1]);
    }
  }

  lemma LowEstablished<T>(client: Config, server: Config, x: int, y: int)
    requires 0 <= x < U32 && 0 <= y < U32
    ensures LowW<T>(Established(client, server, x, y, Exact)) == Established(client, server, x, y, Wrapped)
  {
  }

  /** The end-to-end result for the program's 32-bit counters, across any
      number of wraparounds: handed-up messages are a subsequence of the
      submitted ones, for both directions, whatever is lost and however often
      retransmission happens, as long as requests are answered cleanly. */
  lemma {:induction false} EndToEnd32<T(!new)>(client: Config, server: Config, x: int, y: int, evs: seq<Event<T>>)
    requires 0 <= x < U32 && 0 <= y < U32
    requires RunClean(Established(client, server, x, y, Exact), evs)
    ensures var w := Run(Established(client, server, x, y, Wrapped), evs, Wrapped);
            && IsSubsequence(Bodies(w.fromA.handed), w.fromA.submitted)
            && IsSubsequence(Bodies(w.fromB.handed), w.fromB.submitted)
  {
    EndToEnd(client, server, x, y, evs);
    LowEstablished<T>(client, server, x, y);
    LowRun(Established<T>(client, server, x, y, Exact), evs);
  }

  lemma LowMe<T>(w: World<T>, s: Side)
    ensures Me(LowW(w), s) == Low(Me(w, s))
  {
  }

  lemma SameSuccessor<M>(e: Endpoint<M>)
    requires e.snR == e.csT + 1
    ensures Low(e).snR == (Low(e).csT + 1) % U32
  {
    ModShift(e.csT + 1, -(e.csT / U32));
  }

  /** The 32-bit counters stand for unbounded ones: T = snT and C = csR of the
      unbounded run, with C < T, never decreasing, and sn_r = cs_t + 1 modulo 2^32. */
  lemma {:induction false} Counters32<T>(client: Config, server: Config, x: int, y: int, evs: seq<Event<T>>, s: Side)
    requires 0 <= x < U32 && 0 <= y < U32
    requires RunInWindow(Established(client, server, x, y, Exact), evs)
    ensures var e := Me(Run(Established(client, server, x, y, Exact), evs, Exact), s);
            var c := Me(Run(Established(client, server, x, y, Wrapped), evs, Wrapped), s);
            && e.csR < e.snT
            && c.snT == e.snT % U32 && c.csR == e.csR % U32
            && c.snR == (c.csT + 1) % U32
  {
    hide Run, Established, RunInWindow, InWindow, Inv;
    var w0 := Established<T>(client, server, x, y, Exact);
    EstablishedInv<T>(client, server, x, y);
    CountersAdvance(w0, evs, s);
    LowEstablished<T>(client, server, x, y);
    LowRun(w0, evs);
    LowMe(Run(w0, evs, Exact), s);
    SameSuccessor(Me(Run(w0, evs, Exact), s));
  }

  /* ----- numbers on the wire ----- */

  lemma {:induction false} NumberingLow<M>(os: seq<Packet<M>>)
    ensures |Numbering(LowPs(os))| == |Numbering(os)|
    ensures forall i :: 0 <= i < |Numbering(os)| ==> Numbering(LowPs(os))[i] == Numbering(os)[i] % U32
  {
    if os != [] {
      assert LowPs(os)[1..] == LowPs(os[1..]);
      NumberingLow(os[1..]);
    }
  }

  lemma {:induction false} LowSentIn<T>(w: World<T>, ev: Event<T>, s: Side)
    ensures LowPs(SentIn(w, ev, s, Exact)) == SentIn(LowW(w), ev, s, Wrapped)
  {
    if ev.Act? && ev.side == s {
      LowActOn(ViewOf(w, s), ev.action);
    }
  }

  lemma {:induction false} LowSent<T>(w: World<T>, evs: seq<Event<T>>, s: Side)
    ensures LowPs(Sent(w, evs, s, Exact)) == Sent(LowW(w), evs, s, Wrapped)
    decreases |evs|
  {
    hide SentIn;
    if evs != [] {
      var init := evs[..|evs| - 1];
      LowSent(w, init, s);
      LowRun(w, init);
      LowSentIn(Run(w, init, Exact), evs[|evs| - 1], s);
      LowPsAppend(Sent(w, init, s, Exact), SentIn(Run(w, init, Exact), evs[|evs| - 1], s, Exact));
    }
  }

  /** The packets the program sends, disconnection requests aside, carry
      consecutive 32-bit numbers in every run, lost packets included. */
  lemma {:induction false} ConsecutiveNumbers32<T>(client: Config, server: Config, x: int, y: int, evs: seq<Event<T>>,
      s: Side)
    requires 0 <= x < U32 && 0 <= y < U32
    ensures var w0 := Established<T>(client, server, x, y, Wrapped);
            var ns := Numbering(Sent(w0, evs, s, Wrapped));
            forall i :: 0 <= i < |ns| ==> ns[i] == (Me(w0, s).snT + i) % U32
  {
    hide Sent, Run, LowPs, Numbering, Established, LowW, Me;
    var w0 := Established<T>(client, server, x, y, Exact);
    EstablishedBounded<T>(client, server, x, y, s);
    ConsecutiveNumbers(w0, evs, s);
    LowSent(w0, evs, s);
    NumberingLow(Sent(w0, evs, s, Exact));
    var ns := Numbering(LowPs(Sent(w0, evs, s, Exact)));
    forall i | 0 <= i < |ns| ensures ns[i] == (Me(LowW(w0), s).snT + i) % U32 {
      ModShift(Me(w0, s).snT % U32 + i, Me(w0, s).snT / U32);
    }
    LowEstablished<T>(client, server, x, y);
  }

  lemma EstablishedBounded<T>(client: Config, server: Config, x: int, y: int, s: Side)
    ensures var w0 := Established<T>(client, server, x, y, Exact);
            |Me(w0, s).retr| <= MAX_QUEUE_SIZE && Me(LowW(w0), s).snT == Me(w0, s).snT % U32
  {
  }
}
