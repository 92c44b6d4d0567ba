/** Two SR endpoints over two redundancy channels.

  Every run of this stack is a run of the two endpoints over links that lose
  packets. What holds there for every run holds over transport channels that
  lose, repeat, reorder and damage frames.
*/
module SrOverRedundancy {
  import opened Words
  import opened SrEndpoint
  import opened SrWorld
  import opened SrInvariant
  import opened SrSenderSteps
  import opened SrSafety
  import opened SrRefinement
  import opened SrTurn
  import opened Pipes

  /** Pipe ab carries what A sends and holds B's receive path. */
  datatype Stack<!T> = Stack(
    a: Endpoint<Stamped<T>>, b: Endpoint<Stamped<T>>,
    ab: Pipe<Packet<Stamped<T>>>, ba: Pipe<Packet<Stamped<T>>>,
    fromA: Ledger<T>, fromB: Ledger<T>)

  datatype Happening<T> = Carry(senderSide: Side, motion: Motion) | Do(side: Side, action: Action<T>)

  /** An endpoint sees the packets in its receive FIFO. */
  function Sees<T>(s: Stack<T>, side: Side): View<T> {
    if side.A? then View(s.a, Fifo(s.ba), [], s.fromA, s.fromB)
    else View(s.b, Fifo(s.ab), [], s.fromB, s.fromA)
  }

  function Did<T>(s: Stack<T>, side: Side, v: View<T>): Stack<T> {
    if side.A? then
      Stack(v.me, s.b, Give(s.ab, v.out), Left(s.ba, v.inc, |v.out|), v.mine, v.theirs)
    else
      Stack(s.a, v.me, Left(s.ab, v.inc, |v.out|), Give(s.ba, v.out), v.theirs, v.mine)
  }

  ghost predicate Ready<T>(s: Stack<T>) {
    Usable(s.ab) && Usable(s.ba)
  }

  ghost function Happens<T>(s: Stack<T>, h: Happening<T>, a: Arith): (s2: Stack<T>)
    requires Ready(s)
    ensures Ready(s2)
  {
    match h
    case Carry(from, m) => if from.A? then s.(ab := Move(s.ab, m)) else s.(ba := Move(s.ba, m))
    case Do(side, act) => Did(s, side, ActOn(Sees(s, side), act, a))
  }

  ghost function History<T>(s: Stack<T>, hs: seq<Happening<T>>, a: Arith): (s2: Stack<T>)
    requires Ready(s)
    ensures Ready(s2)
    decreases |hs|
  {
    if hs == [] then s else Happens(History(s, hs[..|hs| - 1], a), hs[|hs| - 1], a)
  }

  /** The two endpoints and what may still be read on either side. */
  function Flat<T>(s: Stack<T>): World<T> {
    World(s.a, s.b, Wire(s.ab), Wire(s.ba), s.fromA, s.fromB)
  }

  /** A timeout on a queue as written finds no slot number below the expected one. */
  ghost predicate Allowed<T>(s: Stack<T>, h: Happening<T>) {
    h.Carry? ==> Harmless(if h.senderSide.A? then s.ab else s.ba, h.motion)
  }

  ghost predicate AllAllowed<T>(s: Stack<T>, hs: seq<Happening<T>>, a: Arith)
    requires Ready(s)
  {
    forall k :: 0 <= k < |hs| ==> Allowed(History(s, hs[..k], a), hs[k])
  }

  lemma AllowedBefore<T>(s: Stack<T>, hs: seq<Happening<T>>, a: Arith)
    requires Ready(s) && hs != [] && AllAllowed(s, hs, a)
    ensures AllAllowed(s, hs[..|hs| - 1], a) && Allowed(History(s, hs[..|hs| - 1], a), hs[|hs| - 1])
  {
    hide History, Allowed;
    var init := hs[..|hs| - 1];
    assert forall k :: 0 <= k < |init| ==> init[..k] == hs[..k] && init[k] == hs[k];
  }

  function SentBy<T>(s: Stack<T>, side: Side): seq<Packet<Stamped<T>>> {
    if side.A? then Frames(s.ab) else Frames(s.ba)
  }

  ghost predicate Steady<T(!new)>(s: Stack<T>) {
    InTurn(s.ab) && InTurn(s.ba)
  }

  /* ----- reaching a world ----- */

  /** Some run leads from w0 to w, in which A sends n packets and B m. */
  ghost predicate Reaches<T(!new)>(w0: World<T>, w: World<T>, n: nat, m: nat, a: Arith) {
    exists evs: seq<Event<T>> :: Run(w0, evs, a) == w && |Sent(w0, evs, A, a)| == n && |Sent(w0, evs, B, a)| == m
  }

  lemma OneMore<T(!new)>(w0: World<T>, w: World<T>, n: nat, m: nat, ev: Event<T>, a: Arith)
    requires Reaches(w0, w, n, m, a)
    ensures Reaches(w0, Step(w, ev, a), n + |SentIn(w, ev, A, a)|, m + |SentIn(w, ev, B, a)|, a)
  {
    hide Step, SentIn;
    var evs: seq<Event<T>> :| Run(w0, evs, a) == w && |Sent(w0, evs, A, a)| == n && |Sent(w0, evs, B, a)| == m;
    var more := evs + [ev];
    assert more[..|more| - 1] == evs && more[|more| - 1] == ev;
    assert Run(w0, more, a) == Step(w, ev, a);
  }

  function OnWire<T>(w: World<T>, from: Side, q: seq<Packet<Stamped<T>>>): World<T> {
    if from.A? then w.(ab := q) else w.(ba := q)
  }

  /** Taking packets away is losing them one by one. */
  lemma {:induction false} ThinnerIsReached<T(!new)>(
      w0: World<T>, w: World<T>, from: Side, q: seq<Packet<Stamped<T>>>, q2: seq<Packet<Stamped<T>>>,
      n: nat, m: nat, a: Arith)
    requires Reaches(w0, OnWire(w, from, q), n, m, a) && Thins(q, q2)
    ensures Reaches(w0, OnWire(w, from, q2), n, m, a)
    decreases |q|
  {
    hide Reaches;
    if q != q2 {
      var i :| 0 <= i < |q| && Thins(Without(q, i), q2);
      OneMore(w0, OnWire(w, from, q), n, m, Loss(from, i), a);
      assert Step(OnWire(w, from, q), Loss(from, i), a) == OnWire(w, from, Without(q, i));
      ThinnerIsReached(w0, w, from, Without(q, i), q2, n, m, a);
    }
  }

  /* ----- one happening ----- */

  /** An endpoint that sees only the front of its wire acts as if it saw all. */
  lemma ActsOnFront<T>(v: View<T>, rest: seq<Packet<Stamped<T>>>, o: seq<Packet<Stamped<T>>>, act: Action<T>, a: Arith)
    requires v.out == [] && (act.Receiving? && v.inc == [] ==> rest == [])
    ensures var v2 := ActOn(v, act, a);
            ActOn(v.(inc := v.inc + rest, out := o), act, a) == v2.(inc := v2.inc + rest, out := o + v2.out)
  {
    hide Submit, SendStep, HeartbeatStep, Disconnect, Receive, Fetch;
    if v.inc != [] {
      assert (v.inc + rest)[1..] == v.inc[1..] + rest;
    }
  }

  /** A receive thread that finds its FIFO empty does nothing. */
  lemma NothingToRead<T>(v: View<T>, act: Action<T>, a: Arith)
    requires act.Receiving? && v.inc == []
    ensures ActOn(v, act, a) == v
  {
  }

  lemma LeftReads<P(!new)>(p: Pipe<P>, fifo: seq<P>, n: nat)
    requires InTurn(p)
    ensures InTurn(Left(p, fifo, n)) && Frames(Left(p, fifo, n)) == Frames(p)
    ensures Wire(Left(p, fifo, n)) == fifo + Rest(Frames(p), Next(p))
  {
    LeftSound(p, fifo, n);
    hide Sound;
  }

  /** The pipes after an action: one has more frames, the other a new FIFO. */
  lemma DidSteady<T(!new)>(s: Stack<T>, side: Side, v: View<T>)
    requires Steady(s) && |SentBy(s, side)| + |v.out| <= U32
    ensures var s2 := Did(s, side, v);
            var w := Flat(s);
            && Steady(s2)
            && |SentBy(s2, A)| == |SentBy(s, A)| + (if side.A? then |v.out| else 0)
            && |SentBy(s2, B)| == |SentBy(s, B)| + (if side.B? then |v.out| else 0)
            && Flat(s2) == Update(w, side, v.(
                 inc := v.inc + (if side.A? then Rest(Frames(s.ba), Next(s.ba)) else Rest(Frames(s.ab), Next(s.ab))),
                 out := ViewOf(w, side).out + v.out))
  {
    if side.A? {
      GiveAppends(s.ab, v.out);
      LeftReads(s.ba, v.inc, |v.out|);
      assert Frames(Give(s.ab, v.out)) == Frames(s.ab) + v.out;
    } else {
      GiveAppends(s.ba, v.out);
      LeftReads(s.ab, v.inc, |v.out|);
      assert Frames(Give(s.ba, v.out)) == Frames(s.ba) + v.out;
    }
    hide InTurn, Wire, Give, Left, Frames, Rest, Next, Fifo;
  }

  ghost predicate Simulated<T(!new)>(w0: World<T>, s0: Stack<T>, s: Stack<T>, a: Arith) {
    && |SentBy(s0, A)| <= |SentBy(s, A)| && |SentBy(s0, B)| <= |SentBy(s, B)|
    && Reaches(w0, Flat(s), |SentBy(s, A)| - |SentBy(s0, A)|, |SentBy(s, B)| - |SentBy(s0, B)|, a)
  }

  lemma DidSends<T>(s: Stack<T>, side: Side, v: View<T>)
    ensures |SentBy(Did(s, side, v), side)| == |SentBy(s, side)| + |v.out|
  {
  }

  lemma ActSends<T>(w: World<T>, side: Side, act: Action<T>, out: seq<Packet<Stamped<T>>>, a: Arith)
    requires ActOn(ViewOf(w, side), act, a).out == ViewOf(w, side).out + out
    ensures |SentIn(w, Act(side, act), A, a)| == if side.A? then |out| else 0
    ensures |SentIn(w, Act(side, act), B, a)| == if side.B? then |out| else 0
  {
    hide ActOn;
  }

  lemma DoSimulates<T(!new)>(w0: World<T>, s0: Stack<T>, s: Stack<T>, side: Side, act: Action<T>, a: Arith)
    requires Steady(s) && Simulated(w0, s0, s, a) && Ready(s)
    requires var s2 := Happens(s, Do(side, act), a);
             |SentBy(s2, A)| <= U32 && |SentBy(s2, B)| <= U32
    ensures Steady(Happens(s, Do(side, act), a)) && Simulated(w0, s0, Happens(s, Do(side, act), a), a)
  {
    hide InTurn, Give, Left, Frames, Rest, Next, Fifo, ActOn, Reaches, SentIn;
    var v := Sees(s, side);
    var v2 := ActOn(v, act, a);
    var rest := if side.A? then Rest(Frames(s.ba), Next(s.ba)) else Rest(Frames(s.ab), Next(s.ab));
    var w := Flat(s);
    var s2 := Did(s, side, v2);
    DidSends(s, side, v2);
    DidSteady(s, side, v2);
    assert ViewOf(w, side) == v.(inc := v.inc + rest, out := ViewOf(w, side).out);
    hide Wire;
    if act.Receiving? && v.inc == [] {
      NothingToRead(v, act, a);
      assert Flat(s2) == w;
    } else {
      ActsOnFront(v, rest, ViewOf(w, side).out, act, a);
      ActSends(w, side, act, v2.out, a);
      OneMore(w0, w, |SentBy(s, A)| - |SentBy(s0, A)|, |SentBy(s, B)| - |SentBy(s0, B)|, Act(side, act), a);
      assert Flat(s2) == Step(w, Act(side, act), a);
    }
  }

  lemma CarrySimulates<T(!new)>(w0: World<T>, s0: Stack<T>, s: Stack<T>, from: Side, m: Motion, a: Arith)
    requires Steady(s) && Simulated(w0, s0, s, a) && Ready(s) && Allowed(s, Carry(from, m))
    ensures Steady(Happens(s, Carry(from, m), a)) && Simulated(w0, s0, Happens(s, Carry(from, m), a), a)
  {
    hide InTurn, Wire, Move, Thins, Reaches;
    MoveThins(if from.A? then s.ab else s.ba, m);
    var s2 := Happens(s, Carry(from, m), a);
    var n, k := |SentBy(s, A)| - |SentBy(s0, A)|, |SentBy(s, B)| - |SentBy(s0, B)|;
    hide Frames;
    if from.A? {
      assert Flat(s) == OnWire(Flat(s), A, Wire(s.ab)) && Flat(s2) == OnWire(Flat(s), A, Wire(s2.ab));
      ThinnerIsReached(w0, Flat(s), A, Wire(s.ab), Wire(s2.ab), n, k, a);
    } else {
      assert Flat(s) == OnWire(Flat(s), B, Wire(s.ba)) && Flat(s2) == OnWire(Flat(s), B, Wire(s2.ba));
      ThinnerIsReached(w0, Flat(s), B, Wire(s.ba), Wire(s2.ba), n, k, a);
    }
  }

  lemma HappensGrows<T>(s: Stack<T>, h: Happening<T>, a: Arith)
    requires Ready(s)
    ensures var s2 := Happens(s, h, a);
            |SentBy(s, A)| <= |SentBy(s2, A)| && |SentBy(s, B)| <= |SentBy(s2, B)|
  {
    hide ActOn;
  }

  lemma {:induction false} StartSimulates<T(!new)>(s: Stack<T>, a: Arith)
    ensures Simulated(Flat(s), s, s, a)
  {
    var none: seq<Event<T>> := [];
    assert Run(Flat(s), none, a) == Flat(s);
  }

  /** Every run of the stack is, for the endpoints, a run over links that only
      lose packets, as long as no frame number stands for two frames. */
  lemma {:induction false} StackSimulates<T(!new)>(s0: Stack<T>, hs: seq<Happening<T>>, a: Arith)
    requires Steady(s0) && Ready(s0) && AllAllowed(s0, hs, a)
    requires |SentBy(History(s0, hs, a), A)| <= U32 && |SentBy(History(s0, hs, a), B)| <= U32
    ensures Steady(History(s0, hs, a)) && Simulated(Flat(s0), s0, History(s0, hs, a), a)
    decreases |hs|
  {
    hide Happens, Steady, Simulated, SentBy, Ready, Allowed;
    if hs == [] {
      StartSimulates(s0, a);
    } else {
      var init, h := hs[..|hs| - 1], hs[|hs| - 1];
      var s := History(s0, init, a);
      HappensGrows(s, h, a);
      AllowedBefore(s0, hs, a);
      StackSimulates(s0, init, a);
      match h
      case Carry(from, m) => CarrySimulates(Flat(s0), s0, s, from, m, a);
      case Do(side, act) => DoSimulates(Flat(s0), s0, s, side, act, a);
    }
  }

  /* ----- numbers and frames ----- */

  /** A side without a channel is closed and uses up no more numbers. */
  ghost predicate CountsFrames<T>(e0: Endpoint<Stamped<T>>, e: Endpoint<Stamped<T>>, sent: nat) {
    && |e.retr| <= MAX_QUEUE_SIZE
    && (e.attached ==> e.snT <= e0.snT + sent)
    && (!e.attached ==> e.state.Closed? && e.snT <= e0.snT + sent + MAX_QUEUE_SIZE + 2)
  }

  lemma ReceiveAddsFew<M>(e: Endpoint<M>, p: Packet<M>, cts: bool)
    requires |e.retr| <= MAX_QUEUE_SIZE && e.attached
    ensures var o := Receive(e, p, cts, Exact);
            o.e.snT <= e.snT + MAX_QUEUE_SIZE + 2 && (!o.e.attached ==> o.e.state.Closed?)
  {
    hide HandleRetrReq, RemoveConfirmed, SnInSeq, SnRangeValid, CsValid, Resent, Renumbered, PushAll;
    var k := RemoveConfirmedSuffix(e.retr, p.cs);
    HandleRetrReqIs(e, p);
  }

  lemma PerformedAddsFew<T>(v: View<T>, act: Action<T>)
    requires |v.me.retr| <= MAX_QUEUE_SIZE
    ensures var o := Performed(v, act, Exact);
            && (v.me.attached ==> o.e.snT <= v.me.snT + MAX_QUEUE_SIZE + 2 && (!o.e.attached ==> o.e.state.Closed?))
            && (!v.me.attached && v.me.state.Closed? ==> o.e.snT == v.me.snT && o.e.state.Closed? && !o.e.attached)
  {
    if act.Receiving? && v.inc != [] && v.me.attached {
      ReceiveAddsFew(v.me, v.inc[0], act.ctsInSeq);
      hide Receive;
    }
  }

  lemma StepCounts<T>(e0: Endpoint<Stamped<T>>, w: World<T>, ev: Event<T>, s: Side, sent: nat)
    requires CountsFrames(e0, Me(w, s), sent)
    ensures CountsFrames(e0, Me(Step(w, ev, Exact), s), sent + |SentIn(w, ev, s, Exact)|)
  {
    StepBounded(w, ev, s);
    StepUsesNumbers(w, ev, s);
    if ev.Act? && ev.side == s {
      PerformedAddsFew(ViewOf(w, s), ev.action);
    }
    hide SentIn, Performed, From;
  }

  lemma {:induction false} RunCounts<T>(w: World<T>, evs: seq<Event<T>>, s: Side)
    requires |Me(w, s).retr| <= MAX_QUEUE_SIZE && Me(w, s).attached
    ensures CountsFrames(Me(w, s), Me(Run(w, evs, Exact), s), |Sent(w, evs, s, Exact)|)
    decreases |evs|
  {
    if evs != [] {
      hide Step, SentIn, Me, CountsFrames;
      var init := evs[..|evs| - 1];
      RunCounts(w, init, s);
      StepCounts(Me(w, s), Run(w, init, Exact), evs[|evs| - 1], s, |Sent(w, init, s, Exact)|);
    }
  }

  /* ----- end to end ----- */

  /** Every frame of the handshake has been taken over and read. */
  ghost predicate Read<P(!new)>(p: Pipe<P>) {
    InTurn(p) && Fifo(p) == [] && Next(p) == |Frames(p)|
  }

  ghost predicate Connected<T(!new)>(s: Stack<T>, client: Config, server: Config, x: int, y: int) {
    var w := Established<T>(client, server, x, y, Wrapped);
    && Read(s.ab) && Read(s.ba)
    && s.a == w.a && s.b == w.b && s.fromA == w.fromA && s.fromB == w.fromB
  }

  lemma ConnectedIsEstablished<T(!new)>(s: Stack<T>, client: Config, server: Config, x: int, y: int)
    requires Connected(s, client, server, x, y)
    ensures Ready(s) && Steady(s) && Flat(s) == Established(client, server, x, y, Wrapped)
  {
    hide Sound;
  }

  lemma LowSentLength<T>(client: Config, server: Config, x: int, y: int, evs: seq<Event<T>>, s: Side)
    requires 0 <= x < U32 && 0 <= y < U32
    ensures |Sent(Established<T>(client, server, x, y, Exact), evs, s, Exact)|
            == |Sent(Established<T>(client, server, x, y, Wrapped), evs, s, Wrapped)|
  {
    LowEstablished<T>(client, server, x, y);
    LowSent(Established<T>(client, server, x, y, Exact), evs, s);
  }

  /** A bound on the packets sent keeps a run within one turn of numbers. */
  lemma FewFramesOneTurn<T(!new)>(client: Config, server: Config, x: int, y: int, evs: seq<Event<T>>)
    requires 0 <= x < U32 && 0 <= y < U32
    requires var w := Established<T>(client, server, x, y, Wrapped);
             |Sent(w, evs, A, Wrapped)| + 14 <= U32 && |Sent(w, evs, B, Wrapped)| + 14 <= U32
    ensures OneTurn(client, server, x, y, evs)
  {
    var w0 := Established<T>(client, server, x, y, Exact);
    LowSentLength(client, server, x, y, evs, A);
    LowSentLength(client, server, x, y, evs, B);
    RunCounts(w0, evs, A);
    RunCounts(w0, evs, B);
    hide Run, Sent;
  }

  /** The end-to-end result over transport channels that lose, repeat, reorder
      and damage frames: as long as neither redundancy channel has sent 2^32 - 14
      frames, messages arrive in order and none twice. */
  lemma EndToEndOverChannels<T(!new)>(
      s: Stack<T>, client: Config, server: Config, x: int, y: int, hs: seq<Happening<T>>)
    requires 0 <= x < U32 && 0 <= y < U32
    requires Connected(s, client, server, x, y) && Ready(s) && AllAllowed(s, hs, Wrapped)
    requires |SentBy(History(s, hs, Wrapped), A)| + 14 <= U32 && |SentBy(History(s, hs, Wrapped), B)| + 14 <= U32
    ensures var s2 := History(s, hs, Wrapped);
            && IsSubsequence(Bodies(s2.fromA.handed), s2.fromA.submitted)
            && IsSubsequence(Bodies(s2.fromB.handed), s2.fromB.submitted)
  {
    hide History, AllAllowed, Connected, OneTurn, Steady;
    ConnectedIsEstablished(s, client, server, x, y);
    StackSimulates(s, hs, Wrapped);
    var s2 := History(s, hs, Wrapped);
    var w0 := Established<T>(client, server, x, y, Wrapped);
    hide Run, Sent, Established, IsSubsequence;
    var evs: seq<Event<T>> :| Run(w0, evs, Wrapped) == Flat(s2)
      && |Sent(w0, evs, A, Wrapped)| == |SentBy(s2, A)| - |SentBy(s, A)|
      && |Sent(w0, evs, B, Wrapped)| == |SentBy(s2, B)| - |SentBy(s, B)|;
    FewFramesOneTurn(client, server, x, y, evs);
    EndToEndOneTurn(client, server, x, y, evs);
  }
}
