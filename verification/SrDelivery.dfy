/** Exactly once: what a drained direction has handed up is what was accepted. */
module SrDelivery {
  import opened Words
  import opened SrEndpoint
  import opened SrWorld
  import opened SrInvariant
  import opened SrSender
  import opened SrSenderSteps
  import opened SrReceiver
  import opened SrReceiverSteps
  import opened SrSafety
  import opened SrConservation
  import opened SrRefinement

  /* ----- nothing comes from nowhere ----- */

  ghost predicate AllIn<T>(ms: seq<Stamped<T>>, acc: seq<Stamped<T>>) {
    forall m :: m in ms ==> m in acc
  }

  /** Every message of this direction was accepted. */
  ghost predicate FromAccepted<T>(h: Half<T>, acc: seq<Stamped<T>>) {
    && AllIn(h.led.handed, acc) && AllIn(h.x.send, acc)
    && (forall k :: 0 <= k < |h.x.retr| ==> AllIn(h.x.retr[k].msgs, acc))
    && (forall i :: 0 <= i < |h.link| ==> AllIn(h.link[i].msgs, acc))
  }

  lemma QuietFrom<T>(h: Half<T>, h2: Half<T>, k: nat, os: seq<Packet<Stamped<T>>>, more: seq<Stamped<T>>,
      acc: seq<Stamped<T>>)
    requires QuietStep(h, h2, k, os, more) && FromAccepted(h, acc)
    ensures FromAccepted(h2, acc + more)
  {
    assert forall ms: seq<Stamped<T>> :: AllIn(ms, acc) ==> AllIn(ms, acc + more);
  }

  lemma DataFrom<T>(h: Half<T>, h2: Half<T>, n: nat, acc: seq<Stamped<T>>)
    requires DataStep(h, h2, n) && FromAccepted(h, acc)
    ensures FromAccepted(h2, acc)
  {
    assert h.x.send == h.x.send[..n] + h.x.send[n..];
    assert AllIn(h.x.send[..n], acc) && AllIn(h.x.send[n..], acc);
  }

  lemma AnswerFrom<T>(h: Half<T>, h2: Half<T>, k: nat, cs: int, acc: seq<Stamped<T>>)
    requires RespondStep(h, h2, k, cs) && FromAccepted(h, acc)
    ensures FromAccepted(h2, acc)
  {
    hide AllIn;
    assert AllIn([], acc) by {
      NoneIn(acc);
    }
  }

  lemma NoneIn<T>(acc: seq<Stamped<T>>)
    ensures AllIn([], acc)
  {
  }

  lemma MoveFrom<T>(h: Half<T>, h2: Half<T>, m: Move<T>, acc: seq<Stamped<T>>)
    requires Moves(h, h2, m) && FromAccepted(h, acc)
    ensures FromAccepted(h2, if m.Quieting? then acc + m.more else acc)
  {
    hide FromAccepted, QuietStep, DataStep, RespondStep, Trims;
    match m
    case Quieting(k, os, more) => QuietFrom(h, h2, k, os, more, acc);
    case Batching(n) => DataFrom(h, h2, n, acc);
    case Answering(os, k, cs) =>
      var hm := h.(link := h.link + os);
      QuietFrom(h, hm, 0, os, [], acc);
      assert acc + [] == acc;
      AnswerFrom(hm, h2, k, cs, acc);
  }

  lemma ReceptionFrom<T>(h: Half<T>, h2: Half<T>, r: Reception<T>, acc: seq<Stamped<T>>)
    requires Receives(h, h2, r) && FromAccepted(h, acc)
    ensures FromAccepted(h2, acc)
  {
    assert forall i :: 0 <= i < |h2.link| ==> h2.link[i] in h.link;
    if r.HandingUp? {
      assert AllIn(h.link[0].msgs, acc);
    }
  }

  lemma InvNumbers<T>(w: World<T>, s: Side)
    requires Inv(w)
    ensures var v, peer := ViewOf(w, s), if s.A? then w.b else w.a;
            Numbers(Outgoing(v, peer)) && Numbers(Incoming(v, peer)) && |v.me.retr| <= MAX_QUEUE_SIZE
  {
    hide Numbers, Exclusive, Fresh, InOrder, Delivered;
  }

  lemma SenderFrom<T>(w: World<T>, act: Action<T>, s: Side, acc: seq<Stamped<T>>)
    requires Inv(w) && FromAccepted(HalfOf(w, s), acc)
    ensures FromAccepted(HalfOf(Step(w, Act(s, act), Exact), s), acc + AcceptedIn(w, Act(s, act), s))
  {
    var v := ViewOf(w, s);
    var peer := if s.A? then w.b else w.a;
    hide Inv, Numbers, FromAccepted, ActOn, Moves, AcceptedIn;
    InvNumbers(w, s);
    var v2 := ActOn(v, act, Exact);
    var m := SenderMoves(v, peer, act);
    MoveFrom(Outgoing(v, peer), Outgoing(v2, peer), m, acc);
    OwnAccepted(w, Act(s, act), s, m);
    MoreIsIn(Outgoing(v2, peer), m, acc, AcceptedIn(w, Act(s, act), s));
  }

  lemma ReceiverFrom<T>(w: World<T>, side: Side, act: Action<T>, s: Side, acc: seq<Stamped<T>>)
    requires Inv(w) && FromAccepted(HalfOf(w, s), acc) && side != s
    ensures FromAccepted(HalfOf(Step(w, Act(side, act), Exact), s), acc + AcceptedIn(w, Act(side, act), s))
  {
    var v := ViewOf(w, side);
    var peer := if side.A? then w.b else w.a;
    hide Inv, Numbers, FromAccepted, ActOn, Receives, Accounts;
    InvNumbers(w, side);
    var v2 := ActOn(v, act, Exact);
    var r := ReceiverMoves(v, peer, act);
    ReceptionFrom(Incoming(v, peer), Incoming(v2, peer), r, acc);
    assert acc + [] == acc;
  }

  lemma StepFrom<T>(w: World<T>, ev: Event<T>, s: Side, acc: seq<Stamped<T>>)
    requires Inv(w) && FromAccepted(HalfOf(w, s), acc)
    ensures FromAccepted(HalfOf(Step(w, ev, Exact), s), acc + AcceptedIn(w, ev, s))
  {
    hide Inv, FromAccepted, Step, AcceptedIn;
    match ev
    case Loss(side, i) => LossFrom(w, ev, s, acc);
    case Act(side, act) =>
      if side == s {
        SenderFrom(w, act, s, acc);
      } else {
        ReceiverFrom(w, side, act, s, acc);
      }
  }

  lemma LossFrom<T>(w: World<T>, ev: Event<T>, s: Side, acc: seq<Stamped<T>>)
    requires ev.Loss? && FromAccepted(HalfOf(w, s), acc)
    ensures FromAccepted(HalfOf(Step(w, ev, Exact), s), acc + AcceptedIn(w, ev, s))
  {
    var h, h2 := HalfOf(w, s), HalfOf(Step(w, ev, Exact), s);
    assert forall i :: 0 <= i < |h2.link| ==> h2.link[i] in h.link;
    assert acc + [] == acc;
  }

  /** Only a submission adds to the sending queue. */
  lemma OwnAccepted<T>(w: World<T>, ev: Event<T>, s: Side, m: Move<T>)
    requires ev.Act? && ev.side == s
    requires var v, peer := ViewOf(w, s), if s.A? then w.b else w.a;
             Moves(Outgoing(v, peer), Outgoing(ActOn(v, ev.action, Exact), peer), m)
             && (ev.action.Submitting? ==> m.Quieting?)
    ensures m.Quieting? ==> m.more == AcceptedIn(w, ev, s)
  {
    var v := ViewOf(w, s);
    if m.Quieting? {
      var q := ActOn(v, ev.action, Exact).me.send;
      assert q == v.me.send + m.more;
      assert q[|v.me.send|..] == m.more;
      if !ev.action.Submitting? {
        OthersAddNothing(v, ev.action);
        assert |q| <= |v.me.send|;
      }
    }
  }

  lemma OthersAddNothing<T>(v: View<T>, act: Action<T>)
    requires !act.Submitting?
    ensures |ActOn(v, act, Exact).me.send| <= |v.me.send|
  {
    if act.Receiving? && v.inc != [] {
      ReceiveSend(v.me, v.inc[0], act.ctsInSeq);
      hide Receive;
    }
  }

  lemma ReceiveSend<M>(e: Endpoint<M>, p: Packet<M>, cts: bool)
    ensures Receive(e, p, cts, Exact).e.send == e.send
  {
    AnswerKeeps(e, p, Exact);
    hide HandleRetrReq, SnInSeq, SnRangeValid, CsValid, RemoveConfirmed;
  }

  lemma MoreIsIn<T>(h: Half<T>, m: Move<T>, acc: seq<Stamped<T>>, more: seq<Stamped<T>>)
    requires FromAccepted(h, if m.Quieting? then acc + m.more else acc) && (m.Quieting? ==> m.more == more)
    ensures FromAccepted(h, acc + more)
  {
    assert forall ms: seq<Stamped<T>> :: AllIn(ms, acc) ==> AllIn(ms, acc + more);
  }

  lemma {:induction false} RunFrom<T>(w: World<T>, evs: seq<Event<T>>, s: Side)
    requires Inv(w) && RunClean(w, evs) && FromAccepted(HalfOf(w, s), [])
    ensures FromAccepted(HalfOf(Run(w, evs, Exact), s), Accepted(w, evs, s))
    decreases |evs|
  {
    hide Step, Inv, CleanStep, FromAccepted, AcceptedIn, HalfOf;
    if evs != [] {
      var init := evs[..|evs| - 1];
      assert forall k :: 0 <= k < |init| ==> init[..k] == evs[..k];
      RunFrom(w, init, s);
      RunKeeps(w, init);
      StepFrom(Run(w, init, Exact), evs[|evs| - 1], s, Accepted(w, init, s));
    }
  }

  /* ----- accepted messages are in order of rank ----- */

  ghost predicate Ranked<T>(acc: seq<Stamped<T>>, n: nat) {
    Sorted(acc) && Below(acc, n)
  }

  lemma StepRanked<T>(w: World<T>, ev: Event<T>, s: Side, acc: seq<Stamped<T>>)
    requires Ranked(acc, |HalfOf(w, s).led.submitted|)
    ensures Ranked(acc + AcceptedIn(w, ev, s), |HalfOf(Step(w, ev, Exact), s).led.submitted|)
  {
    var n := |HalfOf(w, s).led.submitted|;
    if ev.Act? && ev.side == s && ev.action.Submitting? {
      var v := ViewOf(w, s);
      var ms := Stamp(ev.action.bodies, n);
      var more := AcceptedIn(w, ev, s);
      var k := SubmitPrefix(v.me, ms);
      assert more == ms[..k];
      assert forall i :: 0 <= i < |more| ==> more[i].rank == n + i;
    } else {
      assert acc + [] == acc;
    }
  }

  lemma SubmitPrefix<M>(e: Endpoint<M>, ms: seq<M>) returns (k: nat)
    ensures k <= |ms| && Submit(e, ms).e.send == e.send + ms[..k]
    ensures Submit(e, ms).e.send[|e.send|..] == ms[..k]
  {
    k := 0;
    assert e.send + ms[..0] == e.send;
    if e.state.Up? && |ms| <= e.cfg.maxPacket {
      k := PushAllIs(e.send, ms, 2 * e.cfg.maxPacket);
    }
    assert (e.send + ms[..k])[|e.send|..] == ms[..k];
  }

  lemma {:induction false} RunRanked<T>(w: World<T>, evs: seq<Event<T>>, s: Side)
    ensures Ranked(Accepted(w, evs, s), |HalfOf(Run(w, evs, Exact), s).led.submitted|)
    decreases |evs|
  {
    hide Step, AcceptedIn, HalfOf;
    if evs != [] {
      var init := evs[..|evs| - 1];
      RunRanked(w, init, s);
      StepRanked(Run(w, init, Exact), evs[|evs| - 1], s, Accepted(w, init, s));
    }
  }

  /* ----- exactly once ----- */

  lemma LastIsGreatest<T>(a: seq<Stamped<T>>, m: Stamped<T>)
    requires Sorted(a) && m in a
    ensures m == a[|a| - 1] || (m in a[..|a| - 1] && m.rank < a[|a| - 1].rank)
  {
    var i :| 0 <= i < |a| && a[i] == m;
    assert i < |a| - 1 ==> a[..|a| - 1][i] == m;
  }

  lemma FirstOnes<T>(a: seq<Stamped<T>>, m: Stamped<T>)
    requires Sorted(a) && a != []
    ensures m in a[..|a| - 1] <==> m in a && m != a[|a| - 1]
  {
    if m in a[..|a| - 1] {
      var i :| 0 <= i < |a| - 1 && a[i] == m;
      assert m.rank < a[|a| - 1].rank;
    } else if m in a {
      LastIsGreatest(a, m);
    }
  }

  lemma {:induction false} SameMessages<T>(a: seq<Stamped<T>>, b: seq<Stamped<T>>)
    requires Sorted(a) && Sorted(b) && forall m :: m in a <==> m in b
    ensures a == b
    decreases |a|
  {
    assert a != [] ==> a[0] in a;
    assert b != [] ==> b[0] in b;
    if a != [] {
      var x, y := a[|a| - 1], b[|b| - 1];
      assert x in a && y in b;
      LastIsGreatest(a, y);
      LastIsGreatest(b, x);
      var a1, b1 := a[..|a| - 1], b[..|b| - 1];
      forall m ensures m in a1 <==> m in b1 {
        FirstOnes(a, m);
        FirstOnes(b, m);
      }
      assert Sorted(a1) && Sorted(b1);
      hide Sorted;
      SameMessages(a1, b1);
      assert a == a1 + [x] && b == b1 + [y];
    }
  }

  /** Nothing waits to be sent or could be resent. */
  ghost predicate Drained<T>(h: Half<T>) {
    h.x.send == [] && forall k :: 0 <= k < |h.x.retr| ==> h.x.retr[k].sn <= h.y.csT
  }

  lemma DrainedHolds<T>(h: Half<T>, m: Stamped<T>)
    requires Drained(h) && Held(h, m)
    ensures m in h.led.handed
  {
  }

  /** Complete delivery: once nothing waits on the sending side, the messages
      handed up are exactly the messages accepted, each once and in order,
      whatever the links lost on the way. */
  lemma ExactlyOnce<T(!new)>(client: Config, server: Config, x: int, y: int, evs: seq<Event<T>>, s: Side)
    requires client.maxPacket < MAX_QUEUE_SIZE && server.maxPacket < MAX_QUEUE_SIZE
    requires var w0 := Established<T>(client, server, x, y, Exact);
             RunSafe(w0, evs) && RunClean(w0, evs) && Drained(HalfOf(Run(w0, evs, Exact), s))
    ensures var w0 := Established<T>(client, server, x, y, Exact);
            HalfOf(Run(w0, evs, Exact), s).led.handed == Accepted(w0, evs, s)
  {
    var w0 := Established<T>(client, server, x, y, Exact);
    var acc := Accepted(w0, evs, s);
    EstablishedInv<T>(client, server, x, y);
    assert FromAccepted(HalfOf(w0, s), []);
    RunFrom(w0, evs, s);
    RunRanked(w0, evs, s);
    RunKeeps(w0, evs);
    var h := HalfOf(Run(w0, evs, Exact), s);
    assert Sorted(h.led.handed) && AllIn(h.led.handed, acc);
    hide Run, RunSafe, RunClean, Accepted, Held, Established, Sorted, Inv, Drained;
    forall m ensures m in h.led.handed <==> m in acc {
      if m in acc {
        NothingIsLost(client, server, x, y, evs, s, m);
        DrainedHolds(h, m);
      }
    }
    SameMessages(h.led.handed, acc);
  }

  /** The same of the 32-bit program. */
  lemma ExactlyOnce32<T(!new)>(client: Config, server: Config, x: int, y: int, evs: seq<Event<T>>, s: Side)
    requires 0 <= x < U32 && 0 <= y < U32 && client.maxPacket < MAX_QUEUE_SIZE && server.maxPacket < MAX_QUEUE_SIZE
    requires var w0 := Established<T>(client, server, x, y, Exact);
             RunSafe(w0, evs) && RunClean(w0, evs) && Drained(HalfOf(Run(w0, evs, Exact), s))
    ensures HalfOf(Run(Established(client, server, x, y, Wrapped), evs, Wrapped), s).led.handed
         == Accepted(Established(client, server, x, y, Exact), evs, s)
  {
    ExactlyOnce(client, server, x, y, evs, s);
    LowEstablished<T>(client, server, x, y);
    LowRun(Established<T>(client, server, x, y, Exact), evs);
    hide Run, RunSafe, RunClean, Accepted, Established, Drained;
  }
}
