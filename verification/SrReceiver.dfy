/** The steps of an endpoint keep the invariant of the direction it receives on. */
module SrReceiver {
  import opened SrEndpoint
  import opened SrWorld
  import opened SrInvariant

  /** The receiver sends packets os, and either leaves the link alone, drops its
      head, or takes over the number of its head. */
  ghost predicate NumberStep<T>(h: Half<T>, h2: Half<T>, os: seq<Packet<Stamped<T>>>) {
    && h2.x == h.x && h2.back == h.back + os
    && (h2.link == h.link || (h.link != [] && h2.link == h.link[1..]))
    && (|| (h2.y.csT == h.y.csT && h2.y.snR == h.y.snR)
        || (h.link != [] && h2.link == h.link[1..] && !h.link[0].kind.DiscReq?
            && h2.y.csT == h.link[0].sn && h2.y.snR == h2.y.csT + 1))
    && (forall i :: 0 <= i < |os| ==> os[i].cs <= h2.y.csT)
  }

  lemma StepNumbers<T>(h: Half<T>, h2: Half<T>, os: seq<Packet<Stamped<T>>>)
    requires Numbers(h) && NumberStep(h, h2, os)
    ensures Numbers(h2) && h.y.csT <= h2.y.csT
  {
  }

  lemma SenderUntouched<T>(h: Half<T>, h2: Half<T>)
    requires Queued(h) && Delivered(h) && h2.x == h.x && h2.led == h.led
    requires h2.link == h.link || (h.link != [] && h2.link == h.link[1..])
    ensures Queued(h2) && Delivered(h2)
  {
  }

  /* ----- nothing is handed up and nothing requested ----- */

  ghost predicate PassiveStep<T>(h: Half<T>, h2: Half<T>, os: seq<Packet<Stamped<T>>>) {
    && NumberStep(h, h2, os) && h2.led == h.led
    && (Flowing(h2.y.state) ==> Flowing(h.y.state))
    && (forall i :: 0 <= i < |os| ==> !os[i].kind.RetrReq?)
  }

  lemma PassiveExclusive<T>(h: Half<T>, h2: Half<T>, os: seq<Packet<Stamped<T>>>)
    requires Exclusive(h) && PassiveStep(h, h2, os)
    ensures Exclusive(h2)
  {
  }

  lemma PassiveFresh<T>(h: Half<T>, h2: Half<T>, os: seq<Packet<Stamped<T>>>)
    requires Fresh(h) && PassiveStep(h, h2, os) && h.y.csT <= h2.y.csT
    ensures Fresh(h2)
  {
    if j :| 0 <= j < |h2.link| && h2.link[j].kind.RetrResp? {
      assert h.link[j].kind.RetrResp? || h.link[j + 1].kind.RetrResp?;
    }
  }

  lemma SubOrder<T>(s: seq<Packet<Stamped<T>>>, x: Endpoint<Stamped<T>>, top: nat, i: nat)
    requires InOrder(s, x, top)
    ensures InOrder(Without(s, i), x, top)
    ensures s != [] ==> InOrder(s[1..], x, top)
  {
  }

  lemma PassiveInOrder<T>(h: Half<T>, h2: Half<T>, os: seq<Packet<Stamped<T>>>)
    requires InOrder(Live(h.y.state, h.link), h.x, h.led.top) && Exclusive(h) && PassiveStep(h, h2, os)
    ensures InOrder(Live(h2.y.state, h2.link), h2.x, h2.led.top)
  {
    SubOrder(Live(h.y.state, h.link), h.x, h.led.top, 0);
    if Flowing(h.y.state) {
      AfterRespNone(h2.link);
    } else if h2.link != h.link && h.link[0].kind.RetrResp? {
      AfterRespNone(h2.link);
    }
  }

  lemma {:induction false} ReceiverPassive<T>(h: Half<T>, h2: Half<T>, os: seq<Packet<Stamped<T>>>)
    requires DirInv(h) && PassiveStep(h, h2, os)
    ensures DirInv(h2)
  {
    StepNumbers(h, h2, os);
    SenderUntouched(h, h2);
    PassiveExclusive(h, h2, os);
    PassiveFresh(h, h2, os);
    PassiveInOrder(h, h2, os);
  }

  /* ----- a batch is handed up ----- */

  ghost predicate HandUpStep<T>(h: Half<T>, h2: Half<T>, n: nat) {
    && NumberStep(h, h2, []) && h.link != [] && h2.link == h.link[1..] && h2.y.csT == h.link[0].sn
    && Flowing(h.y.state) && Flowing(h2.y.state)
    && n <= |h.link[0].msgs|
    && h2.led == h.led.(handed := h.led.handed + h.link[0].msgs[..n],
                        top := TopAfter(h.link[0].msgs, h.led.top))
  }

  lemma TopMoves<T>(b: seq<Stamped<T>>, m: seq<Stamped<T>>, top: nat)
    requires Sorted(b) && AtLeast(b, top) && AtLeast(m, top) && Before(b, m)
    ensures AtLeast(m, TopAfter(b, top)) && Below(b, TopAfter(b, top)) && top <= TopAfter(b, top)
  {
  }

  lemma HandUpDelivered<T>(h: Half<T>, h2: Half<T>, n: nat)
    requires Delivered(h) && InOrder(h.link, h.x, h.led.top) && HandUpStep(h, h2, n)
    ensures Delivered(h2)
  {
    var b := h.link[0].msgs;
    TopMoves(b, [], h.led.top);
    assert Genuine(b, h.led.submitted);
  }

  lemma HandUpQueued<T>(h: Half<T>, h2: Half<T>, n: nat)
    requires Queued(h) && InOrder(h.link, h.x, h.led.top) && HandUpStep(h, h2, n)
    ensures Queued(h2)
  {
    TopMoves(h.link[0].msgs, h.x.send, h.led.top);
  }

  lemma HandUpInOrder<T>(h: Half<T>, h2: Half<T>, n: nat)
    requires InOrder(h.link, h.x, h.led.top) && HandUpStep(h, h2, n)
    ensures InOrder(Live(h2.y.state, h2.link), h2.x, h2.led.top)
  {
    forall i | 0 <= i < |h2.link| ensures AtLeast(h2.link[i].msgs, h2.led.top) {
      TopMoves(h.link[0].msgs, h.link[i + 1].msgs, h.led.top);
    }
    SubOrder(h.link, h.x, h.led.top, 0);
  }

  lemma HandUpFresh<T>(h: Half<T>, h2: Half<T>, n: nat)
    requires Fresh(h) && Exclusive(h) && Numbers(h) && InOrder(h.link, h.x, h.led.top) && HandUpStep(h, h2, n)
    ensures Fresh(h2)
  {
    var retr := h.x.retr;
    forall k | 0 <= k < |retr| && h2.y.csT < retr[k].sn ensures AtLeast(retr[k].msgs, h2.led.top) {
      TopMoves(h.link[0].msgs, retr[k].msgs, h.led.top);
    }
    assert h2.back == h.back;
    assert forall j :: 0 <= j < |h2.link| ==> h2.link[j] == h.link[j + 1];
  }

  lemma {:induction false} ReceiverHandUp<T>(h: Half<T>, h2: Half<T>, n: nat)
    requires DirInv(h) && HandUpStep(h, h2, n)
    ensures DirInv(h2)
  {
    StepNumbers(h, h2, []);
    HandUpDelivered(h, h2, n);
    HandUpQueued(h, h2, n);
    HandUpInOrder(h, h2, n);
    HandUpFresh(h, h2, n);
    assert Exclusive(h2);
  }

  /* ----- a retransmission is requested ----- */

  ghost predicate RequestStep<T>(h: Half<T>, h2: Half<T>, sn: int) {
    && NumberStep(h, h2, [Packet(RetrReq, sn, h.y.csT, [])]) && h2.y.csT == h.y.csT
    && h2.led == h.led
    && Flowing(h.y.state) && h2.y.state.WaitResp?
  }

  lemma RequestFresh<T>(h: Half<T>, h2: Half<T>, sn: int)
    requires Fresh(h) && Exclusive(h) && RequestStep(h, h2, sn)
    ensures Fresh(h2)
  {
    assert forall j :: 0 <= j < |h2.link| ==> h2.link[j] in h.link;
    assert forall i :: 0 <= i < |h.back| ==> h2.back[i] == h.back[i];
  }

  lemma ReceiverRequest<T>(h: Half<T>, h2: Half<T>, sn: int)
    requires DirInv(h) && RequestStep(h, h2, sn)
    ensures DirInv(h2)
  {
    StepNumbers(h, h2, [Packet(RetrReq, sn, h.y.csT, [])]);
    SenderUntouched(h, h2);
    RequestFresh(h, h2, sn);
    AfterRespNone(h2.link);
    assert Exclusive(h2);
    assert InOrder([], h2.x, h2.led.top);
  }

  /* ----- a retransmission begins ----- */

  ghost predicate ResumeStep<T>(h: Half<T>, h2: Half<T>) {
    && NumberStep(h, h2, []) && h.link != [] && h.link[0].kind.RetrResp?
    && h2.link == h.link[1..] && h2.y.csT == h.link[0].sn
    && h2.led == h.led
    && !Flowing(h.y.state) && h2.y.state.Running?
  }

  lemma ReceiverResume<T>(h: Half<T>, h2: Half<T>)
    requires DirInv(h) && ResumeStep(h, h2)
    ensures DirInv(h2)
  {
    StepNumbers(h, h2, []);
    SenderUntouched(h, h2);
    assert h2.back == h.back;
    assert Exclusive(h2) by {
      assert forall j :: 0 <= j < |h2.link| ==> h2.link[j] == h.link[j + 1];
    }
    assert AllNew(h.x.retr, h.led.top) by {
      assert h.link[0].kind.RetrResp?;
    }
    assert Fresh(h2);
    assert Live(h2.y.state, h2.link) == Live(h.y.state, h.link);
  }

  /* ----- the four kinds of step ----- */

  datatype Reception<T> = Passing(os: seq<Packet<Stamped<T>>>) | HandingUp(n: nat) | Requesting(sn: int) | Resuming

  ghost predicate Receives<T>(h: Half<T>, h2: Half<T>, r: Reception<T>) {
    match r
    case Passing(os) => PassiveStep(h, h2, os)
    case HandingUp(n) => HandUpStep(h, h2, n)
    case Requesting(sn) => RequestStep(h, h2, sn)
    case Resuming => ResumeStep(h, h2)
  }

  lemma ReceptionKeeps<T>(h: Half<T>, h2: Half<T>, r: Reception<T>)
    requires DirInv(h) && Receives(h, h2, r)
    ensures DirInv(h2)
  {
    match r
    case Passing(os) => ReceiverPassive(h, h2, os);
    case HandingUp(n) => ReceiverHandUp(h, h2, n);
    case Requesting(sn) => ReceiverRequest(h, h2, sn);
    case Resuming => ReceiverResume(h, h2);
  }
}
