/** No message is lost for good: when the SR layer keeps what it accepted. */
module SrConservation {
  import opened SrEndpoint
  import opened SrWorld
  import opened SrInvariant
  import opened SrSender
  import opened SrSenderSteps
  import opened SrReceiver
  import opened SrReceiverSteps
  import opened SrSafety

  /* ----- what numbers mean ----- */

  /** A packet under way and a queue entry with one number carry the same messages. */
  ghost predicate Matched<T>(h: Half<T>) {
    forall i, k ::
      && 0 <= i < |h.link| && 0 <= k < |h.x.retr|
      && !h.link[i].kind.DiscReq? && h.link[i].sn == h.x.retr[k].sn ==>
        (h.link[i].kind.Data? || h.link[i].kind.RetrData?) && h.link[i].msgs == h.x.retr[k].msgs
  }

  /** What a response under way announces is numbered above it. */
  ghost predicate AnswerAhead<T>(h: Half<T>) {
    forall j, k ::
      0 <= j < |h.link| && h.link[j].kind.RetrResp? && 0 <= k < |h.x.retr| ==> h.link[j].sn < h.x.retr[k].sn
  }

  /** From c up to last, retransmitted data only; then a heartbeat. */
  ghost predicate ResentUpTo<T>(h: Half<T>, c: int, last: int) {
    && c < last < h.x.snT
    && forall i :: 0 <= i < |h.link| && !h.link[i].kind.DiscReq? && c < h.link[i].sn ==>
         (h.link[i].sn < last ==> h.link[i].kind.RetrData?) && (h.link[i].sn == last ==> h.link[i].kind.Heartbeat?)
  }

  ghost predicate Resending<T>(h: Half<T>, c: int) {
    exists last :: ResentUpTo(h, c, last)
  }

  ghost predicate InRetransmission<T>(h: Half<T>) {
    && (h.y.state.Running? ==> Resending(h, h.y.csT))
    && (forall j :: 0 <= j < |h.link| && h.link[j].kind.RetrResp? ==> Resending(h, h.link[j].sn))
  }

  ghost predicate Orderly<T>(h: Half<T>) {
    Numbers(h) && Exclusive(h) && |h.x.retr| <= MAX_QUEUE_SIZE && Matched(h) && AnswerAhead(h) && InRetransmission(h)
  }

  /** In state RETRRUN the next packet in sequence is retransmitted data or the
      closing heartbeat: never new data, which would be counted but not handed
      up, and never a request. */
  lemma NextInRetransmission<T>(h: Half<T>)
    requires Orderly(h) && h.y.state.Running? && h.link != [] && h.link[0].sn == h.y.snR
    requires !h.link[0].kind.DiscReq?
    ensures h.link[0].kind.RetrData? || h.link[0].kind.Heartbeat?
  {
    var last :| ResentUpTo(h, h.y.csT, last);
  }

  /* ----- the sender's moves ----- */

  /** A step of the sender leaves the stretches of retransmitted data alone. */
  lemma StretchStays<T>(h: Half<T>, h2: Half<T>, os: seq<Packet<Stamped<T>>>, c: int)
    requires Resending(h, c) && h2.link == h.link + os && h.x.snT <= h2.x.snT
    requires forall i :: 0 <= i < |os| && !os[i].kind.DiscReq? ==> h.x.snT <= os[i].sn
    ensures Resending(h2, c)
  {
    var last :| ResentUpTo(h, c, last);
    assert ResentUpTo(h2, c, last);
  }

  lemma RetransmissionStays<T>(h: Half<T>, h2: Half<T>, os: seq<Packet<Stamped<T>>>)
    requires InRetransmission(h) && h2.link == h.link + os && h.x.snT <= h2.x.snT && h2.y == h.y
    requires forall i :: 0 <= i < |os| && !os[i].kind.DiscReq? ==> h.x.snT <= os[i].sn
    requires forall i :: 0 <= i < |os| ==> !os[i].kind.RetrResp?
    ensures InRetransmission(h2)
  {
    hide Resending;
    if h.y.state.Running? {
      StretchStays(h, h2, os, h.y.csT);
    }
    forall j | 0 <= j < |h2.link| && h2.link[j].kind.RetrResp? ensures Resending(h2, h2.link[j].sn) {
      assert h2.link[j] == h.link[j];
      StretchStays(h, h2, os, h.link[j].sn);
    }
  }

  lemma QuietOrderly<T>(h: Half<T>, h2: Half<T>, k: nat, os: seq<Packet<Stamped<T>>>, more: seq<Stamped<T>>)
    requires Orderly(h) && QuietStep(h, h2, k, os, more)
    ensures Orderly(h2)
  {
    QuietNumbers(h, h2, k, os, more);
    QuietExclusive(h, h2, k, os, more);
    RetransmissionStays(h, h2, os);
    assert Matched(h2);
    assert AnswerAhead(h2);
  }

  lemma DataExclusive<T>(h: Half<T>, h2: Half<T>, n: nat)
    requires Exclusive(h) && DataStep(h, h2, n)
    ensures Exclusive(h2)
  {
  }

  lemma DataOrderly<T>(h: Half<T>, h2: Half<T>, n: nat)
    requires Orderly(h) && DataStep(h, h2, n)
    ensures Orderly(h2)
  {
    DataNumbers(h, h2, n);
    DataExclusive(h, h2, n);
    if h2.link == h.link {
      assert h.link + [] == h.link;
      RetransmissionStays(h, h2, []);
    } else {
      var cs :| h2.link == h.link + [Packet(Data, h.x.snT, cs, h.x.send[..n])];
      RetransmissionStays(h, h2, [Packet(Data, h.x.snT, cs, h.x.send[..n])]);
    }
    hide InRetransmission, Exclusive;
    assert Matched(h2);
    assert AnswerAhead(h2);
  }

  lemma AnswerMatched<T>(h: Half<T>, h2: Half<T>, k: nat, cs: int)
    requires Numbers(h) && Matched(h) && RespondStep(h, h2, k, cs)
    ensures Matched(h2)
  {
    if h2.link != h.link {
      var os := [Packet(RetrResp, h.x.snT, cs, [])] + AfterAnswer(h, k, cs);
      assert h2.link == h.link + os;
      assert forall i :: 0 <= i < |os| ==> os[i].sn == h.x.snT + i;
    }
  }

  lemma AnswerStretch<T>(h: Half<T>, h2: Half<T>, k: nat, cs: int)
    requires Numbers(h) && Exclusive(h) && RespondStep(h, h2, k, cs)
    ensures InRetransmission(h2) && AnswerAhead(h2)
  {
    RespondExclusive(h, h2, k, cs);
    if h2.link != h.link {
      var os := [Packet(RetrResp, h.x.snT, cs, [])] + AfterAnswer(h, k, cs);
      assert h2.link == h.link + os;
      assert forall i :: 0 <= i < |os| ==> os[i].sn == h.x.snT + i;
      assert ResentUpTo(h2, h.x.snT, h.x.snT + |os| - 1);
    }
  }

  lemma AnswerOrderly<T>(h: Half<T>, h2: Half<T>, k: nat, cs: int)
    requires Orderly(h) && RespondStep(h, h2, k, cs)
    ensures Orderly(h2)
  {
    RespondNumbers(h, h2, k, cs);
    RespondExclusive(h, h2, k, cs);
    AnswerMatched(h, h2, k, cs);
    AnswerStretch(h, h2, k, cs);
    hide Numbers, Exclusive, Matched, AnswerAhead, InRetransmission;
  }

  lemma MoveOrderly<T>(h: Half<T>, h2: Half<T>, m: Move<T>)
    requires Orderly(h) && Moves(h, h2, m)
    ensures Orderly(h2)
  {
    hide Orderly;
    match m
    case Quieting(k, os, more) => QuietOrderly(h, h2, k, os, more);
    case Batching(n) => DataOrderly(h, h2, n);
    case Answering(os, k, cs) =>
      var hm := h.(link := h.link + os);
      QuietOrderly(h, hm, 0, os, []);
      AnswerOrderly(hm, h2, k, cs);
  }

  /* ----- the receiver's steps ----- */

  /** A number taken over is that expected, not one 2^32 ahead of it. */
  ghost predicate TrueNumber<M>(e: Endpoint<M>, p: Packet<M>) {
    TakesOver(e, p) ==> p.sn == e.snR
  }

  lemma StretchShrinks<T>(h: Half<T>, h2: Half<T>, c: int)
    requires Resending(h, c) && h2.x == h.x && (h2.link == h.link || (h.link != [] && h2.link == h.link[1..]))
    ensures Resending(h2, c)
  {
    var last :| ResentUpTo(h, c, last);
    assert ResentUpTo(h2, c, last);
  }

  lemma StretchAdvances<T>(h: Half<T>, h2: Half<T>)
    requires Resending(h, h.y.csT) && h.link != [] && h2.link == h.link[1..] && h2.x == h.x
    requires h.link[0].sn == h.y.csT + 1 == h2.y.csT && h.link[0].kind.RetrData?
    ensures Resending(h2, h2.y.csT)
  {
    var last :| ResentUpTo(h, h.y.csT, last);
    assert ResentUpTo(h2, h2.y.csT, last);
  }

  /** The receiver takes nothing from the link or its head. */
  lemma LinkShrinks<T>(h: Half<T>, h2: Half<T>)
    requires Matched(h) && AnswerAhead(h) && h2.x == h.x
             && (h2.link == h.link || (h.link != [] && h2.link == h.link[1..]))
    ensures Matched(h2) && AnswerAhead(h2)
  {
  }

  lemma AnswersShrink<T>(h: Half<T>, h2: Half<T>)
    requires InRetransmission(h) && h2.x == h.x && (h2.link == h.link || (h.link != [] && h2.link == h.link[1..]))
    ensures forall j :: 0 <= j < |h2.link| && h2.link[j].kind.RetrResp? ==> Resending(h2, h2.link[j].sn)
  {
    hide Resending;
    forall j | 0 <= j < |h2.link| && h2.link[j].kind.RetrResp? ensures Resending(h2, h2.link[j].sn) {
      assert h2.link[j] == h.link[j] || h2.link[j] == h.link[j + 1];
      StretchShrinks(h, h2, h2.link[j].sn);
    }
  }

  lemma PassingOrderly<T>(h: Half<T>, h2: Half<T>, os: seq<Packet<Stamped<T>>>)
    requires Orderly(h) && PassiveStep(h, h2, os)
    requires h2.y.state.Running? ==> h.y.state.Running? && h2.y.csT == h.y.csT
    ensures Orderly(h2)
  {
    LinkShrinks(h, h2);
    AnswersShrink(h, h2);
    StepNumbers(h, h2, os);
    PassiveExclusive(h, h2, os);
    hide Matched, AnswerAhead, Numbers, Exclusive, Resending;
    if h2.y.state.Running? {
      StretchShrinks(h, h2, h.y.csT);
    }
  }

  lemma HandingUpOrderly<T>(h: Half<T>, h2: Half<T>, n: nat)
    requires Orderly(h) && HandUpStep(h, h2, n)
    requires h2.y.state.Running? ==> h.y.state.Running? && h.link[0].kind.RetrData? && h.link[0].sn == h.y.csT + 1
    ensures Orderly(h2)
  {
    LinkShrinks(h, h2);
    AnswersShrink(h, h2);
    StepNumbers(h, h2, []);
    hide Matched, AnswerAhead, Resending;
    assert Exclusive(h2);
    if h2.y.state.Running? {
      StretchAdvances(h, h2);
    }
  }

  lemma RequestingOrderly<T>(h: Half<T>, h2: Half<T>, sn: int)
    requires Orderly(h) && RequestStep(h, h2, sn)
    ensures Orderly(h2)
  {
    LinkShrinks(h, h2);
    AnswersShrink(h, h2);
    StepNumbers(h, h2, [Packet(RetrReq, sn, h.y.csT, [])]);
    hide Matched, AnswerAhead, Resending;
    assert Exclusive(h2);
  }

  lemma ResumingOrderly<T>(h: Half<T>, h2: Half<T>)
    requires Orderly(h) && ResumeStep(h, h2)
    ensures Orderly(h2)
  {
    LinkShrinks(h, h2);
    AnswersShrink(h, h2);
    StepNumbers(h, h2, []);
    hide Matched, AnswerAhead, Resending;
    assert Exclusive(h2) by {
      assert forall j :: 0 <= j < |h2.link| ==> h2.link[j] == h.link[j + 1];
    }
    StretchShrinks(h, h2, h.link[0].sn);
  }

  /** Without handing up, no number is taken over that leaves state RETRRUN standing. */
  lemma StaysInPlace<T>(v: View<T>, peer: Endpoint<Stamped<T>>, act: Action<T>, os: seq<Packet<Stamped<T>>>)
    requires var v2 := ActOn(v, act, Exact);
             PassiveStep(Incoming(v, peer), Incoming(v2, peer), os) && Accounts(v, v2, act, Passing(os))
    requires Orderly(Incoming(v, peer))
    requires act.Receiving? && v.inc != [] ==> TrueNumber(v.me, v.inc[0])
    ensures var v2 := ActOn(v, act, Exact);
            v2.me.state.Running? ==> v.me.state.Running? && v2.me.csT == v.me.csT
  {
    var v2 := ActOn(v, act, Exact);
    if v2.me.state.Running? && v2.me.csT != v.me.csT {
      hide SnInSeq, SnRangeValid, CsValid, PassiveStep, ResentUpTo, Matched, AnswerAhead;
      NextInRetransmission(Incoming(v, peer));
      assert false;
    }
  }

  lemma ReceptionOrderly<T>(v: View<T>, peer: Endpoint<Stamped<T>>, act: Action<T>, r: Reception<T>)
    requires var v2 := ActOn(v, act, Exact);
             Receives(Incoming(v, peer), Incoming(v2, peer), r) && Accounts(v, v2, act, r)
    requires Orderly(Incoming(v, peer))
    requires act.Receiving? && v.inc != [] ==> TrueNumber(v.me, v.inc[0])
    ensures Orderly(Incoming(ActOn(v, act, Exact), peer))
  {
    var h, h2 := Incoming(v, peer), Incoming(ActOn(v, act, Exact), peer);
    hide Orderly, ActOn, SnRangeValid, CsValid, SnInSeq;
    match r
    case Passing(os) =>
      StaysInPlace(v, peer, act, os);
      PassingOrderly(h, h2, os);
    case HandingUp(n) =>
      OrderlyNumbers(h);
      HandingUpOrderly(h, h2, n);
    case Requesting(sn) => RequestingOrderly(h, h2, sn);
    case Resuming => ResumingOrderly(h, h2);
  }

  lemma OrderlyNumbers<T>(h: Half<T>)
    requires Orderly(h)
    ensures h.y.snR == h.y.csT + 1
  {
  }

  /* ----- losing no message ----- */

  /** m has been handed up, waits to be sent, or can still be resent. */
  ghost predicate Held<T>(h: Half<T>, m: Stamped<T>) {
    || m in h.led.handed
    || m in h.x.send
    || exists k :: InEntry(h, m, k)
  }

  ghost predicate InEntry<T>(h: Half<T>, m: Stamped<T>, k: int) {
    0 <= k < |h.x.retr| && m in h.x.retr[k].msgs && h.y.csT < h.x.retr[k].sn
  }

  lemma SafeTrim<T>(h: Half<T>, k: nat)
    requires Numbers(h) && Trims(h, k) && SafeCut(h.x.retr, h.back[0].cs)
    ensures forall i :: 0 <= i < |h.x.retr| && h.y.csT < h.x.retr[i].sn ==> k <= i
  {
    RemoveConfirmedIs(h.x.retr, h.back[0].cs);
    assert |h.x.retr[k..]| == |h.x.retr| - k;
    assert h.back[0].cs <= h.y.csT;
  }

  /** The guards of a sender's move: trims stop at a confirmed entry, and there
      is room in the retransmission queue. */
  ghost predicate SafeMove<T>(h: Half<T>, m: Move<T>) {
    match m
    case Quieting(k, _, _) => k > 0 ==> h.back != [] && SafeCut(h.x.retr, h.back[0].cs)
    case Batching(_) => |h.x.retr| < MAX_QUEUE_SIZE
    case Answering(_, _, _) => h.back != [] && SafeCut(h.x.retr, h.back[0].cs)
  }

  lemma QuietHolds<T>(h: Half<T>, h2: Half<T>, k: nat, os: seq<Packet<Stamped<T>>>, more: seq<Stamped<T>>,
      m: Stamped<T>)
    requires Numbers(h) && QuietStep(h, h2, k, os, more) && (k == 0 || (Trims(h, k) && SafeCut(h.x.retr, h.back[0].cs)))
    requires Held(h, m) || m in more
    ensures Held(h2, m)
  {
    if i :| InEntry(h, m, i) {
      if k > 0 {
        SafeTrim(h, k);
      }
      assert InEntry(h2, m, i - k);
    }
  }

  lemma DataHolds<T>(h: Half<T>, h2: Half<T>, n: nat, m: Stamped<T>)
    requires Numbers(h) && DataStep(h, h2, n) && |h.x.retr| < MAX_QUEUE_SIZE && Held(h, m)
    ensures Held(h2, m)
  {
    if i :| InEntry(h, m, i) {
      assert InEntry(h2, m, i);
    } else if m in h.x.send {
      assert h.x.send == h.x.send[..n] + h.x.send[n..];
      if m in h.x.send[..n] {
        assert InEntry(h2, m, |h.x.retr|);
      }
    }
  }

  lemma AnswerHolds<T>(h: Half<T>, h2: Half<T>, k: nat, cs: int, m: Stamped<T>)
    requires Numbers(h) && RespondStep(h, h2, k, cs) && Trims(h, k) && SafeCut(h.x.retr, h.back[0].cs) && Held(h, m)
    ensures Held(h2, m)
  {
    if i :| InEntry(h, m, i) {
      SafeTrim(h, k);
      assert InEntry(h2, m, i - k);
    }
  }

  lemma MoveHolds<T>(h: Half<T>, h2: Half<T>, mv: Move<T>, m: Stamped<T>)
    requires Orderly(h) && Moves(h, h2, mv) && SafeMove(h, mv)
    requires Held(h, m) || (mv.Quieting? && m in mv.more)
    ensures Held(h2, m)
  {
    assert Numbers(h);
    hide Orderly, Held, QuietStep, RespondStep, DataStep;
    match mv
    case Quieting(k, os, more) => QuietHolds(h, h2, k, os, more, m);
    case Batching(n) => DataHolds(h, h2, n, m);
    case Answering(os, k, cs) =>
      var hm := h.(link := h.link + os);
      QuietOrderly(h, hm, 0, os, []);
      QuietHolds(h, hm, 0, os, [], m);
      assert Numbers(hm) by {
        assert Orderly(hm);
        NumbersOf(hm);
      }
      AnswerHolds(hm, h2, k, cs, m);
  }

  lemma NumbersOf<T>(h: Half<T>)
    requires Orderly(h)
    ensures Numbers(h) && |h.x.retr| <= MAX_QUEUE_SIZE
  {
  }

  /** Taking over the number of the head passes over no entry but its own. */
  lemma HandUpHolds<T>(h: Half<T>, h2: Half<T>, n: nat, m: Stamped<T>)
    requires Matched(h) && HandUpStep(h, h2, n) && n == |h.link[0].msgs| && h.link[0].sn == h.y.csT + 1
    requires !h.link[0].kind.DiscReq? && Held(h, m)
    ensures Held(h2, m)
  {
    if i :| InEntry(h, m, i) {
      if h.x.retr[i].sn == h.link[0].sn {
        assert m in h.link[0].msgs[..n];
      } else {
        assert InEntry(h2, m, i);
      }
    }
  }

  lemma TakeHolds<T>(h: Half<T>, h2: Half<T>, m: Stamped<T>)
    requires Matched(h) && h2.x == h.x && h2.led == h.led && Held(h, m)
    requires h2.y.csT == h.y.csT
          || (h.link != [] && h.link[0].sn == h2.y.csT == h.y.csT + 1
             && (h.link[0].kind.Heartbeat? || h.link[0].kind.RetrReq?))
    ensures Held(h2, m)
  {
    if i :| InEntry(h, m, i) {
      assert InEntry(h2, m, i);
    }
  }

  lemma ResumeHolds<T>(h: Half<T>, h2: Half<T>, m: Stamped<T>)
    requires AnswerAhead(h) && ResumeStep(h, h2) && Held(h, m)
    ensures Held(h2, m)
  {
    if i :| InEntry(h, m, i) {
      assert InEntry(h2, m, i);
    }
  }

  /** The guards of a receive step: the number is the one expected, and the
      buffer takes all messages. */
  ghost predicate SafeReception<M>(e: Endpoint<M>, p: Packet<M>, cts: bool) {
    TrueNumber(e, p) && (HandsUp(e, p, cts) ==> HasRoom(e, p))
  }

  lemma ReceptionHolds<T>(v: View<T>, peer: Endpoint<Stamped<T>>, act: Action<T>, r: Reception<T>, m: Stamped<T>)
    requires var v2 := ActOn(v, act, Exact);
             Receives(Incoming(v, peer), Incoming(v2, peer), r) && Accounts(v, v2, act, r)
    requires Orderly(Incoming(v, peer)) && Held(Incoming(v, peer), m)
    requires act.Receiving? && v.inc != [] ==> SafeReception(v.me, v.inc[0], act.ctsInSeq)
    ensures Held(Incoming(ActOn(v, act, Exact), peer), m)
  {
    var h, h2 := Incoming(v, peer), Incoming(ActOn(v, act, Exact), peer);
    assert Matched(h) && AnswerAhead(h) && h.y.snR == h.y.csT + 1;
    hide Matched, AnswerAhead, ActOn, Held, SnInSeq, SnRangeValid, CsValid;
    match r
    case Passing(os) =>
      if h2.y.csT != h.y.csT && v.me.state.Running? {
        NextInRetransmission(h);
      }
      TakeHolds(h, h2, m);
    case HandingUp(n) => HandUpHolds(h, h2, n, m);
    case Requesting(sn) => TakeHolds(h, h2, m);
    case Resuming => ResumeHolds(h, h2, m);
  }

  /* ----- steps and runs ----- */

  function HalfOf<T>(w: World<T>, s: Side): Half<T> {
    if s.A? then Half(w.a, w.b, w.ab, w.ba, w.fromA) else Half(w.b, w.a, w.ba, w.ab, w.fromB)
  }

  ghost predicate BothOrderly<T>(w: World<T>) {
    Orderly(HalfOf(w, A)) && Orderly(HalfOf(w, B))
  }

  /** A trim stops at a confirmed entry or finds all confirmed; the number taken
      over is the one expected; the buffer takes what is handed up. */
  ghost predicate SafeAction<T>(v: View<T>, act: Action<T>) {
    act.Receiving? && v.inc != [] ==>
      && (Trimming(v.me, v.inc[0], act.ctsInSeq) ==> SafeCut(v.me.retr, v.inc[0].cs))
      && SafeReception(v.me, v.inc[0], act.ctsInSeq)
  }

  /** The number taken over, if any, is the one expected. */
  ghost predicate TrueAction<T>(v: View<T>, act: Action<T>) {
    act.Receiving? && v.inc != [] ==> TrueNumber(v.me, v.inc[0])
  }

  ghost predicate TrueStep<T>(w: World<T>, ev: Event<T>) {
    ev.Act? ==> TrueAction(ViewOf(w, ev.side), ev.action)
  }

  ghost predicate RunTrue<T>(w: World<T>, evs: seq<Event<T>>) {
    forall k :: 0 <= k < |evs| ==> TrueStep(Run(w, evs[..k], Exact), evs[k])
  }

  lemma SafeIsTrue<T>(w: World<T>, evs: seq<Event<T>>)
    requires RunSafe(w, evs)
    ensures RunTrue(w, evs)
  {
    hide Run, SafeCut, Trimming, TrueNumber, HandsUp;
    forall k | 0 <= k < |evs| ensures TrueStep(Run(w, evs[..k], Exact), evs[k]) {
      assert SafeStep(Run(w, evs[..k], Exact), evs[k]);
    }
  }

  ghost predicate SafeStep<T>(w: World<T>, ev: Event<T>) {
    ev.Act? ==> SafeAction(ViewOf(w, ev.side), ev.action)
  }

  ghost predicate RunSafe<T>(w: World<T>, evs: seq<Event<T>>) {
    forall k :: 0 <= k < |evs| ==> SafeStep(Run(w, evs[..k], Exact), evs[k])
  }

  /** What sr_send puts into the sending queue. */
  function AcceptedIn<T>(w: World<T>, ev: Event<T>, s: Side): seq<Stamped<T>> {
    if ev.Act? && ev.side == s && ev.action.Submitting? then
      var v := ViewOf(w, s);
      var q := ActOn(v, ev.action, Exact).me.send;
      if |v.me.send| <= |q| then q[|v.me.send|..] else []
    else []
  }

  function Accepted<T>(w: World<T>, evs: seq<Event<T>>, s: Side): seq<Stamped<T>>
    decreases |evs|
  {
    if evs == [] then []
    else
      var init := evs[..|evs| - 1];
      Accepted(w, init, s) + AcceptedIn(Run(w, init, Exact), evs[|evs| - 1], s)
  }

  /** In state UP a call with no more messages than fit is accepted whole. */
  lemma AcceptsWhatFits<T>(w: World<T>, s: Side, bodies: seq<T>)
    requires var e := Me(w, s);
             e.state.Up? && |bodies| <= e.cfg.maxPacket && |e.send| + |bodies| <= 2 * e.cfg.maxPacket
    ensures AcceptedIn(w, Act(s, Submitting(bodies)), s) == Stamp(bodies, |HalfOf(w, s).led.submitted|)
  {
    var v := ViewOf(w, s);
    var ms := Stamp(bodies, |v.mine.submitted|);
    PushAllFits(v.me.send, ms, 2 * v.me.cfg.maxPacket);
    assert (v.me.send + ms)[|v.me.send|..] == ms;
  }

  lemma LossOrderly<T>(h: Half<T>, i: nat)
    requires Orderly(h)
    ensures Orderly(h.(link := Without(h.link, i)))
  {
    var h2 := h.(link := Without(h.link, i));
    assert forall j :: 0 <= j < |h2.link| ==> h2.link[j] in h.link;
    LossNumbers(h, i);
    assert Exclusive(h2);
    hide Resending;
    if h.y.state.Running? {
      LossStretch(h, i, h.y.csT);
    }
    forall j | 0 <= j < |h2.link| && h2.link[j].kind.RetrResp? ensures Resending(h2, h2.link[j].sn) {
      LossStretch(h, i, h2.link[j].sn);
    }
  }

  lemma LossStretch<T>(h: Half<T>, i: nat, c: int)
    requires Resending(h, c)
    ensures Resending(h.(link := Without(h.link, i)), c)
  {
    var last :| ResentUpTo(h, c, last);
    var h2 := h.(link := Without(h.link, i));
    assert forall j :: 0 <= j < |h2.link| ==> h2.link[j] in h.link;
    assert ResentUpTo(h2, c, last);
  }

  lemma LossOnBackOrderly<T>(h: Half<T>, i: nat)
    requires Orderly(h)
    ensures Orderly(h.(back := Without(h.back, i)))
  {
    var h2 := h.(back := Without(h.back, i));
    assert Numbers(h2);
    assert Exclusive(h2);
    hide Numbers, Exclusive, Resending;
    forall c | Resending(h, c) ensures Resending(h2, c) {
      BackIgnored(h, h2, c);
    }
  }

  lemma BackIgnored<T>(h: Half<T>, h2: Half<T>, c: int)
    requires Resending(h, c) && h2.x == h.x && h2.link == h.link
    ensures Resending(h2, c)
  {
    var last :| ResentUpTo(h, c, last);
    assert ResentUpTo(h2, c, last);
  }

  /** An action keeps both directions orderly. */
  lemma ActOrderly<T>(v: View<T>, peer: Endpoint<Stamped<T>>, act: Action<T>)
    requires Orderly(Outgoing(v, peer)) && Orderly(Incoming(v, peer)) && TrueAction(v, act)
    ensures var v2 := ActOn(v, act, Exact);
            Orderly(Outgoing(v2, peer)) && Orderly(Incoming(v2, peer))
  {
    NumbersOf(Outgoing(v, peer));
    NumbersOf(Incoming(v, peer));
    hide Orderly, ActOn, Moves, Receives, Accounts, Numbers;
    var m := SenderMoves(v, peer, act);
    MoveOrderly(Outgoing(v, peer), Outgoing(ActOn(v, act, Exact), peer), m);
    var r := ReceiverMoves(v, peer, act);
    ReceptionOrderly(v, peer, act, r);
  }

  lemma StepOrderly<T>(w: World<T>, ev: Event<T>)
    requires BothOrderly(w) && TrueStep(w, ev)
    ensures BothOrderly(Step(w, ev, Exact))
  {
    hide Orderly, TrueAction, ActOn;
    match ev
    case Loss(s, i) =>
      LossOrderly(HalfOf(w, s), i);
      LossOnBackOrderly(HalfOf(w, if s.A? then B else A), i);
    case Act(s, act) =>
      ActOrderly(ViewOf(w, s), if s.A? then w.b else w.a, act);
  }

  lemma ActHoldsOut<T>(v: View<T>, peer: Endpoint<Stamped<T>>, act: Action<T>, m: Stamped<T>)
    requires Orderly(Outgoing(v, peer)) && SafeAction(v, act) && v.me.cfg.maxPacket < MAX_QUEUE_SIZE
    requires var v2 := ActOn(v, act, Exact);
             || Held(Outgoing(v, peer), m)
             || (act.Submitting? && |v.me.send| <= |v2.me.send| && m in v2.me.send[|v.me.send|..])
    ensures Held(Outgoing(ActOn(v, act, Exact), peer), m)
  {
    var h, h2 := Outgoing(v, peer), Outgoing(ActOn(v, act, Exact), peer);
    NumbersOf(h);
    hide Orderly, ActOn, Held, SnInSeq, SnRangeValid, CsValid, Numbers;
    var mv := SenderMoves(v, peer, act);
    if act.Submitting? {
      assert h2.x.send[|h.x.send|..] == mv.more;
    }
    MoveHolds(h, h2, mv, m);
  }

  lemma ActHoldsIn<T>(v: View<T>, peer: Endpoint<Stamped<T>>, act: Action<T>, m: Stamped<T>)
    requires Orderly(Outgoing(v, peer)) && Orderly(Incoming(v, peer)) && SafeAction(v, act)
             && Held(Incoming(v, peer), m)
    ensures Held(Incoming(ActOn(v, act, Exact), peer), m)
  {
    NumbersOf(Outgoing(v, peer));
    NumbersOf(Incoming(v, peer));
    hide Orderly, ActOn, Held, Receives, Accounts, Numbers;
    var r := ReceiverMoves(v, peer, act);
    ReceptionHolds(v, peer, act, r, m);
  }

  lemma HeldIgnoresLinks<T>(h: Half<T>, h2: Half<T>, m: Stamped<T>)
    requires Held(h, m) && h2.x == h.x && h2.y == h.y && h2.led == h.led
    ensures Held(h2, m)
  {
    if i :| InEntry(h, m, i) {
      assert InEntry(h2, m, i);
    }
  }

  lemma StepHolds<T>(w: World<T>, ev: Event<T>, s: Side, m: Stamped<T>)
    requires BothOrderly(w) && SafeStep(w, ev) && Me(w, s).cfg.maxPacket < MAX_QUEUE_SIZE
    requires Held(HalfOf(w, s), m) || m in AcceptedIn(w, ev, s)
    ensures Held(HalfOf(Step(w, ev, Exact), s), m)
  {
    hide Orderly, SafeAction, ActOn, Held;
    match ev
    case Loss(side, i) => HeldIgnoresLinks(HalfOf(w, s), HalfOf(Step(w, ev, Exact), s), m);
    case Act(side, act) =>
      var v := ViewOf(w, side);
      var peer := if side.A? then w.b else w.a;
      if side == s {
        ActHoldsOut(v, peer, act, m);
      } else {
        ActHoldsIn(v, peer, act, m);
      }
  }

  lemma ConfigStays<T>(w: World<T>, ev: Event<T>, s: Side)
    ensures Me(Step(w, ev, Exact), s).cfg == Me(w, s).cfg
  {
    if ev.Act? && ev.side == s {
      var v := ViewOf(w, s);
      PerformedConfig(v, ev.action);
    }
  }

  lemma {:induction false} RunOrderly<T>(w: World<T>, evs: seq<Event<T>>)
    requires BothOrderly(w) && RunTrue(w, evs)
    ensures BothOrderly(Run(w, evs, Exact))
    decreases |evs|
  {
    hide Step, BothOrderly, TrueStep;
    if evs != [] {
      var init := evs[..|evs| - 1];
      assert forall k :: 0 <= k < |init| ==> init[..k] == evs[..k];
      RunOrderly(w, init);
      assert evs[..|init|] == init;
      StepOrderly(Run(w, init, Exact), evs[|evs| - 1]);
    }
  }

  lemma {:induction false} RunConfig<T>(w: World<T>, evs: seq<Event<T>>, s: Side)
    ensures Me(Run(w, evs, Exact), s).cfg == Me(w, s).cfg
    decreases |evs|
  {
    hide Step, Me;
    if evs != [] {
      RunConfig(w, evs[..|evs| - 1], s);
      ConfigStays(Run(w, evs[..|evs| - 1], Exact), evs[|evs| - 1], s);
    }
  }

  lemma {:induction false} RunHolds<T>(w: World<T>, evs: seq<Event<T>>, s: Side, m: Stamped<T>)
    requires BothOrderly(w) && RunSafe(w, evs) && Me(w, s).cfg.maxPacket < MAX_QUEUE_SIZE
    requires m in Accepted(w, evs, s)
    ensures Held(HalfOf(Run(w, evs, Exact), s), m)
    decreases |evs|
  {
    hide Step, BothOrderly, SafeStep, Held, HalfOf, AcceptedIn, Me, RunTrue;
    var init := evs[..|evs| - 1];
    assert forall k :: 0 <= k < |init| ==> init[..k] == evs[..k];
    assert evs[..|init|] == init;
    var w1 := Run(w, init, Exact);
    SafeIsTrue(w, init);
    RunOrderly(w, init);
    RunConfig(w, init, s);
    if m in Accepted(w, init, s) {
      RunHolds(w, init, s, m);
    }
    StepHolds(w1, evs[|evs| - 1], s, m);
  }

  /** Conservation: whatever is lost on the links and however often packets are
      resent, every message sr_send accepted has been handed up, waits to be
      sent, or is queued for retransmission above all the peer has taken. */
  lemma NothingIsLost<T>(client: Config, server: Config, x: int, y: int, evs: seq<Event<T>>, s: Side, m: Stamped<T>)
    requires client.maxPacket < MAX_QUEUE_SIZE && server.maxPacket < MAX_QUEUE_SIZE
    requires RunSafe(Established(client, server, x, y, Exact), evs)
    requires m in Accepted(Established(client, server, x, y, Exact), evs, s)
    ensures Held(HalfOf(Run(Established(client, server, x, y, Exact), evs, Exact), s), m)
  {
    EstablishedOrderly<T>(client, server, x, y);
    hide Run, RunSafe, Accepted, Held;
    RunHolds(Established(client, server, x, y, Exact), evs, s, m);
  }

  lemma EstablishedOrderly<T>(client: Config, server: Config, x: int, y: int)
    ensures BothOrderly<T>(Established(client, server, x, y, Exact))
  {
  }

  /** The next packet in sequence, if the receiver is in state RETRRUN, is
      retransmitted data or the closing heartbeat. */
  ghost predicate OnlyResent<T>(h: Half<T>) {
    h.y.state.Running? && h.link != [] && h.link[0].sn == h.y.snR && !h.link[0].kind.DiscReq? ==>
      h.link[0].kind.RetrData? || h.link[0].kind.Heartbeat?
  }

  /** New data in sequence, which RETRRUN would count but not hand up, and
      requests in sequence never meet a side in that state. */
  lemma OnlyResentInRetransmission<T>(client: Config, server: Config, x: int, y: int, evs: seq<Event<T>>, s: Side)
    requires RunTrue(Established(client, server, x, y, Exact), evs)
    ensures OnlyResent(HalfOf(Run(Established(client, server, x, y, Exact), evs, Exact), s))
  {
    EstablishedOrderly<T>(client, server, x, y);
    RunOrderly(Established(client, server, x, y, Exact), evs);
    var h := HalfOf(Run(Established(client, server, x, y, Exact), evs, Exact), s);
    assert Orderly(h);
    hide Orderly, Run;
    if h.y.state.Running? && h.link != [] && h.link[0].sn == h.y.snR && !h.link[0].kind.DiscReq? {
      NextInRetransmission(h);
    }
  }

  lemma ReceiveConfig<M>(e: Endpoint<M>, p: Packet<M>, cts: bool)
    ensures Receive(e, p, cts, Exact).e.cfg == e.cfg
  {
    AnswerKeeps(e, p, Exact);
    hide HandleRetrReq, SnInSeq, SnRangeValid, CsValid, RemoveConfirmed;
  }

  lemma PerformedConfig<T>(v: View<T>, act: Action<T>)
    ensures Performed(v, act, Exact).e.cfg == v.me.cfg
  {
    if act.Receiving? && v.inc != [] {
      ReceiveConfig(v.me, v.inc[0], act.ctsInSeq);
      hide Receive;
    }
  }
}
