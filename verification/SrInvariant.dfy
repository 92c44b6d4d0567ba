/** The invariant of one direction of an SR connection, over unbounded numbers. */
module SrInvariant {
  import opened Words
  import opened SrEndpoint
  import opened SrWorld

  /** Messages flow from x over link to y; y's own packets return over back. */
  datatype Half<T> = Half(
    x: Endpoint<Stamped<T>>, y: Endpoint<Stamped<T>>,
    link: seq<Packet<Stamped<T>>>, back: seq<Packet<Stamped<T>>>, led: Ledger<T>)

  function Outgoing<T>(v: View<T>, peer: Endpoint<Stamped<T>>): Half<T> {
    Half(v.me, peer, v.out, v.inc, v.mine)
  }

  function Incoming<T>(v: View<T>, peer: Endpoint<Stamped<T>>): Half<T> {
    Half(peer, v.me, v.inc, v.out, v.theirs)
  }

  /* ----- order of ranks ----- */

  ghost predicate Sorted<T>(ms: seq<Stamped<T>>) {
    forall i, j :: 0 <= i < j < |ms| ==> ms[i].rank < ms[j].rank
  }

  ghost predicate Before<T>(m1: seq<Stamped<T>>, m2: seq<Stamped<T>>) {
    forall i, j :: 0 <= i < |m1| && 0 <= j < |m2| ==> m1[i].rank < m2[j].rank
  }

  ghost predicate AtLeast<T>(ms: seq<Stamped<T>>, n: nat) {
    forall i :: 0 <= i < |ms| ==> n <= ms[i].rank
  }

  ghost predicate Below<T>(ms: seq<Stamped<T>>, n: nat) {
    forall i :: 0 <= i < |ms| ==> ms[i].rank < n
  }

  /** Every message is the one submitted under its rank. */
  ghost predicate Genuine<T>(ms: seq<Stamped<T>>, submitted: seq<T>) {
    forall i :: 0 <= i < |ms| ==> ms[i].rank < |submitted| && ms[i].body == submitted[ms[i].rank]
  }

  /* ----- sequence numbers ----- */

  ghost predicate Numbers<T>(h: Half<T>) {
    && h.y.snR == h.y.csT + 1
    && h.y.csT < h.x.snT
    && h.x.csR < h.x.snT
    && (forall i :: 0 <= i < |h.link| && !h.link[i].kind.DiscReq? ==>
          h.y.snR <= h.link[i].sn < h.x.snT)
    && (forall i, j :: 0 <= i < j < |h.link| && !h.link[i].kind.DiscReq? && !h.link[j].kind.DiscReq? ==>
          h.link[i].sn < h.link[j].sn)
    && (forall i :: 0 <= i < |h.back| ==> h.back[i].cs <= h.y.csT)
    && (forall k :: 0 <= k < |h.x.retr| ==> h.x.retr[k].sn < h.x.snT)
    && (forall k, l :: 0 <= k < l < |h.x.retr| ==> h.x.retr[k].sn < h.x.retr[l].sn)
  }

  /* ----- messages held by the sender ----- */

  ghost predicate Queued<T>(h: Half<T>) {
    && |h.x.retr| <= MAX_QUEUE_SIZE
    && Sorted(h.x.send)
    && AtLeast(h.x.send, h.led.top)
    && Genuine(h.x.send, h.led.submitted)
    && (forall k :: 0 <= k < |h.x.retr| ==>
          && Sorted(h.x.retr[k].msgs)
          && Before(h.x.retr[k].msgs, h.x.send)
          && Genuine(h.x.retr[k].msgs, h.led.submitted))
    && (forall k, l :: 0 <= k < l < |h.x.retr| ==> Before(h.x.retr[k].msgs, h.x.retr[l].msgs))
  }

  /* ----- requests and responses ----- */

  /** At most one retransmission request or response is under way, and none
      while the receiver takes messages. */
  ghost predicate Exclusive<T>(h: Half<T>) {
    && (forall i, j :: 0 <= i < |h.back| && 0 <= j < |h.link| ==>
          !(h.back[i].kind.RetrReq? && h.link[j].kind.RetrResp?))
    && (forall i, j :: 0 <= i < j < |h.back| ==>
          !(h.back[i].kind.RetrReq? && h.back[j].kind.RetrReq?))
    && (forall i, j :: 0 <= i < j < |h.link| ==>
          !(h.link[i].kind.RetrResp? && h.link[j].kind.RetrResp?))
    && (Flowing(h.y.state) ==>
          && (forall i :: 0 <= i < |h.back| ==> !h.back[i].kind.RetrReq?)
          && (forall j :: 0 <= j < |h.link| ==> !h.link[j].kind.RetrResp?))
  }

  /* ----- packets whose messages may still be handed up ----- */

  function AfterResp<M>(link: seq<Packet<M>>): seq<Packet<M>> {
    if link == [] then []
    else if link[0].kind.RetrResp? then link[1..]
    else AfterResp(link[1..])
  }

  function Live<M>(s: State, link: seq<Packet<M>>): seq<Packet<M>> {
    if Flowing(s) then link else AfterResp(link)
  }

  ghost predicate InOrder<T>(s: seq<Packet<Stamped<T>>>, x: Endpoint<Stamped<T>>, top: nat) {
    && (forall i :: 0 <= i < |s| ==>
          Sorted(s[i].msgs) && AtLeast(s[i].msgs, top) && Before(s[i].msgs, x.send))
    && (forall i, j :: 0 <= i < j < |s| ==> Before(s[i].msgs, s[j].msgs))
    && (forall i, k :: 0 <= i < |s| && 0 <= k < |x.retr| && s[i].sn < x.retr[k].sn ==>
          Before(s[i].msgs, x.retr[k].msgs))
  }

  /** Entries numbered above c hold no message below top. */
  ghost predicate NewAbove<T>(retr: seq<Entry<Stamped<T>>>, c: int, top: nat) {
    forall k :: 0 <= k < |retr| && c < retr[k].sn ==> AtLeast(retr[k].msgs, top)
  }

  ghost predicate AllNew<T>(retr: seq<Entry<Stamped<T>>>, top: nat) {
    forall k :: 0 <= k < |retr| ==> AtLeast(retr[k].msgs, top)
  }

  /** The key to exactly-once delivery: what the sender could retransmit in
      answer to the receiver has not been handed up yet. */
  ghost predicate Fresh<T>(h: Half<T>) {
    && (Flowing(h.y.state) ==> NewAbove(h.x.retr, h.y.csT, h.led.top))
    && (forall i :: 0 <= i < |h.back| && h.back[i].kind.RetrReq? ==>
          NewAbove(h.x.retr, h.back[i].cs, h.led.top))
    && ((exists j :: 0 <= j < |h.link| && h.link[j].kind.RetrResp?) ==> AllNew(h.x.retr, h.led.top))
  }

  ghost predicate Delivered<T>(h: Half<T>) {
    && Sorted(h.led.handed)
    && Below(h.led.handed, h.led.top)
    && h.led.top <= |h.led.submitted|
    && Genuine(h.led.handed, h.led.submitted)
    && (forall i :: 0 <= i < |h.link| ==> Genuine(h.link[i].msgs, h.led.submitted))
    && (forall i :: 0 <= i < |h.link| ==> h.link[i].msgs == [] || h.link[i].kind.Data? || h.link[i].kind.RetrData?)
  }

  ghost predicate DirInv<T>(h: Half<T>) {
    && Numbers(h)
    && Queued(h)
    && Exclusive(h)
    && InOrder(Live(h.y.state, h.link), h.x, h.led.top)
    && Fresh(h)
    && Delivered(h)
  }

  ghost predicate Inv<T>(w: World<T>) {
    && DirInv(Half(w.a, w.b, w.ab, w.ba, w.fromA))
    && DirInv(Half(w.b, w.a, w.ba, w.ab, w.fromB))
  }

  /** No number that is still queued, last confirmed, or confirmed by a packet
      under way lies more than 2^32 packets behind the next number to send. */
  ghost predicate HalfInWindow<T>(h: Half<T>) {
    && h.x.snT - h.x.csR <= U32
    && (forall k :: 0 <= k < |h.x.retr| ==> h.x.snT - h.x.retr[k].sn <= U32)
    && (forall i :: 0 <= i < |h.back| ==> h.x.snT - h.back[i].cs <= U32)
  }

  ghost predicate InWindow<T>(w: World<T>) {
    && HalfInWindow(Half(w.a, w.b, w.ab, w.ba, w.fromA))
    && HalfInWindow(Half(w.b, w.a, w.ba, w.ab, w.fromB))
  }

  /* ----- queues and links ----- */

  lemma {:induction false} AfterRespAppend<M>(l: seq<Packet<M>>, m: seq<Packet<M>>)
    ensures AfterResp(l + m) ==
            if exists j :: 0 <= j < |l| && l[j].kind.RetrResp? then AfterResp(l) + m else AfterResp(m)
  {
    if l == [] {
      assert l + m == m;
    } else {
      AfterRespAppend(l[1..], m);
      assert (l + m)[1..] == l[1..] + m;
      if !l[0].kind.RetrResp? {
        assert forall j :: 0 <= j < |l[1..]| ==> l[1..][j] == l[j + 1];
        if exists j :: 0 <= j < |l| && l[j].kind.RetrResp? {
          var j :| 0 <= j < |l| && l[j].kind.RetrResp?;
          assert l[1..][j - 1].kind.RetrResp?;
        }
      }
    }
  }

  lemma {:induction false} AfterRespNone<M>(l: seq<Packet<M>>)
    requires forall j :: 0 <= j < |l| ==> !l[j].kind.RetrResp?
    ensures AfterResp(l) == []
  {
    if l != [] {
      AfterRespNone(l[1..]);
    }
  }

  /** Losing one packet loses at most one live packet, or all of them. */
  lemma {:induction false} AfterRespWithout<M>(l: seq<Packet<M>>, i: nat) returns (k: nat)
    requires forall i, j :: 0 <= i < j < |l| ==> !(l[i].kind.RetrResp? && l[j].kind.RetrResp?)
    ensures AfterResp(Without(l, i)) == [] || AfterResp(Without(l, i)) == Without(AfterResp(l), k)
  {
    k := 0;
    if i >= |l| {
      k := |AfterResp(l)|;
    } else if l[0].kind.RetrResp? {
      if i == 0 {
        assert Without(l, 0) == l[1..];
        AfterRespNone(l[1..]);
      } else {
        k := i - 1;
        assert Without(l, i)[0] == l[0];
        assert Without(l, i)[1..] == Without(l[1..], k);
      }
    } else if i == 0 {
      assert Without(l, 0) == l[1..];
      k := |AfterResp(l)|;
    } else {
      k := AfterRespWithout(l[1..], i - 1);
      assert Without(l, i)[0] == l[0];
      assert Without(l, i)[1..] == Without(l[1..], i - 1);
    }
  }

  lemma {:induction false} AfterRespBound<M>(l: seq<Packet<M>>) returns (k: nat)
    ensures k <= |l| && AfterResp(l) == l[k..]
  {
    if l == [] {
      k := 0;
    } else if l[0].kind.RetrResp? {
      k := 1;
    } else {
      k := AfterRespBound(l[1..]);
      k := k + 1;
    }
  }

  /** Where the trim stops: the first entry whose number looks like c in 32
      bits, |q| if there is none. */
  function Found<M>(q: seq<Entry<M>>, c: int): (j: nat)
    ensures j <= |q|
    ensures forall i :: 0 <= i < j ==> Diff32(q[i].sn, c) != 0
    ensures j < |q| ==> Diff32(q[j].sn, c) == 0
  {
    if q == [] || Diff32(q[0].sn, c) == 0 then 0 else 1 + Found(q[1..], c)
  }

  lemma {:induction false} RemoveConfirmedIs<M>(q: seq<Entry<M>>, c: int)
    ensures RemoveConfirmed(q, c) == if Found(q, c) < |q| then q[Found(q, c) + 1..] else []
  {
    if q != [] && Diff32(q[0].sn, c) != 0 {
      RemoveConfirmedIs(q[1..], c);
    }
  }

  /** The entry found is followed only by entries above c. */
  ghost predicate CleanCut<M>(q: seq<Entry<M>>, c: int) {
    forall i :: Found(q, c) < i < |q| ==> c < q[i].sn
  }

  /** The entry found is confirmed; if none is found, all are. */
  ghost predicate SafeCut<M>(q: seq<Entry<M>>, c: int) {
    if Found(q, c) < |q| then q[Found(q, c)].sn <= c else forall i :: 0 <= i < |q| ==> q[i].sn <= c
  }

  lemma WindowCutsClean<M>(q: seq<Entry<M>>, c: int)
    requires forall i :: 0 <= i < |q| ==> -U32 < q[i].sn - c < U32
    requires forall i, j :: 0 <= i < j < |q| ==> q[i].sn < q[j].sn
    ensures CleanCut(q, c)
  {
    var j := Found(q, c);
    if j < |q| {
      assert q[j].sn == c;
    }
  }

  /** Among numbers less than 2^32 apart the queue is cut exactly above c, or emptied. */
  lemma {:induction false} RemoveConfirmedCuts<M>(q: seq<Entry<M>>, c: int) returns (k: nat)
    requires forall i :: 0 <= i < |q| ==> -U32 < q[i].sn - c < U32
    requires forall i, j :: 0 <= i < j < |q| ==> q[i].sn < q[j].sn
    ensures k <= |q| && RemoveConfirmed(q, c) == q[k..]
    ensures forall i :: k <= i < |q| ==> c < q[i].sn
  {
    k := 0;
    if q != [] {
      assert Diff32(q[0].sn, c) == 0 <==> q[0].sn == c;
      if q[0].sn == c {
        k := 1;
      } else {
        k := RemoveConfirmedCuts(q[1..], c);
        k := k + 1;
      }
    }
  }

  lemma {:induction false} RemoveConfirmedSuffix<M>(q: seq<Entry<M>>, c: int) returns (k: nat)
    ensures k <= |q| && RemoveConfirmed(q, c) == q[k..]
  {
    k := 0;
    if q != [] {
      if Diff32(q[0].sn, c) == 0 {
        k := 1;
      } else {
        k := RemoveConfirmedSuffix(q[1..], c);
        k := k + 1;
      }
    }
  }

  function Renumbered<M>(q: seq<Entry<M>>, n: int): (r: seq<Entry<M>>) {
    seq(|q|, i requires 0 <= i < |q| => Entry(n + i, q[i].msgs))
  }

  function Resent<M>(q: seq<Entry<M>>, n: int, cs: int): (r: seq<Packet<M>>) {
    seq(|q|, i requires 0 <= i < |q| => Packet(RetrData, n + i, cs, q[i].msgs))
  }

  lemma RenumberedStep<M>(pre: seq<Entry<M>>, q: seq<Entry<M>>, n: int)
    requires q != []
    ensures pre + Renumbered(q, n) == pre + [Entry(n, q[0].msgs)] + Renumbered(q[1..], n + 1)
  {
  }

  lemma ResentStep<M>(pre: seq<Packet<M>>, q: seq<Entry<M>>, n: int, cs: int)
    requires q != []
    ensures pre + Resent(q, n, cs) == pre + [Packet(RetrData, n, cs, q[0].msgs)] + Resent(q[1..], n + 1, cs)
  {
  }

  lemma {:induction false} RetransmitAllIs<M>(o: Outcome<M>, q: seq<Entry<M>>)
    requires |o.e.retr| + |q| <= MAX_QUEUE_SIZE
    ensures var r := RetransmitAll(o, q, Exact);
            && r.e == o.e.(snT := o.e.snT + |q|, retr := o.e.retr + Renumbered(q, o.e.snT))
            && r.out == (if o.e.attached then o.out + Resent(q, o.e.snT, o.e.csT) else o.out)
            && r.up == o.up
    decreases |q|
  {
    if q == [] {
      assert o.e.retr + Renumbered(q, o.e.snT) == o.e.retr;
      assert o.out + Resent(q, o.e.snT, o.e.csT) == o.out;
    } else {
      var n := o.e.snT;
      var x := Entry(n, q[0].msgs);
      var p := Packet(RetrData, n, o.e.csT, q[0].msgs);
      RenumberedStep(o.e.retr, q, n);
      ResentStep(o.out, q, n, o.e.csT);
      hide Renumbered, Resent;
      var o1 := Emit(o.(e := o.e.(retr := Push(o.e.retr, x, MAX_QUEUE_SIZE))), RetrData, q[0].msgs, Exact);
      assert o1 == Outcome(o.e.(snT := n + 1, retr := o.e.retr + [x]),
                           if o.e.attached then o.out + [p] else o.out, o.up);
      assert RetransmitAll(o, q, Exact) == RetransmitAll(o1, q[1..], Exact);
      hide RetransmitAll, Emit;
      RetransmitAllIs(o1, q[1..]);
    }
  }

  /** What the buffer accepts of a batch is a prefix of it. */
  lemma {:induction false} PushAllIs<X>(q: seq<X>, xs: seq<X>, cap: nat) returns (k: nat)
    ensures k <= |xs| && PushAll(q, xs, cap) == q + xs[..k]
    ensures |q| == cap ==> k == 0
    decreases |xs|
  {
    k := 0;
    if xs != [] {
      if |q| == cap {
        k := PushAllIs(q, xs[1..], cap);
      } else {
        k := PushAllIs(q + [xs[0]], xs[1..], cap);
        assert q + [xs[0]] + xs[1..][..k] == q + xs[..k + 1];
        k := k + 1;
      }
    }
  }

  /** Resending changes nothing but the queue and the next number. */
  lemma {:induction false} ResendKeeps<M>(o: Outcome<M>, q: seq<Entry<M>>, a: Arith)
    ensures var e2 := RetransmitAll(o, q, a).e;
            e2 == o.e.(retr := e2.retr, snT := e2.snT)
    decreases |q|
  {
    if q != [] {
      var queued := o.(e := o.e.(retr := Push(o.e.retr, Entry(o.e.snT, q[0].msgs), MAX_QUEUE_SIZE)));
      ResendKeeps(Emit(queued, RetrData, q[0].msgs, a), q[1..], a);
    }
  }

  /** Answering a request leaves what was submitted and handed up alone; in
      state Running, in sequence, it closes the connection. */
  lemma AnswerKeeps<M>(e: Endpoint<M>, p: Packet<M>, a: Arith)
    ensures var e2 := HandleRetrReq(e, p, a).e;
            var closing := e.state.Running? && SnInSeq(e, p);
            && e2.cfg == e.cfg && e2.send == e.send && e2.app == e.app
            && e2.state == (if closing then Closed else if SnInSeq(e, p) then e.state else WaitResp)
            && e2.attached == (e.attached && !closing)
  {
    hide SnInSeq, RetransmitAll, RemoveConfirmed;
    var o := Emit(ApplyRequest(e, p, a), RetrResp, [], a);
    ResendKeeps(o.(e := o.e.(retr := [])), o.e.retr, a);
  }
}
