/** What the application reads: the messages the receive buffer accepted, oldest
    first, each once. */
module SrReading {
  import opened Words
  import opened Wrappers
  import opened SrEndpoint
  import opened SrWorld
  import opened SrInvariant
  import opened SrSafety
  import opened SrRefinement
  import opened SrConservation
  import opened SrDelivery

  function Peer(s: Side): Side {
    if s.A? then B else A
  }

  /** What the application of side s reads in one event. */
  function ReadIn<T>(w: World<T>, ev: Event<T>, s: Side): seq<Stamped<T>> {
    if ev.Act? && ev.side == s && ev.action.Fetching? then
      var message := Fetch(Me(w, s)).message;
      if message.Some? then [message.value] else []
    else []
  }

  function Read<T>(w: World<T>, evs: seq<Event<T>>, s: Side, a: Arith): seq<Stamped<T>>
    decreases |evs|
  {
    if evs == [] then []
    else
      var init := evs[..|evs| - 1];
      Read(w, init, s, a) + ReadIn(Run(w, init, a), evs[|evs| - 1], s)
  }

  /** A fetch reads the oldest buffered message whenever there is one. */
  lemma FetchReads<T>(w: World<T>, ev: Event<T>, s: Side)
    ensures ReadIn(w, ev, s) == if ev == Act(s, Fetching) && Me(w, s).app != [] then Me(w, s).app[..1] else []
  {
  }

  /* ----- nothing but a fetch takes from the buffer ----- */

  lemma {:induction false} PushAllExtends<X>(q: seq<X>, xs: seq<X>, cap: nat)
    ensures q <= PushAll(q, xs, cap)
    decreases |xs|
  {
    if xs != [] {
      PushAllExtends(Push(q, xs[0], cap), xs[1..], cap);
    }
  }

  lemma ReceiveExtends<M>(e: Endpoint<M>, p: Packet<M>, cts: bool, a: Arith)
    ensures e.app <= Receive(e, p, cts, a).e.app
  {
    AnswerKeeps(e, p, a);
    PushAllExtends(e.app, p.msgs, e.cfg.sendMax);
    hide HandleRetrReq, PushAll, SnInSeq, SnRangeValid, CsValid, RemoveConfirmed;
  }

  lemma PerformedExtends<T>(v: View<T>, act: Action<T>, a: Arith)
    requires !act.Fetching?
    ensures v.me.app <= Performed(v, act, a).e.app
  {
    hide Receive, PushAll, Stamp;
    if act.Receiving? && v.inc != [] {
      ReceiveExtends(v.me, v.inc[0], act.ctsInSeq, a);
    }
  }

  lemma ActReads<T>(v: View<T>, act: Action<T>, a: Arith, read: seq<Stamped<T>>)
    requires v.theirs.handed == read + v.me.app
    ensures var v2 := ActOn(v, act, a);
            var message := if act.Fetching? then Fetch(v.me).message else None;
            v2.theirs.handed == read + (if message.Some? then [message.value] else []) + v2.me.app
  {
    if !act.Fetching? {
      PerformedExtends(v, act, a);
    }
    hide Performed;
    var v2 := ActOn(v, act, a);
    assert v2.theirs.handed == v.theirs.handed
        + (if |v.me.app| <= |v2.me.app| then v2.me.app[|v.me.app|..] else []);
  }

  /* ----- runs ----- */

  /** What side s has been handed, read and still buffers. */
  ghost predicate ReadSoFar<T>(w: World<T>, s: Side, read: seq<Stamped<T>>) {
    HalfOf(w, Peer(s)).led.handed == read + Me(w, s).app
  }

  lemma StepReads<T>(w: World<T>, ev: Event<T>, s: Side, a: Arith, read: seq<Stamped<T>>)
    requires ReadSoFar(w, s, read)
    ensures ReadSoFar(Step(w, ev, a), s, read + ReadIn(w, ev, s))
  {
    if ev.Act? && ev.side == s {
      ActReads(ViewOf(w, s), ev.action, a, read);
    } else {
      assert read + [] == read;
    }
    hide ActOn, Fetch;
  }

  /** In every run the messages accepted by a side's receive buffer are those
      read so far, in that order, followed by those still buffered. */
  lemma {:induction false} HandedIsReadAndBuffered<T>(
      client: Config, server: Config, x: int, y: int, evs: seq<Event<T>>, s: Side, a: Arith)
    ensures var w0 := Established<T>(client, server, x, y, a);
            var w := Run(w0, evs, a);
            HalfOf(w, Peer(s)).led.handed == Read(w0, evs, s, a) + Me(w, s).app
    decreases |evs|
  {
    var w0 := Established<T>(client, server, x, y, a);
    if evs != [] {
      hide Established, Step, ReadIn, HalfOf, Me;
      HandedIsReadAndBuffered(client, server, x, y, evs[..|evs| - 1], s, a);
      StepReads(Run(w0, evs[..|evs| - 1], a), evs[|evs| - 1], s, a, Read(w0, evs[..|evs| - 1], s, a));
    }
  }

  lemma PrefixOfSubsequence<T(!new)>(xs: seq<T>, ys: seq<T>, zs: seq<T>)
    requires IsSubsequence(ys, zs) && xs <= ys
    ensures IsSubsequence(xs, zs)
  {
    var pos: seq<nat> :| PicksFrom(pos, ys, zs);
    assert PicksFrom(pos[..|xs|], xs, zs);
  }

  lemma BodiesPrefix<T>(a: seq<Stamped<T>>, b: seq<Stamped<T>>)
    ensures Bodies(a) <= Bodies(a + b)
  {
  }

  lemma ReadInOrder<T(!new)>(
      client: Config, server: Config, x: int, y: int, evs: seq<Event<T>>, s: Side, a: Arith)
    requires var led := HalfOf(Run(Established<T>(client, server, x, y, a), evs, a), Peer(s)).led;
             IsSubsequence(Bodies(led.handed), led.submitted)
    ensures var w0 := Established<T>(client, server, x, y, a);
            IsSubsequence(Bodies(Read(w0, evs, s, a)), HalfOf(Run(w0, evs, a), Peer(s)).led.submitted)
  {
    var w0 := Established<T>(client, server, x, y, a);
    hide Established, Run, Read, HalfOf, Me, IsSubsequence;
    HandedIsReadAndBuffered(client, server, x, y, evs, s, a);
    var w := Run(w0, evs, a);
    BodiesPrefix(Read(w0, evs, s, a), Me(w, s).app);
    var led := HalfOf(w, Peer(s)).led;
    PrefixOfSubsequence(Bodies(Read(w0, evs, s, a)), Bodies(led.handed), led.submitted);
  }

  /** End to end for the application of the 32-bit program: what it reads is a
      subsequence, in order and none twice, of what the peer submitted. */
  lemma ReadInOrder32<T(!new)>(client: Config, server: Config, x: int, y: int, evs: seq<Event<T>>, s: Side)
    requires 0 <= x < U32 && 0 <= y < U32
    requires RunClean(Established(client, server, x, y, Exact), evs)
    ensures var w0 := Established<T>(client, server, x, y, Wrapped);
            IsSubsequence(Bodies(Read(w0, evs, s, Wrapped)), HalfOf(Run(w0, evs, Wrapped), Peer(s)).led.submitted)
  {
    hide Established, Run, Read, IsSubsequence, RunClean;
    EndToEnd32(client, server, x, y, evs);
    ReadInOrder(client, server, x, y, evs, s, Wrapped);
  }

  /** And all of it: where delivery is complete, once the buffer is empty the
      application has read exactly the messages accepted from the peer. */
  lemma ReadExactlyOnce32<T(!new)>(client: Config, server: Config, x: int, y: int, evs: seq<Event<T>>, s: Side)
    requires 0 <= x < U32 && 0 <= y < U32 && client.maxPacket < MAX_QUEUE_SIZE && server.maxPacket < MAX_QUEUE_SIZE
    requires var w0 := Established<T>(client, server, x, y, Exact);
             RunSafe(w0, evs) && RunClean(w0, evs) && Drained(HalfOf(Run(w0, evs, Exact), Peer(s)))
    requires Me(Run(Established<T>(client, server, x, y, Wrapped), evs, Wrapped), s).app == []
    ensures Read(Established<T>(client, server, x, y, Wrapped), evs, s, Wrapped)
         == Accepted(Established<T>(client, server, x, y, Exact), evs, Peer(s))
  {
    hide Established, Run, Read, Accepted, RunSafe, RunClean, Drained, Me;
    ExactlyOnce32(client, server, x, y, evs, Peer(s));
    HandedIsReadAndBuffered(client, server, x, y, evs, s, Wrapped);
  }
}
