/** Orders and the signal: which bytes each order puts on the signal, over whole
    runs and whatever the other threads do in between. */
module PdiCommands {
  import opened ByteOrder
  import opened PdiMachine
  import opened PdiSafety
  import Ixl = Interlocking

  /* ----- the bytes of a payload ----- */

  /** Basic aspect, way of showing it and national aspect: bytes 0, 8 and 9. */
  predicate Shows(p: Payload, basic: byte, way: byte, national: byte) {
    p[0] == basic && p[8] == way && p[9] == national
  }

  predicate Proceed(p: Payload) {
    Shows(p, 0x01, 0x01, 0xFE)
  }

  predicate StopSignal(p: Payload) {
    Shows(p, 0x02, 0x01, 0xFE)
  }

  /** The bytes that belong to an aspect ordered by name. */
  predicate ShowsAspect(p: Payload, a: Aspect) {
    && (a == ViaLibre <==> Shows(p, 0x01, 0x01, 0xFE))
    && (a == Parada <==> Shows(p, 0x02, 0x01, 0xFE))
    && (a == AnuncioParada <==> Shows(p, 0x03, 0x01, 0xFE))
    && (a == AnuncioPrecaucion <==> Shows(p, 0x05, 0x01, 0xFE))
    && (a == Rebase <==> Shows(p, 0xFE, 0x01, 0x01))
    && (a == ParadaSelectivaN2 <==> Shows(p, 0xFE, 0x01, 0x02))
    && (a == RebaseAutorizado <==> Shows(p, 0xFE, 0x01, 0x03))
    && (a == Apagada <==> Shows(p, 0x02, 0x0F, 0xFE))
  }

  /** The bytes no aspect uses. */
  predicate Framed(p: Payload) {
    (forall i :: 1 <= i < 6 ==> p[i] == 0) && forall i :: 6 <= i < PAYLOAD_SIZE && i != 8 && i != 9 ==> p[i] == 0xFE
  }

  lemma VectorShows(first: byte, ninth: byte, tenth: byte)
    ensures Framed(Vector(first, ninth, tenth)) && Shows(Vector(first, ninth, tenth), first, ninth, tenth)
  {
  }

  lemma FramedAlike(p: Payload, q: Payload)
    requires Framed(p) && Framed(q) && Shows(p, q[0], q[8], q[9])
    ensures p == q
  {
    forall i | 0 <= i < PAYLOAD_SIZE ensures p[i] == q[i] {
      assert i == 0 || 1 <= i < 6 || 6 <= i;
    }
  }

  lemma PayloadShows(a: Aspect)
    ensures Framed(PayloadOf(a)) && ShowsAspect(PayloadOf(a), a)
  {
    hide Vector, Framed;
    match a
    case ViaLibre => VectorShows(0x01, 0x01, 0xFE);
    case Parada => VectorShows(0x02, 0x01, 0xFE);
    case AnuncioParada => VectorShows(0x03, 0x01, 0xFE);
    case AnuncioPrecaucion => VectorShows(0x05, 0x01, 0xFE);
    case Rebase => VectorShows(0xFE, 0x01, 0x01);
    case ParadaSelectivaN2 => VectorShows(0xFE, 0x01, 0x02);
    case RebaseAutorizado => VectorShows(0xFE, 0x01, 0x03);
    case Apagada => VectorShows(0x02, 0x0F, 0xFE);
  }

  /** An aspect has these bytes and no others, and they name it. */
  lemma PayloadIff(a: Aspect, p: Payload)
    ensures p == PayloadOf(a) <==> Framed(p) && ShowsAspect(p, a)
  {
    hide PayloadOf, Framed;
    PayloadShows(a);
    if Framed(p) && ShowsAspect(p, a) {
      FramedAlike(p, PayloadOf(a));
    }
  }

  /** What the bytes of a command have to do with its order and the plant. */
  ghost predicate Answers(p: Payload, order: Order, plant: Ixl.Plant)
    requires Ixl.WellFormed(plant)
  {
    && Framed(p)
    && match order
       case RequestRoute(id) => if Ixl.Grantable(plant, id) then Proceed(p) else StopSignal(p)
       case ReleaseRoute(_) => StopSignal(p)
       case ShowAspect(a) => ShowsAspect(p, a)
  }

  /* ----- one step ----- */

  /** The main thread takes an order. */
  ghost predicate TakesOrder(w: World, s: Step) {
    s.Commands? && w.main == Idle
  }

  predicate Carries(m: Main) {
    m.Copying? || Commanding(m)
  }

  /** From order to command: the aspect being copied answers the order in hand. */
  lemma TakenStep(w: World, s: Step)
    requires Ixl.WellFormed(w.plant) && TakesOrder(w, s)
    ensures var w2 := Next(w, s);
            && w2.main.Copying? && w2.main.order == s.order && w2.main.k == 0 && w2.log == w.log
            && Answers(PayloadOf(w2.main.aspect), s.order, w.plant)
  {
    hide PayloadOf, Ixl.Grantable, Ixl.WellFormed, Ixl.Request, Answers;
    AnswersOf(w.plant, s.order, Next(w, s).main.aspect);
  }

  lemma AnswersOf(plant: Ixl.Plant, order: Order, a: Aspect)
    requires Ixl.WellFormed(plant)
    requires match order
             case RequestRoute(id) => a == if Ixl.Grantable(plant, id) then ViaLibre else Parada
             case ReleaseRoute(_) => a == Parada
             case ShowAspect(b) => a == b
    ensures Answers(PayloadOf(a), order, plant)
  {
    hide PayloadOf, Ixl.WellFormed, Ixl.Grantable;
    PayloadIff(a, PayloadOf(a));
  }

  /** Every other step keeps the order and the aspect in hand, begins the command
      with the bytes copied, or leaves the order behind. */
  ghost predicate CarriesOn(w: World, w2: World) {
    && (Carries(w2.main) ==> Carries(w.main) && w2.main.order == w.main.order)
    && (w2.main.Copying? ==> w.main.Copying? && w2.main.aspect == w.main.aspect)
    && w.log <= w2.log && |w2.log| <= |w.log| + 2
    && (forall i :: |w.log| <= i < |w2.log| && w2.log[i].CommandBegun? ==>
          && i == |w.log| && |w2.log| == i + 1
          && w.main.Copying? && w2.log[i].payload == w.expected && w.main.k >= PAYLOAD_SIZE)
  }

  lemma OtherStep(w: World, s: Step)
    requires Ixl.WellFormed(w.plant) && !TakesOrder(w, s)
    ensures CarriesOn(w, Next(w, s))
  {
    hide Ixl.WellFormed, Ixl.Request, Ixl.Release, Ixl.Operate, Ixl.Grantable, PayloadOf;
    hide Process, Return;
    match s
    case Processes => ProcessCarriesOn(w);
    case Returns => ReturnCarriesOn(w);
    case _ =>
  }

  lemma ProcessCarriesOn(w: World)
    ensures CarriesOn(w, Process(w))
  {
  }

  lemma ReturnCarriesOn(w: World)
    requires Ixl.WellFormed(w.plant)
    ensures CarriesOn(w, Return(w))
  {
    hide Ixl.WellFormed, Ixl.Release;
  }

  /* ----- runs ----- */

  ghost predicate TakenAt(w: World, steps: seq<Step>, i: nat)
    requires Ixl.WellFormed(w.plant) && i < |steps|
  {
    TakesOrder(Run(w, steps[..i]), steps[i])
  }

  /** The order in hand after n steps was taken at step j, and none since. */
  ghost predicate InHand(w: World, steps: seq<Step>, j: nat, n: nat)
    requires Ixl.WellFormed(w.plant) && n <= |steps|
  {
    j < n && TakenAt(w, steps, j) && forall i :: j < i < n ==> !TakenAt(w, steps, i)
  }

  /** The order was taken at step j and its payload is being copied or sent. */
  ghost predicate HandKept(w: World, steps: seq<Step>, j: nat)
    requires Ixl.WellFormed(w.plant)
  {
    var m := Run(w, steps).main;
    && Carries(m) && InHand(w, steps, j, |steps|) && m.order == steps[j].order
    && (m.Copying? ==> Answers(PayloadOf(m.aspect), m.order, Run(w, steps[..j]).plant))
  }

  lemma TakenBefore(w: World, init: seq<Step>, s: Step, i: nat)
    requires Ixl.WellFormed(w.plant) && i < |init|
    ensures TakenAt(w, init + [s], i) == TakenAt(w, init, i)
  {
    hide Run, TakesOrder;
    assert (init + [s])[..i] == init[..i];
  }

  lemma TakenLast(w: World, init: seq<Step>, s: Step)
    requires Ixl.WellFormed(w.plant)
    ensures TakenAt(w, init + [s], |init|) == TakesOrder(Run(w, init), s)
  {
    hide Run, TakesOrder;
    assert (init + [s])[..|init|] == init;
  }

  lemma InHandBefore(w: World, init: seq<Step>, s: Step, j: nat, n: nat)
    requires Ixl.WellFormed(w.plant) && n <= |init|
    ensures InHand(w, init + [s], j, n) == InHand(w, init, j, n)
  {
    hide TakenAt;
    forall i: nat | i < |init| ensures TakenAt(w, init + [s], i) == TakenAt(w, init, i) {
      TakenBefore(w, init, s, i);
    }
  }

  lemma InHandEarlier(w: World, steps: seq<Step>, j: nat, n: nat)
    requires Ixl.WellFormed(w.plant) && n <= |steps| && InHand(w, steps, j, n)
    ensures j < n
  {
    hide TakenAt;
  }

  lemma SamePrefix(init: seq<Step>, s: Step, n: nat)
    requires n <= |init|
    ensures (init + [s])[..n] == init[..n] && (n < |init| ==> (init + [s])[n] == init[n])
  {
  }

  lemma InHandFurther(w: World, init: seq<Step>, s: Step, j: nat)
    requires Ixl.WellFormed(w.plant) && InHand(w, init, j, |init|) && !TakesOrder(Run(w, init), s)
    ensures InHand(w, init + [s], j, |init| + 1)
  {
    hide TakenAt, TakesOrder, Run;
    InHandBefore(w, init, s, j, |init|);
    TakenLast(w, init, s);
  }

  lemma TakenNow(w: World, init: seq<Step>, s: Step)
    requires Ixl.WellFormed(w.plant) && TakesOrder(Run(w, init), s)
    ensures HandKept(w, init + [s], |init|)
  {
    RunAppend(w, init, s);
    TakenStep(Run(w, init), s);
    TakenLast(w, init, s);
    hide Run, Next, Answers, PayloadOf, TakesOrder, TakenAt, Ixl.WellFormed;
    assert (init + [s])[..|init|] == init;
  }

  lemma HandStays(w: World, init: seq<Step>, s: Step, j: nat)
    requires Ixl.WellFormed(w.plant) && HandKept(w, init, j) && !TakesOrder(Run(w, init), s)
    requires Carries(Run(w, init + [s]).main)
    ensures HandKept(w, init + [s], j)
  {
    RunAppend(w, init, s);
    OtherStep(Run(w, init), s);
    InHandFurther(w, init, s, j);
    hide Run, Next, Answers, PayloadOf, TakesOrder, InHand, Ixl.WellFormed;
    assert (init + [s])[..j] == init[..j] && (init + [s])[j] == init[j] by {
      assert InHand(w, init, j, |init|);
      hide *;
    }
  }

  lemma {:induction false} OrderInHand(w: World, steps: seq<Step>)
    requires Started(w)
    ensures Carries(Run(w, steps).main) ==> exists j :: HandKept(w, steps, j)
    decreases |steps|
  {
    if steps != [] {
      var init, s := steps[..|steps| - 1], steps[|steps| - 1];
      assert steps == init + [s];
      OrderInHand(w, init);
      RunAppend(w, init, s);
      if TakesOrder(Run(w, init), s) {
        TakenNow(w, init, s);
      } else {
        OtherStep(Run(w, init), s);
        hide Run, Next, HandKept, TakesOrder, Ixl.WellFormed;
        if Carries(Run(w, steps).main) {
          var j :| HandKept(w, init, j);
          HandStays(w, init, s, j);
        }
      }
    }
  }

  /** Step n put place r into the log, as a command that answers the order taken
      at step j; no order was taken in between. */
  ghost predicate BegunFor(w: World, steps: seq<Step>, r: nat, j: nat, n: nat)
    requires Ixl.WellFormed(w.plant) && n < |steps| && r < |Run(w, steps).log|
  {
    && |Run(w, steps[..n]).log| == r && |Run(w, steps[..n + 1]).log| == r + 1
    && InHand(w, steps, j, n)
    && Run(w, steps).log[r].CommandBegun?
    && Answers(Run(w, steps).log[r].payload, steps[j].order, Run(w, steps[..j]).plant)
  }

  lemma BegunStays(w: World, init: seq<Step>, s: Step, r: nat, j: nat, n: nat)
    requires Ixl.WellFormed(w.plant) && n < |init| && r < |Run(w, init).log| && BegunFor(w, init, r, j, n)
    requires Run(w, init).log <= Run(w, init + [s]).log
    ensures BegunFor(w, init + [s], r, j, n)
  {
    InHandBefore(w, init, s, j, n);
    SamePrefix(init, s, n);
    SamePrefix(init, s, n + 1);
    InHandEarlier(w, init, j, n);
    SamePrefix(init, s, j);
    hide Run, Next, Answers, InHand, Ixl.WellFormed;
  }

  /** The copy is complete when the command begins. */
  lemma CopiedWhole(w: World, order: Order, plant: Ixl.Plant)
    requires CopyTrue(w) && w.main.Copying? && w.main.k >= PAYLOAD_SIZE
    requires Ixl.WellFormed(plant) && Answers(PayloadOf(w.main.aspect), order, plant)
    ensures Answers(w.expected, order, plant)
  {
    hide Answers, PayloadOf;
    var k := w.main.k;
    assert w.expected[..k] == w.expected && PayloadOf(w.main.aspect)[..k] == PayloadOf(w.main.aspect);
  }

  lemma BegunNow(w: World, init: seq<Step>, s: Step, r: nat, j: nat)
    requires Started(w) && HandKept(w, init, j)
    requires !TakesOrder(Run(w, init), s) && CarriesOn(Run(w, init), Run(w, init + [s]))
    requires |Run(w, init).log| <= r < |Run(w, init + [s]).log| && Run(w, init + [s]).log[r].CommandBegun?
    ensures BegunFor(w, init + [s], r, j, |init|)
  {
    var steps := init + [s];
    RunKept(w, init);
    CopiedWhole(Run(w, init), steps[j].order, Run(w, init[..j]).plant);
    InHandBefore(w, init, s, j, |init|);
    hide Run, Answers, InHand, Ixl.WellFormed, TakesOrder, PayloadOf, CopyTrue;
    assert steps[..|init|] == init && steps[..|init| + 1] == steps && steps[..j] == init[..j];
  }

  /** In every run each command on the signal answers the order taken last before
      it: for a route request it is the proceed signal exactly if the request was
      grantable in the plant as it then was, and the stop signal otherwise; for a
      release it is the stop signal; for an aspect it is that aspect. */
  lemma {:induction false} CommandsAnswerOrders(w: World, steps: seq<Step>, r: nat)
    requires Started(w) && r < |Run(w, steps).log| && Run(w, steps).log[r].CommandBegun?
    ensures exists j: nat, n: nat :: n < |steps| && BegunFor(w, steps, r, j, n)
    decreases |steps|
  {
    if steps != [] {
      var init, s := steps[..|steps| - 1], steps[|steps| - 1];
      assert steps == init + [s];
      RunAppend(w, init, s);
      var w1 := Run(w, init);
      StepProceeds(w1, s);
      hide Run, Next, Answers, PayloadOf, InHand, Ixl.WellFormed;
      if r < |w1.log| {
        CommandsAnswerOrders(w, init, r);
        var j: nat, n: nat :| n < |init| && BegunFor(w, init, r, j, n);
        BegunStays(w, init, s, r, j, n);
      } else if TakesOrder(w1, s) {
        TakenStep(w1, s);
      } else {
        OtherStep(w1, s);
        OrderInHand(w, init);
        var j :| HandKept(w, init, j);
        BegunNow(w, init, s, r, j);
      }
    }
  }

  /* ----- routes ----- */

  /** The command in hand when place r is written is a stop signal, and the
      object controller has reported it since. */
  ghost predicate StopReported(log: seq<Note>, r: nat, i: nat, j: nat)
    requires r <= |log|
  {
    && i < j < r && log[i].CommandBegun? && StopSignal(log[i].payload)
    && (forall k :: i < k < r ==> !log[k].CommandBegun?)
    && log[j].ReportTaken? && log[j].bytes == log[i].payload
  }

  lemma StopFound(log: seq<Note>, r: nat, p: Payload)
    requires 0 < r <= |log| && ConfirmedFor(log, r - 1, p) && StopSignal(p) && !log[r - 1].CommandBegun?
    ensures exists i: nat, j: nat :: StopReported(log, r, i, j)
  {
    hide StopSignal;
    var before := log[..r - 1];
    var c: nat :| LastCommand(before, c) && before[c] == CommandBegun(p);
    var i: nat, j: nat :| LastCommand(before, i) && i < j < |before| && before[j] == ReportTaken(p);
    assert i == c by {
      assert !(i < c) && !(c < i);
    }
    forall k | i < k < r ensures !log[k].CommandBegun? {
      assert k < r - 1 ==> !before[k].CommandBegun?;
    }
    assert StopReported(log, r, i, j);
  }

  /** Before any route was freed the lamp had been ordered to show the stop
      signal, and was reported to show it since. */
  lemma FreedBehindStop(w: World, steps: seq<Step>, r: nat)
    requires Started(w) && r < |Run(w, steps).log| && Run(w, steps).log[r].RouteFreed?
    ensures exists i: nat, j: nat :: StopReported(Run(w, steps).log, r, i, j)
  {
    ConfirmedMeansReported(w, steps, r);
    PayloadShows(Parada);
    hide *;
    StopFound(Run(w, steps).log, r, PayloadOf(Parada));
  }

  /** Step n frees the route of the release order taken at step j. */
  ghost predicate FreedFor(w: World, steps: seq<Step>, r: nat, j: nat, n: nat)
    requires Ixl.WellFormed(w.plant) && n < |steps| && r < |Run(w, steps).log|
  {
    && |Run(w, steps[..n]).log| <= r < |Run(w, steps[..n + 1]).log|
    && InHand(w, steps, j, n)
    && Run(w, steps).log[r].RouteFreed? && steps[j] == Commands(ReleaseRoute(Run(w, steps).log[r].id))
  }

  /** And it was freed for the release order taken last. */
  lemma {:induction false} FreedForRelease(w: World, steps: seq<Step>, r: nat)
    requires Started(w) && r < |Run(w, steps).log| && Run(w, steps).log[r].RouteFreed?
    ensures exists j: nat, n: nat :: n < |steps| && FreedFor(w, steps, r, j, n)
    decreases |steps|
  {
    if steps != [] {
      var init, s := steps[..|steps| - 1], steps[|steps| - 1];
      assert steps == init + [s];
      RunAppend(w, init, s);
      var w1 := Run(w, init);
      StepProceeds(w1, s);
      StepAdds(w1, s);
      hide Run, Next, InHand, Ixl.WellFormed;
      if r < |w1.log| {
        FreedForRelease(w, init, r);
        var j: nat, n: nat :| n < |init| && FreedFor(w, init, r, j, n);
        FreedStays(w, init, s, r, j, n);
      } else {
        OrderInHand(w, init);
        var j :| HandKept(w, init, j);
        FreedNow(w, init, s, r, j);
      }
    }
  }

  lemma FreedStays(w: World, init: seq<Step>, s: Step, r: nat, j: nat, n: nat)
    requires Ixl.WellFormed(w.plant) && n < |init| && r < |Run(w, init).log| && FreedFor(w, init, r, j, n)
    requires Run(w, init).log <= Run(w, init + [s]).log
    ensures FreedFor(w, init + [s], r, j, n)
  {
    InHandBefore(w, init, s, j, n);
    SamePrefix(init, s, n);
    SamePrefix(init, s, n + 1);
    InHandEarlier(w, init, j, n);
    SamePrefix(init, s, j);
    hide Run, Next, InHand, Ixl.WellFormed;
  }

  lemma FreedNow(w: World, init: seq<Step>, s: Step, r: nat, j: nat)
    requires Started(w) && HandKept(w, init, j)
    requires |Run(w, init).log| <= r < |Run(w, init + [s]).log|
    requires var main := Run(w, init).main;
             Commanding(main) && main.order.ReleaseRoute? && Run(w, init + [s]).log[r] == RouteFreed(main.order.id)
    ensures FreedFor(w, init + [s], r, j, |init|)
  {
    var steps := init + [s];
    InHandBefore(w, init, s, j, |init|);
    hide Run, Answers, InHand, Ixl.WellFormed, PayloadOf;
    assert steps[..|init|] == init && steps[..|init| + 1] == steps;
  }

  /** A route changes exactly when a grantable request for it is taken, which
      reserves it, or when CONFIRMED is read for its release, which frees it. */
  lemma RouteChangesIff(w: World, s: Step, id: nat)
    requires Ixl.WellFormed(w.plant) && id < |w.plant.route|
    ensures var w2 := Next(w, s);
            var reserves := s == Commands(RequestRoute(id)) && w.main == Idle && Ixl.Grantable(w.plant, id);
            var frees := s == Returns && w.main == Waiting(ReleaseRoute(id)) && w.pdi == CommandConfirmed
              && Ixl.Known(w.plant.table, id);
            && |w2.plant.route| == |w.plant.route|
            && w2.plant.route[id] == if reserves then Ixl.Reserved else if frees then Ixl.Free else w.plant.route[id]
  {
    hide Ixl.Known, PayloadOf, Process, Take;
    PlantUntouched(w, if s.Takes? then s.m else OtherMessage);
  }

  /** No message changes the plant. */
  lemma PlantUntouched(w: World, m: Message)
    ensures Process(w).plant == w.plant && Take(w, m).plant == w.plant
  {
  }

  /* ----- a command that nothing disturbs ----- */

  function Repeated(s: Step, n: nat): seq<Step> {
    seq(n, _ => s)
  }

  lemma RepeatedMore(s: Step, n: nat)
    ensures Repeated(s, 0) == [] && Repeated(s, n + 1) == Repeated(s, n) + [s]
  {
  }

  lemma RunNothing(w: World)
    requires Ixl.WellFormed(w.plant)
    ensures Run(w, []) == w
  {
  }

  lemma {:induction false} RunJoined(w: World, a: seq<Step>, b: seq<Step>)
    requires Ixl.WellFormed(w.plant)
    ensures Run(w, a + b) == Run(Run(w, a), b)
    decreases |b|
  {
    hide Run, Next, Ixl.WellFormed;
    if b == [] {
      RunNothing(Run(w, a));
      assert a + b == a;
    } else {
      var init, s := b[..|b| - 1], b[|b| - 1];
      RunJoined(w, a, init);
      assert a + b == (a + init) + [s] && b == init + [s];
      RunAppend(w, a + init, s);
      RunAppend(Run(w, a), init, s);
    }
  }

  lemma CopyMore(e: Payload, p: Payload, k: nat)
    requires k < PAYLOAD_SIZE
    ensures (p[..k] + e[k..])[k := p[k]] == p[..k + 1] + e[k + 1..]
  {
  }

  /** The copy goes on to the end. */
  lemma {:induction false} CopyRuns(w: World, k: nat)
    requires Ixl.WellFormed(w.plant) && w.main.Copying? && w.main.k == 0 && k <= PAYLOAD_SIZE
    ensures Run(w, Repeated(Advances, k))
         == w.(expected := PayloadOf(w.main.aspect)[..k] + w.expected[k..], main := w.main.(k := k))
  {
    hide Run, Repeated, PayloadOf, Ixl.WellFormed;
    RunNothing(w);
    RepeatedMore(Advances, if k == 0 then 0 else k - 1);
    if k > 0 {
      CopyRuns(w, k - 1);
      RunAppend(w, Repeated(Advances, k - 1), Advances);
      CopyMore(w.expected, PayloadOf(w.main.aspect), k - 1);
    }
  }

  /** The comparison goes on to the end. */
  lemma {:induction false} ComparisonRuns(w: World, k: nat)
    requires Ixl.WellFormed(w.plant) && w.receiving.Comparing? && w.receiving.k == 0 && w.receiving.same
    requires k <= PAYLOAD_SIZE
    ensures var bytes := w.receiving.bytes;
            Run(w, Repeated(Processes, k)) == w.(receiving := Comparing(bytes, k, bytes[..k] == w.expected[..k]))
  {
    RepeatedMore(Processes, if k == 0 then 0 else k - 1);
    if k > 0 {
      ComparisonRuns(w, k - 1);
      RunAppend(w, Repeated(Processes, k - 1), Processes);
      NextByte(w.receiving.bytes, w.expected, k - 1);
      hide Run, Repeated;
    }
  }

  /** The main thread takes the order, copies the bytes, begins and sends. */
  function Ordering(order: Order): seq<Step> {
    [Commands(order)] + Repeated(Advances, PAYLOAD_SIZE) + [Advances] + [Sends(true)]
  }

  /** The report arrives and is compared, and the main thread reads the result. */
  function Reporting(bytes: Payload): seq<Step> {
    [Takes(AspectStatus(true, bytes))] + [Processes] + Repeated(Processes, PAYLOAD_SIZE) + [Processes] + [Processes]
      + [Returns]
  }

  ghost predicate Ready(w: World) {
    Ixl.WellFormed(w.plant) && w.pdi == Established && w.main == Idle && w.receiving == NoMessage
  }

  /** The world in which p has been sent as the command for the order. */
  ghost predicate CommandSent(w: World, w2: World, order: Order, p: Payload)
    requires Ixl.WellFormed(w.plant)
  {
    && w2.pdi == WaitConfirmation && w2.main == Waiting(order) && w2.receiving == NoMessage && w2.expected == p
    && w2.plant == (if order.RequestRoute? then Ixl.Request(w.plant, order.id) else w.plant)
    && w2.log == w.log + [CommandBegun(p)] && Answers(p, order, w.plant)
  }

  lemma OrderingRuns(w: World, order: Order)
    requires Ready(w)
    ensures exists p :: CommandSent(w, Run(w, Ordering(order)), order, p)
  {
    hide Run, PayloadOf, Answers, Repeated, Ixl.WellFormed, Ixl.Grantable, Ixl.Request;
    var s1 := [Commands(order)];
    var s2 := s1 + Repeated(Advances, PAYLOAD_SIZE);
    RunOne(w, Commands(order));
    TakenStep(w, Commands(order));
    var w1 := Run(w, s1);
    RunJoined(w, s1, Repeated(Advances, PAYLOAD_SIZE));
    CopyRuns(w1, PAYLOAD_SIZE);
    var p := PayloadOf(w1.main.aspect);
    RunAppend(w, s2, Advances);
    RunAppend(w, s2 + [Advances], Sends(true));
    assert p[..PAYLOAD_SIZE] + w1.expected[PAYLOAD_SIZE..] == p;
    assert CommandSent(w, Run(w, Ordering(order)), order, p);
  }

  lemma ReportTakenUp(w: World, bytes: Payload)
    requires Ixl.WellFormed(w.plant) && w.pdi == WaitConfirmation && w.receiving == NoMessage
    ensures var w2 := w.(receiving := Comparing(bytes, 0, true), log := w.log + [ReportTaken(bytes)]);
            Next(Next(w, Takes(AspectStatus(true, bytes))), Processes) == w2
  {
  }

  lemma ComparisonEnds(w: World, bytes: Payload, same: bool)
    requires Ixl.WellFormed(w.plant) && w.pdi == WaitConfirmation
    requires w.receiving == Comparing(bytes, PAYLOAD_SIZE, same)
    ensures Next(Next(w, Processes), Processes)
         == w.(receiving := NoMessage, pdi := if same then CommandConfirmed else CommandMismatch)
  {
  }

  lemma ReportingRuns(w: World, bytes: Payload)
    requires Ixl.WellFormed(w.plant) && w.pdi == WaitConfirmation && w.receiving == NoMessage
    ensures var result := if bytes == w.expected then CommandConfirmed else CommandMismatch;
            Run(w, Reporting(bytes)) == Return(w.(pdi := result, log := w.log + [ReportTaken(bytes)]))
  {
    hide Run, Repeated, Return, Process, Take, Ixl.WellFormed;
    var m := AspectStatus(true, bytes);
    var s1 := [Takes(m)] + [Processes];
    var s2 := s1 + Repeated(Processes, PAYLOAD_SIZE);
    RunOne(w, Takes(m));
    RunAppend(w, [Takes(m)], Processes);
    ReportTakenUp(w, bytes);
    var w1 := Run(w, s1);
    RunJoined(w, s1, Repeated(Processes, PAYLOAD_SIZE));
    ComparisonRuns(w1, PAYLOAD_SIZE);
    assert bytes[..PAYLOAD_SIZE] == bytes && w.expected[..PAYLOAD_SIZE] == w.expected;
    ComparisonEnds(Run(w, s2), bytes, bytes == w.expected);
    RunAppend(w, s2, Processes);
    RunAppend(w, s2 + [Processes], Processes);
    RunAppend(w, s2 + [Processes] + [Processes], Returns);
  }

  /** What an undisturbed command leaves: its bytes answer the order, the result
      read is CONFIRMED exactly if the report has the same bytes, and the main
      thread is back for the next order with the state ESTABLISHED. A route is
      freed exactly by a confirmed release. */
  ghost predicate Completed(w: World, w2: World, order: Order, bytes: Payload, p: Payload)
    requires Ixl.WellFormed(w.plant)
  {
    var frees := order.ReleaseRoute? && bytes == p && Ixl.Release(w.plant, order.id) != w.plant;
    && Answers(p, order, w.plant)
    && w2.pdi == Established && w2.main == Idle && w2.receiving == NoMessage
    && w2.log == w.log + [CommandBegun(p), ReportTaken(bytes),
                          ResultRead(if bytes == p then CommandConfirmed else CommandMismatch)]
               + (if frees then [RouteFreed(order.id)] else [])
    && w2.plant == match order
                   case RequestRoute(id) => Ixl.Request(w.plant, id)
                   case ReleaseRoute(id) => if bytes == p then Ixl.Release(w.plant, id) else w.plant
                   case ShowAspect(_) => w.plant
  }

  lemma ReturnCompletes(w: World, w1: World, order: Order, bytes: Payload, p: Payload)
    requires Ixl.WellFormed(w.plant) && Ixl.WellFormed(w1.plant) && CommandSent(w, w1, order, p)
    ensures var result := if bytes == p then CommandConfirmed else CommandMismatch;
            Completed(w, Return(w1.(pdi := result, log := w1.log + [ReportTaken(bytes)])), order, bytes, p)
  {
    hide Answers, Ixl.WellFormed, Ixl.Request, Ixl.Release;
  }

  /** From ESTABLISHED and any plant, for any order and any report. */
  lemma CommandCompletes(w: World, order: Order, bytes: Payload)
    requires Ready(w)
    ensures exists p :: Completed(w, Run(w, Ordering(order) + Reporting(bytes)), order, bytes, p)
  {
    OrderingRuns(w, order);
    var w1 := Run(w, Ordering(order));
    var p :| CommandSent(w, w1, order, p);
    RunJoined(w, Ordering(order), Reporting(bytes));
    ReportingRuns(w1, bytes);
    ReturnCompletes(w, w1, order, bytes, p);
    hide *;
    assert Completed(w, Run(w, Ordering(order) + Reporting(bytes)), order, bytes, p);
  }
}
