/** What every interleaving of the PDI threads keeps. */
module PdiSafety {
  import opened PdiMachine
  import Ixl = Interlocking

  /* ----- establishment ----- */

  /** n is the k-th event of an establishment. */
  predicate Marks(n: Note, k: nat) {
    || (k == 1 && n == HandshakeNoted)
    || (k == 2 && n.VersionNoted? && RightVersion(n.m))
    || (k == 3 && n == BeginNoted)
    || (k == 4 && n == FinishNoted)
  }

  /** The first k events occur in the log, in this order. */
  ghost predicate Reached(log: seq<Note>, k: nat)
    decreases k
  {
    k == 0 || exists i :: 0 <= i < |log| && Marks(log[i], k) && Reached(log[..i], k - 1)
  }

  function StageOf(s: Pdi): nat {
    match s
    case WaitVersionResponse => 1
    case WaitInitialisationStart => 2
    case ReceivingInitialStatus => 3
    case Established => 4
    case WaitConfirmation => 4
    case CommandConfirmed => 4
    case CommandMismatch => 4
    case CommandRejected => 4
    case _ => 0
  }

  ghost predicate StageKept(w: World) {
    Reached(w.log, StageOf(w.pdi)) && (w.receiving.VersionChecked? ==> Reached(w.log, 1))
  }

  lemma ReachedGrows(log: seq<Note>, n: Note, k: nat)
    requires Reached(log, k)
    ensures Reached(log + [n], k)
    ensures Marks(n, k + 1) ==> Reached(log + [n], k + 1)
  {
    var log2 := log + [n];
    assert log2[..|log|] == log;
    if k > 0 {
      var i :| 0 <= i < |log| && Marks(log[i], k) && Reached(log[..i], k - 1);
      assert log2[..i] == log[..i];
      assert Marks(log2[i], k);
    }
    if Marks(n, k + 1) {
      assert Marks(log2[|log|], k + 1);
    }
  }

  lemma ReachedNothing(log: seq<Note>)
    ensures Reached(log, 0)
  {
  }

  ghost predicate Breaks(n: Note) {
    n == Upset || n == HandshakeNoted
  }

  /** One step and the stages: back to none, on within the session, or into the
      stage that the one new note marks. */
  ghost predicate Proceeds(w: World, w2: World) {
    var n, n2 := StageOf(w.pdi), StageOf(w2.pdi);
    && w.log <= w2.log && |w2.log| <= |w.log| + 2
    && (w2.receiving.VersionChecked? ==> w.receiving.VersionChecked? || n == 1)
    && (|| n2 == 0
        || (n2 == n && forall i :: |w.log| <= i < |w2.log| ==> !Breaks(w2.log[i]))
        || (|w2.log| == |w.log| + 1 && Marks(w2.log[|w.log|], n2)
            && (n2 == 1 || n2 == n + 1 || (n2 == 2 && w.receiving.VersionChecked?))))
  }

  lemma StepProceeds(w: World, s: Step)
    requires Ixl.WellFormed(w.plant)
    ensures Proceeds(w, Next(w, s))
  {
    hide Ixl.WellFormed, Ixl.Request, Ixl.Release, Ixl.Operate, Ixl.Grantable, PayloadOf;
    hide Process, Return;
    match s
    case Processes => ProcessProceeds(w);
    case Returns => ReturnProceeds(w);
    case _ =>
  }

  lemma ReturnProceeds(w: World)
    requires Ixl.WellFormed(w.plant)
    ensures Proceeds(w, Return(w))
  {
    hide Ixl.WellFormed, Ixl.Release;
  }

  lemma ProcessProceeds(w: World)
    ensures Proceeds(w, Process(w))
  {
  }

  lemma ReachedFurther(log: seq<Note>, log2: seq<Note>, k: nat)
    requires Reached(log, k) && log <= log2 && |log2| <= |log| + 2
    ensures Reached(log2, k)
    ensures |log2| == |log| + 1 && Marks(log2[|log|], k + 1) ==> Reached(log2, k + 1)
  {
    hide Reached, Marks;
    if log2 != log {
      var n, last := log2[|log|], log2[|log2| - 1];
      ReachedGrows(log, n, k);
      ReachedGrows(log + [n], last, k);
      assert log2 == log + [n] || log2 == log + [n] + [last];
    }
  }

  /** One step from stage to stage. */
  lemma {:induction false} StageStep(w: World, s: Step)
    requires Ixl.WellFormed(w.plant) && StageKept(w)
    ensures StageKept(Next(w, s))
  {
    hide Next, Reached, Marks;
    var w2 := Next(w, s);
    StepProceeds(w, s);
    ReachedNothing(w.log);
    ReachedFurther(w.log, w2.log, 0);
    ReachedFurther(w.log, w2.log, StageOf(w.pdi));
    if w.receiving.VersionChecked? {
      ReachedFurther(w.log, w2.log, 1);
    }
  }

  lemma {:induction false} RunStages(w: World, steps: seq<Step>)
    requires Started(w)
    ensures StageKept(Run(w, steps))
    decreases |steps|
  {
    hide Reached, Next;
    if steps == [] {
      ReachedNothing(w.log);
    } else {
      RunStages(w, steps[..|steps| - 1]);
      StageStep(Run(w, steps[..|steps| - 1]), steps[|steps| - 1]);
    }
  }

  /** The four events of an establishment at these places of the log. */
  ghost predicate EstablishedAt(log: seq<Note>, a: nat, b: nat, c: nat, d: nat) {
    && a < b < c < d < |log|
    && log[a] == HandshakeNoted
    && log[b].VersionNoted? && RightVersion(log[b].m)
    && log[c] == BeginNoted && log[d] == FinishNoted
  }

  lemma ReachedFour(log: seq<Note>)
    requires Reached(log, 4)
    ensures exists a, b, c, d :: EstablishedAt(log, a, b, c, d)
  {
    var d :| 0 <= d < |log| && Marks(log[d], 4) && Reached(log[..d], 3);
    var l3 := log[..d];
    var c :| 0 <= c < |l3| && Marks(l3[c], 3) && Reached(l3[..c], 2);
    var l2 := l3[..c];
    var b :| 0 <= b < |l2| && Marks(l2[b], 2) && Reached(l2[..b], 1);
    var l1 := l2[..b];
    var a :| 0 <= a < |l1| && Marks(l1[a], 1) && Reached(l1[..a], 0);
    assert EstablishedAt(log, a, b, c, d);
  }

  /** Whatever the interleaving: commands are possible only after a handshake
      with the object controller, a right version, a begin and a finish. */
  lemma EstablishedInOrder(w: World, steps: seq<Step>)
    requires Started(w)
    ensures var w2 := Run(w, steps);
            w2.pdi == Established || w2.pdi == WaitConfirmation || IsResult(w2.pdi) ==>
              exists a, b, c, d :: EstablishedAt(w2.log, a, b, c, d)
  {
    hide Reached, Run;
    RunStages(w, steps);
    var w2 := Run(w, steps);
    if w2.pdi == Established || w2.pdi == WaitConfirmation || IsResult(w2.pdi) {
      ReachedFour(w2.log);
    }
  }

  /** Results are entered only from the wait, the wait only from ESTABLISHED. */
  lemma ResultsOnlyFromWait(w: World, s: Step)
    requires Ixl.WellFormed(w.plant)
    ensures IsResult(Next(w, s).pdi) ==> w.pdi == Next(w, s).pdi || w.pdi == WaitConfirmation
    ensures Next(w, s).pdi == WaitConfirmation ==> w.pdi == WaitConfirmation || w.pdi == Established
    ensures Next(w, s).pdi == Established ==> w.pdi == Established || w.pdi == ReceivingInitialStatus || IsResult(w.pdi)
  {
    hide Ixl.WellFormed, Ixl.Request, Ixl.Release, Ixl.Operate, Ixl.Grantable;
  }

  /* ----- the gap in the version handler ----- */

  /** What takes the machine out of FAILED: a new handshake, a connection going
      down or starting, or a version handler that had checked the state before
      the failure. */
  lemma FailedIsLeftIff(w: World, s: Step)
    requires Ixl.WellFormed(w.plant) && w.pdi == Failed
    ensures Next(w, s).pdi != Failed
       <==> || s == Handshakes(OC_ID) || s == Changes(Down) || s == Changes(Start)
            || (s == Processes && w.receiving.VersionChecked? && RightVersion(w.receiving.m))
  {
    hide Ixl.WellFormed, Ixl.Request, Ixl.Release, Ixl.Operate, Ixl.Grantable;
  }

  /** The first k events after the last handshake, and nothing upset since. */
  ghost predicate Unbroken(log: seq<Note>, k: nat) {
    k == 0 || exists a :: UnbrokenFrom(log, a, k)
  }

  ghost predicate UnbrokenFrom(log: seq<Note>, a: int, k: nat) {
    && 0 <= a < |log| && log[a] == HandshakeNoted
    && (forall j :: a < j < |log| ==> !Breaks(log[j]))
    && Reached(log[a..], k)
  }

  lemma UnbrokenGrows(log: seq<Note>, n: Note, k: nat)
    requires Unbroken(log, k) && !Breaks(n)
    ensures Unbroken(log + [n], k)
    ensures k > 0 && Marks(n, k + 1) ==> Unbroken(log + [n], k + 1)
  {
    if k > 0 {
      var a :| UnbrokenFrom(log, a, k);
      hide Reached;
      assert (log + [n])[a..] == log[a..] + [n];
      ReachedGrows(log[a..], n, k);
      assert UnbrokenFrom(log + [n], a, k);
      assert Marks(n, k + 1) ==> UnbrokenFrom(log + [n], a, k + 1);
    }
  }

  lemma UnbrokenStarts(log: seq<Note>)
    ensures Unbroken(log + [HandshakeNoted], 1)
  {
    var log2 := log + [HandshakeNoted];
    assert log2[|log|..] == [HandshakeNoted];
    ReachedGrows([], HandshakeNoted, 0);
    assert [] + [HandshakeNoted] == [HandshakeNoted];
    assert UnbrokenFrom(log2, |log|, 1);
  }

  /** The version handler writes only what it found. */
  ghost predicate GapQuiet(w: World, s: Step) {
    s == Processes && w.receiving.VersionChecked? && RightVersion(w.receiving.m) ==> w.pdi == WaitVersionResponse
  }

  ghost predicate SessionKept(w: World) {
    Unbroken(w.log, StageOf(w.pdi))
  }

  lemma UnbrokenFurther(log: seq<Note>, log2: seq<Note>, k: nat)
    requires Unbroken(log, k) && log <= log2 && |log2| <= |log| + 2
    requires forall i :: |log| <= i < |log2| ==> !Breaks(log2[i])
    ensures Unbroken(log2, k)
    ensures k > 0 && |log2| == |log| + 1 && Marks(log2[|log|], k + 1) ==> Unbroken(log2, k + 1)
  {
    hide Unbroken, Marks;
    if log2 != log {
      var n, last := log2[|log|], log2[|log2| - 1];
      UnbrokenGrows(log, n, k);
      UnbrokenGrows(log + [n], last, k);
      assert log2 == log + [n] || log2 == log + [n] + [last];
    }
  }

  lemma {:induction false} SessionStep(w: World, s: Step)
    requires Ixl.WellFormed(w.plant) && SessionKept(w) && GapQuiet(w, s)
    ensures SessionKept(Next(w, s))
  {
    hide Next, Unbroken, GapQuiet, StageOf;
    var w2 := Next(w, s);
    var n, n2 := StageOf(w.pdi), StageOf(w2.pdi);
    StepProceeds(w, s);
    GapProceeds(w, s);
    UnbrokenNothing(w2.log);
    if n2 == 0 {
    } else if forall i :: |w.log| <= i < |w2.log| ==> !Breaks(w2.log[i]) {
      UnbrokenFurther(w.log, w2.log, n);
    } else {
      assert w2.log == w.log + [HandshakeNoted];
      UnbrokenStarts(w.log);
    }
  }

  /** Without a write in the gap the version handler advances from stage 1. */
  lemma GapProceeds(w: World, s: Step)
    requires Ixl.WellFormed(w.plant) && GapQuiet(w, s)
    ensures var n, n2 := StageOf(w.pdi), StageOf(Next(w, s).pdi);
            n2 == 0 || n2 == 1 || n2 == n || (n > 0 && n2 == n + 1)
  {
    hide Ixl.WellFormed, Ixl.Request, Ixl.Release, Ixl.Operate, Ixl.Grantable, PayloadOf;
  }

  ghost predicate GapsQuiet(w: World, steps: seq<Step>)
    requires Ixl.WellFormed(w.plant)
  {
    forall k :: 0 <= k < |steps| ==> GapQuiet(Run(w, steps[..k]), steps[k])
  }

  /** Something was upset, and no handshake followed. */
  ghost predicate UpsetSince(log: seq<Note>) {
    exists i :: UpsetAt(log, i)
  }

  ghost predicate UpsetAt(log: seq<Note>, i: int) {
    0 <= i < |log| && log[i] == Upset && forall j :: i < j < |log| ==> log[j] != HandshakeNoted
  }

  lemma UpsetFurther(log: seq<Note>, log2: seq<Note>)
    requires log <= log2 && forall i :: |log| <= i < |log2| ==> log2[i] != HandshakeNoted
    requires UpsetSince(log) || (log != log2 && log2[|log|] == Upset)
    ensures UpsetSince(log2)
  {
    if i :| UpsetAt(log, i) {
      assert UpsetAt(log2, i);
    } else {
      assert UpsetAt(log2, |log|);
    }
  }

  /** In the gap of the version handler the state is the one it checked, or the
      session has been upset. */
  ghost predicate GapMarked(w: World) {
    w.receiving.VersionChecked? ==> w.pdi == WaitVersionResponse || UpsetSince(w.log)
  }

  /** A thread that changes the state in the gap leaves a note. */
  ghost predicate NotesInGap(w: World, w2: World) {
    w2.receiving.VersionChecked? && w2.pdi != WaitVersionResponse ==>
      && w.receiving.VersionChecked? && w.log <= w2.log
      && (forall i :: |w.log| <= i < |w2.log| ==> w2.log[i] != HandshakeNoted)
      && (w.pdi == WaitVersionResponse ==> w2.log != w.log && w2.log[|w.log|] == Upset)
  }

  lemma GapStep(w: World, s: Step)
    requires Ixl.WellFormed(w.plant)
    ensures NotesInGap(w, Next(w, s))
  {
    hide Ixl.WellFormed, Ixl.Request, Ixl.Release, Ixl.Operate, Ixl.Grantable, PayloadOf;
    hide Process, Return;
    match s
    case Processes => GapProcess(w);
    case Returns => GapReturn(w);
    case _ =>
  }

  lemma GapProcess(w: World)
    ensures NotesInGap(w, Process(w))
  {
  }

  lemma GapReturn(w: World)
    requires Ixl.WellFormed(w.plant)
    ensures NotesInGap(w, Return(w))
  {
    hide Ixl.WellFormed, Ixl.Release;
  }

  lemma GapMarkedStep(w: World, s: Step)
    requires Ixl.WellFormed(w.plant) && GapMarked(w)
    ensures GapMarked(Next(w, s))
  {
    hide Next, UpsetSince;
    var w2 := Next(w, s);
    GapStep(w, s);
    if w2.receiving.VersionChecked? && w2.pdi != WaitVersionResponse {
      UpsetFurther(w.log, w2.log);
    }
  }

  lemma {:induction false} RunGapMarked(w: World, steps: seq<Step>)
    requires Started(w)
    ensures GapMarked(Run(w, steps))
    decreases |steps|
  {
    hide Next, UpsetSince;
    if steps != [] {
      RunGapMarked(w, steps[..|steps| - 1]);
      GapMarkedStep(Run(w, steps[..|steps| - 1]), steps[|steps| - 1]);
    }
  }

  /** A write in the gap breaks the session at once. */
  lemma LoudGapBreaks(w: World, s: Step)
    requires Ixl.WellFormed(w.plant) && GapMarked(w) && !GapQuiet(w, s)
    ensures !SessionKept(Next(w, s))
  {
    hide UpsetSince, Unbroken;
    var w2 := Next(w, s);
    assert w2.log == w.log + [VersionNoted(w.receiving.m)] && StageOf(w2.pdi) == 2;
    UpsetFurther(w.log, w2.log);
    UpsetIsBroken(w2.log, 2);
  }

  lemma UpsetIsBroken(log: seq<Note>, k: nat)
    requires UpsetSince(log) && k > 0
    ensures !Unbroken(log, k)
  {
    hide Reached;
    var i :| UpsetAt(log, i);
    assert forall a :: UnbrokenFrom(log, a, k) ==> a < i;
  }

  ghost predicate SessionsKept(w: World, steps: seq<Step>)
    requires Ixl.WellFormed(w.plant)
  {
    forall k :: 0 <= k <= |steps| ==> SessionKept(Run(w, steps[..k]))
  }

  lemma SessionsBefore(w: World, steps: seq<Step>)
    requires Ixl.WellFormed(w.plant) && steps != []
    ensures var init := steps[..|steps| - 1];
            && (SessionsKept(w, steps) <==> SessionsKept(w, init) && SessionKept(Run(w, steps)))
            && (GapsQuiet(w, steps) <==> GapsQuiet(w, init) && GapQuiet(Run(w, init), steps[|init|]))
  {
    hide Run, SessionKept, GapQuiet;
    var init := steps[..|steps| - 1];
    assert steps[..|steps|] == steps;
    assert forall k :: 0 <= k <= |init| ==> init[..k] == steps[..k];
    assert forall k :: 0 <= k < |init| ==> init[k] == steps[k];
  }

  /** The four events always belong to one session, with no failure, no
      disconnection and no further handshake after its handshake, if and only
      if nothing writes the state between the version handler's check and its
      write. */
  lemma {:induction false} OneSession(w: World, steps: seq<Step>)
    requires Started(w)
    ensures SessionsKept(w, steps) <==> GapsQuiet(w, steps)
    decreases |steps|
  {
    hide Next, GapQuiet, SessionKept, SessionsKept, GapsQuiet, GapMarked;
    if steps == [] {
      SessionAtStart(w);
    } else {
      var n := |steps| - 1;
      OneSession(w, steps[..n]);
      SessionsBefore(w, steps);
      if SessionsKept(w, steps[..n]) {
        SessionNow(w, steps[..n]);
        RunGapMarked(w, steps[..n]);
        if GapQuiet(Run(w, steps[..n]), steps[n]) {
          SessionStep(Run(w, steps[..n]), steps[n]);
        } else {
          LoudGapBreaks(Run(w, steps[..n]), steps[n]);
        }
      }
    }
  }

  lemma SessionNow(w: World, steps: seq<Step>)
    requires Ixl.WellFormed(w.plant) && SessionsKept(w, steps)
    ensures SessionKept(Run(w, steps))
  {
    hide Run, SessionKept;
    assert steps[..|steps|] == steps;
  }

  lemma SessionAtStart(w: World)
    requires Started(w)
    ensures SessionsKept(w, []) && GapsQuiet(w, [])
  {
    hide Next;
    var none: seq<Step> := [];
    assert none[..0] == none;
    UnbrokenNothing(w.log);
  }

  lemma UnbrokenNothing(log: seq<Note>)
    ensures Unbroken(log, 0)
  {
  }

  const GOOD_VERSION := VersionResponse(true, PDI_VERSION, PDI_VERSION, true)
  const UP_TO_THE_GAP := [Handshakes(OC_ID)] + [Takes(GOOD_VERSION)] + [Processes]
  const AFTER_THE_FAILURE := UP_TO_THE_GAP + [TimesOut] + [Processes] + [Processes]

  function AtTheGap(w: World): World {
    w.(pdi := WaitVersionResponse, receiving := VersionChecked(GOOD_VERSION), handshakes := 1, log := [HandshakeNoted])
  }

  lemma ReachTheGap(w: World)
    requires Started(w)
    ensures Run(w, UP_TO_THE_GAP) == AtTheGap(w)
  {
    var w1 := w.(pdi := WaitVersionResponse, handshakes := 1, log := [HandshakeNoted]);
    assert Next(w, Handshakes(OC_ID)) == w1;
    var w2 := w1.(receiving := Taken(GOOD_VERSION, false));
    assert Next(w1, Takes(GOOD_VERSION)) == w2;
    assert Next(w2, Processes) == AtTheGap(w);
    hide Run, Next, Ixl.WellFormed, Ixl.Initial;
    RunOne(w, Handshakes(OC_ID));
    RunAppend(w, [Handshakes(OC_ID)], Takes(GOOD_VERSION));
    RunAppend(w, [Handshakes(OC_ID)] + [Takes(GOOD_VERSION)], Processes);
  }

  lemma RunOne(w: World, s: Step)
    requires Ixl.WellFormed(w.plant)
    ensures Run(w, [s]) == Next(w, s)
  {
    hide Next;
    var none: seq<Step> := [];
    assert none + [s] == [s];
    RunAppend(w, none, s);
  }

  function PastTheGap(w: World): World {
    w.(pdi := WaitInitialisationStart, receiving := NoMessage, handshakes := 1,
       log := [HandshakeNoted, Upset, VersionNoted(GOOD_VERSION)])
  }

  lemma PassTheGap(w: World)
    requires Started(w)
    ensures Run(w, AFTER_THE_FAILURE) == PastTheGap(w)
  {
    var w3 := AtTheGap(w);
    var w4 := w3.(pdi := Failed, log := [HandshakeNoted, Upset]);
    assert Next(w3, TimesOut) == w4;
    var w5 := PastTheGap(w).(receiving := StatusRequested);
    assert Next(w4, Processes) == w5;
    assert Next(w5, Processes) == PastTheGap(w);
    hide Run, Next, Ixl.WellFormed, Ixl.Initial;
    ReachTheGap(w);
    RunAppend(w, UP_TO_THE_GAP, TimesOut);
    RunAppend(w, UP_TO_THE_GAP + [TimesOut], Processes);
    RunAppend(w, UP_TO_THE_GAP + [TimesOut] + [Processes], Processes);
  }

  /** A failure inside the gap is overwritten and the establishment goes on. */
  lemma FailureInGapIsLost(w: World)
    requires Started(w)
    ensures var steps := AFTER_THE_FAILURE + [Takes(StatusBegin)] + [Processes] + [Takes(StatusFinish)] + [Processes];
            var w2 := Run(w, steps);
            w2.pdi == Established && w2.log
              == [HandshakeNoted, Upset, VersionNoted(GOOD_VERSION), BeginNoted, FinishNoted]
  {
    PassTheGap(w);
    var s := AFTER_THE_FAILURE;
    RunAppend(w, s, Takes(StatusBegin));
    RunAppend(w, s + [Takes(StatusBegin)], Processes);
    RunAppend(w, s + [Takes(StatusBegin)] + [Processes], Takes(StatusFinish));
    RunAppend(w, s + [Takes(StatusBegin)] + [Processes] + [Takes(StatusFinish)], Processes);
    hide Run, Ixl.WellFormed, Ixl.Initial;
  }

  lemma RunAppend(w: World, steps: seq<Step>, s: Step)
    requires Ixl.WellFormed(w.plant)
    ensures Run(w, steps + [s]) == Next(Run(w, steps), s)
  {
    assert (steps + [s])[..|steps|] == steps;
  }

  /* ----- commands ----- */

  /** The bytes of the last command. */
  ghost predicate Commanded(log: seq<Note>, p: Payload) {
    exists i :: LastCommand(log, i) && log[i] == CommandBegun(p)
  }

  ghost predicate LastCommand(log: seq<Note>, i: int) {
    0 <= i < |log| && log[i].CommandBegun? && forall j :: i < j < |log| ==> !log[j].CommandBegun?
  }

  /** A report with these bytes was taken since the last command. */
  ghost predicate Reported(log: seq<Note>, p: Payload) {
    exists i, j :: LastCommand(log, i) && i < j < |log| && log[j] == ReportTaken(p)
  }

  lemma CommandedGrows(log: seq<Note>, n: Note, p: Payload)
    requires Commanded(log, p) && !n.CommandBegun?
    ensures Commanded(log + [n], p)
    ensures n == ReportTaken(p) ==> Reported(log + [n], p)
  {
    var i :| LastCommand(log, i) && log[i] == CommandBegun(p);
    assert LastCommand(log + [n], i);
    assert (log + [n])[|log|] == n;
  }

  lemma ReportedAtOnce(log: seq<Note>, p: Payload, q: Payload)
    requires Commanded(log, p)
    ensures Reported(log + [ReportTaken(q)], q)
  {
    var i :| LastCommand(log, i) && log[i] == CommandBegun(p);
    var log2 := log + [ReportTaken(q)];
    assert LastCommand(log2, i);
    assert log2[|log|] == ReportTaken(q);
  }

  lemma CommandedNow(log: seq<Note>, p: Payload)
    ensures Commanded(log + [CommandBegun(p)], p)
  {
    assert LastCommand(log + [CommandBegun(p)], |log|);
  }

  lemma ReportedGrows(log: seq<Note>, n: Note, p: Payload)
    requires Reported(log, p) && !n.CommandBegun?
    ensures Reported(log + [n], p)
  {
    var i, j :| LastCommand(log, i) && i < j < |log| && log[j] == ReportTaken(p);
    assert LastCommand(log + [n], i);
    assert (log + [n])[j] == ReportTaken(p);
  }

  /** A report is being compared, or is going to be. */
  predicate InFlight(r: Receiving) {
    (r.Taken? && r.m.AspectStatus? && r.waiting) || r.Comparing? || r.Compared?
  }

  function BytesOf(r: Receiving): Payload
    requires InFlight(r)
  {
    match r
    case Taken(m, _) => m.bytes
    case Comparing(bytes, _, _) => bytes
    case Compared(bytes, _) => bytes
  }

  predicate Commanding(m: Main) {
    m.Sending? || m.Waiting?
  }

  predicate Over(m: Main) {
    m.Leaving? || m.Finished?
  }

  /** What the comparison found so far is about the bytes now expected. */
  ghost predicate ComparisonTrue(w: World) {
    && (w.receiving.Comparing? ==>
          && w.receiving.k <= PAYLOAD_SIZE
          && (w.receiving.same <==> w.receiving.bytes[..w.receiving.k] == w.expected[..w.receiving.k]))
    && (w.receiving.Compared? ==> (w.receiving.same <==> w.receiving.bytes == w.expected))
  }

  /** The bytes copied so far are those of the aspect ordered. */
  ghost predicate CopyTrue(w: World) {
    && (w.main.Copying? ==>
          && w.main.k <= PAYLOAD_SIZE && w.expected[..w.main.k] == PayloadOf(w.main.aspect)[..w.main.k]
          && (w.main.order.ReleaseRoute? ==> w.main.aspect == Parada))
    && (Commanding(w.main) && w.main.order.ReleaseRoute? ==> w.expected == PayloadOf(Parada))
  }

  /** Who is where. */
  predicate Places(w: World) {
    && (w.pdi == WaitConfirmation ==> Commanding(w.main))
    && (IsResult(w.pdi) ==> Commanding(w.main) && !InFlight(w.receiving))
    && (InFlight(w.receiving) ==> Commanding(w.main) || Over(w.main))
  }

  ghost predicate Evidence(w: World) {
    && (Commanding(w.main) ==> Commanded(w.log, w.expected))
    && (Commanding(w.main) && InFlight(w.receiving) ==> Reported(w.log, BytesOf(w.receiving)))
    && (w.pdi == CommandConfirmed ==> Reported(w.log, w.expected))
  }

  lemma PlacesStep(w: World, s: Step)
    requires Ixl.WellFormed(w.plant) && Places(w)
    ensures Places(Next(w, s))
  {
    hide Ixl.WellFormed, Ixl.Request, Ixl.Release, Ixl.Operate, Ixl.Grantable;
  }

  /** While a report is being compared the expected payload does not change. */
  lemma ExpectedStays(w: World, s: Step)
    requires Ixl.WellFormed(w.plant) && Places(w) && InFlight(w.receiving)
    ensures Next(w, s).expected == w.expected
  {
    hide Ixl.WellFormed, Ixl.Request, Ixl.Release, Ixl.Operate, Ixl.Grantable;
  }

  lemma NextByte(a: Payload, b: Payload, k: nat)
    requires k < PAYLOAD_SIZE
    ensures a[..k + 1] == b[..k + 1] <==> a[..k] == b[..k] && a[k] == b[k]
  {
    assert a[..k + 1] == a[..k] + [a[k]] && b[..k + 1] == b[..k] + [b[k]];
    if a[..k + 1] == b[..k + 1] {
      assert a[..k] == a[..k + 1][..k] && b[..k] == b[..k + 1][..k];
      assert a[k] == a[..k + 1][k] && b[k] == b[..k + 1][k];
    }
  }

  lemma ComparisonStep(w: World, s: Step)
    requires Ixl.WellFormed(w.plant) && Places(w) && ComparisonTrue(w)
    ensures ComparisonTrue(Next(w, s))
  {
    hide Ixl.WellFormed, Ixl.Request, Ixl.Release, Ixl.Operate, Ixl.Grantable;
    if InFlight(w.receiving) {
      ExpectedStays(w, s);
    }
    match w.receiving
    case Comparing(bytes, k, same) =>
      if k < PAYLOAD_SIZE {
        NextByte(bytes, w.expected, k);
      } else {
        assert bytes[..k] == bytes && w.expected[..k] == w.expected;
      }
    case _ =>
  }

  lemma {:induction false} CopyStep(w: World, s: Step)
    requires Ixl.WellFormed(w.plant) && CopyTrue(w)
    ensures CopyTrue(Next(w, s))
  {
    hide Ixl.WellFormed, Ixl.Request, Ixl.Release, Ixl.Operate, Ixl.Grantable, PayloadOf;
    match w.main
    case Copying(order, a, k) =>
      if k < PAYLOAD_SIZE {
        var p := PayloadOf(a);
        var e := w.expected[k := p[k]];
        assert e[..k] == w.expected[..k];
        NextByte(e, p, k);
      } else {
        assert w.expected[..k] == w.expected && PayloadOf(a)[..k] == PayloadOf(a);
      }
    case _ =>
  }

  /** One step during a command: it begins, or it goes on with at most one new
      note, and a comparison is of a report just noted or the same as before. */
  ghost predicate CommandGoesOn(w: World, w2: World) {
    || (w2.log == w.log + [CommandBegun(w2.expected)] && !InFlight(w2.receiving) && w2.pdi == WaitConfirmation)
    || (&& Commanding(w.main) && w2.expected == w.expected
        && w.log <= w2.log && |w2.log| <= |w.log| + 1
        && (w2.log != w.log ==> !w2.log[|w.log|].CommandBegun?)
        && (InFlight(w2.receiving) ==>
              || (InFlight(w.receiving) && BytesOf(w2.receiving) == BytesOf(w.receiving))
              || (w2.log != w.log && w2.log[|w.log|] == ReportTaken(BytesOf(w2.receiving))))
        && (w2.pdi == CommandConfirmed ==>
              w.pdi == CommandConfirmed || (InFlight(w.receiving) && BytesOf(w.receiving) == w.expected)))
  }

  lemma ProcessGoesOn(w: World)
    requires Places(w) && ComparisonTrue(w) && Commanding(w.main)
    ensures Commanding(Process(w).main) ==> CommandGoesOn(w, Process(w))
  {
    if w.receiving.Taken? {
      DispatchGoesOn(w);
      hide Dispatch;
    }
  }

  lemma DispatchGoesOn(w: World)
    requires w.receiving.Taken? && Places(w) && Commanding(w.main)
    ensures CommandGoesOn(w, Process(w))
  {
  }

  lemma TakeGoesOn(w: World, m: Message)
    requires Places(w) && Commanding(w.main)
    ensures Commanding(Take(w, m).main) ==> CommandGoesOn(w, Take(w, m))
  {
  }

  lemma CommandStep(w: World, s: Step)
    requires Ixl.WellFormed(w.plant) && Places(w) && ComparisonTrue(w)
    ensures Commanding(Next(w, s).main) ==> CommandGoesOn(w, Next(w, s))
  {
    hide Ixl.WellFormed, Ixl.Request, Ixl.Release, Ixl.Operate, Ixl.Grantable, PayloadOf;
    match s
    case Processes =>
      if Commanding(w.main) {
        ProcessGoesOn(w);
      }
    case Takes(m) =>
      if Commanding(w.main) {
        TakeGoesOn(w, m);
      }
    case _ => hide Process, Take, InFlight, ComparisonTrue;
  }

  lemma EvidenceGrows(w: World, w2: World)
    requires CommandGoesOn(w, w2) && Evidence(w)
    ensures Evidence(w2)
  {
    hide Commanded, Reported;
    CommandedNow(w.log, w2.expected);
    if w2.log != w.log && Commanding(w.main) && !w2.log[|w.log|].CommandBegun? {
      var n := w2.log[|w.log|];
      assert w2.log == w.log + [n];
      CommandedGrows(w.log, n, w.expected);
      if n.ReportTaken? {
        ReportedAtOnce(w.log, w.expected, n.bytes);
      }
      if InFlight(w.receiving) {
        ReportedGrows(w.log, n, BytesOf(w.receiving));
      }
      if w.pdi == CommandConfirmed {
        ReportedGrows(w.log, n, w.expected);
      }
    }
  }

  lemma {:induction false} EvidenceStep(w: World, s: Step)
    requires Ixl.WellFormed(w.plant) && Places(w) && ComparisonTrue(w) && Evidence(w)
    ensures Evidence(Next(w, s))
  {
    hide Next, ComparisonTrue, CommandGoesOn, Commanded, Reported;
    PlacesStep(w, s);
    CommandStep(w, s);
    if Commanding(Next(w, s).main) {
      EvidenceGrows(w, Next(w, s));
    }
  }

  /* ----- the record of a run ----- */

  /** Before place r the last command, a report equal to it taken since. */
  ghost predicate ConfirmedFor(log: seq<Note>, r: nat, p: Payload)
    requires r <= |log|
  {
    Commanded(log[..r], p) && Reported(log[..r], p)
  }

  ghost predicate Confirmable(log: seq<Note>, r: nat)
    requires r <= |log|
  {
    exists p :: ConfirmedFor(log, r, p)
  }

  ghost predicate Justified(log: seq<Note>, r: nat)
    requires r < |log|
  {
    match log[r]
    case ResultRead(CommandConfirmed) => Confirmable(log, r)
    case RouteFreed(_) => r > 0 && log[r - 1] == ResultRead(CommandConfirmed)
      && ConfirmedFor(log, r - 1, PayloadOf(Parada))
    case _ => true
  }

  ghost predicate AllJustified(log: seq<Note>) {
    forall r :: 0 <= r < |log| ==> Justified(log, r)
  }

  lemma JustifiedGrows(log: seq<Note>, n: Note)
    requires AllJustified(log) && Justified(log + [n], |log|)
    ensures AllJustified(log + [n])
  {
    var log2 := log + [n];
    hide Commanded, Reported, PayloadOf;
    forall r | 0 <= r < |log| ensures Justified(log2, r) {
      assert Justified(log, r);
      assert log2[..r] == log[..r];
      if r > 0 {
        assert log2[..r - 1] == log[..r - 1];
      }
      forall p | ConfirmedFor(log, r, p) ensures ConfirmedFor(log2, r, p) {
      }
    }
  }

  lemma ConfirmedJustified(w: World, id: nat)
    requires Commanded(w.log, w.expected) && Reported(w.log, w.expected)
    ensures var l1 := w.log + [ResultRead(CommandConfirmed)];
            Justified(l1, |w.log|) && (w.expected == PayloadOf(Parada) ==> Justified(l1 + [RouteFreed(id)], |l1|))
  {
    var l1 := w.log + [ResultRead(CommandConfirmed)];
    var l2 := l1 + [RouteFreed(id)];
    hide Commanded, Reported, PayloadOf;
    assert l1[..|w.log|] == w.log && l2[..|w.log|] == w.log;
    assert ConfirmedFor(l1, |w.log|, w.expected);
  }

  lemma PlainJustified(log: seq<Note>, n: Note)
    requires Plain(n)
    ensures Justified(log + [n], |log|)
  {
  }

  ghost predicate Kept(w: World) {
    && StageKept(w) && Places(w) && ComparisonTrue(w) && CopyTrue(w) && Evidence(w) && AllJustified(w.log)
    && Ixl.Safe(w.plant)
  }

  predicate Plain(n: Note) {
    n != ResultRead(CommandConfirmed) && !n.RouteFreed?
  }

  /** What one step adds to the record. */
  ghost predicate Adds(w: World, w2: World) {
    || w2.log == w.log
    || (w2.log != [] && w2.log == w.log + [w2.log[|w2.log| - 1]] && Plain(w2.log[|w2.log| - 1]))
    || w2.log == w.log + [Upset] + [ResultRead(Failed)]
    || (&& w.pdi == CommandConfirmed && Commanding(w.main)
        && (|| w2.log == w.log + [ResultRead(CommandConfirmed)]
            || (w.main.order.ReleaseRoute?
               && w2.log == w.log + [ResultRead(CommandConfirmed)] + [RouteFreed(w.main.order.id)])))
  }

  lemma StepAdds(w: World, s: Step)
    requires Ixl.WellFormed(w.plant)
    ensures Adds(w, Next(w, s))
  {
    hide Ixl.WellFormed, Ixl.Request, Ixl.Release, Ixl.Operate, Ixl.Grantable, PayloadOf;
    hide Process, Return;
    match s
    case Processes => ProcessAdds(w);
    case Returns => ReturnAdds(w);
    case _ =>
  }

  lemma ProcessAdds(w: World)
    ensures Adds(w, Process(w))
  {
  }

  lemma ReturnAdds(w: World)
    requires Ixl.WellFormed(w.plant)
    ensures Adds(w, Return(w))
  {
    hide Ixl.WellFormed, Ixl.Release;
  }

  lemma {:induction false} RecordStep(w: World, s: Step)
    requires Ixl.WellFormed(w.plant) && Places(w) && CopyTrue(w) && Evidence(w) && AllJustified(w.log)
    ensures AllJustified(Next(w, s).log)
  {
    var w2 := Next(w, s);
    StepAdds(w, s);
    hide Next, PayloadOf, Commanded, Reported, Justified, AllJustified;
    if w2.log != w.log {
      var n := w2.log[|w.log|];
      if n == ResultRead(CommandConfirmed) {
        ConfirmedJustified(w, if w.main.order.ReleaseRoute? then w.main.order.id else 0);
        JustifiedGrows(w.log, n);
        if w2.log != w.log + [n] {
          JustifiedGrows(w.log + [n], w2.log[|w2.log| - 1]);
        }
      } else {
        PlainJustified(w.log, n);
        JustifiedGrows(w.log, n);
        if w2.log != w.log + [n] {
          PlainJustified(w.log + [n], ResultRead(Failed));
          JustifiedGrows(w.log + [n], ResultRead(Failed));
        }
      }
    }
  }

  lemma PlantStep(w: World, s: Step)
    requires Ixl.WellFormed(w.plant) && Ixl.Safe(w.plant)
    ensures Ixl.Safe(Next(w, s).plant)
  {
    match s
    case Commands(RequestRoute(id)) => Ixl.RequestKeepsSafe(w.plant, id);
    case Returns =>
      if w.main.Waiting? && w.main.order.ReleaseRoute? {
        Ixl.ReleaseKeepsSafe(w.plant, w.main.order.id);
      }
    case _ =>
  }

  lemma {:induction false} KeptStep(w: World, s: Step)
    requires Ixl.WellFormed(w.plant) && Kept(w)
    ensures Kept(Next(w, s))
  {
    hide Next, StageKept, Places, ComparisonTrue, CopyTrue, Evidence, AllJustified, Ixl.Safe;
    StageStep(w, s);
    PlacesStep(w, s);
    ComparisonStep(w, s);
    CopyStep(w, s);
    EvidenceStep(w, s);
    RecordStep(w, s);
    PlantStep(w, s);
  }

  lemma KeptAtStart(w: World)
    requires Started(w)
    ensures Kept(w)
  {
    ReachedNothing(w.log);
  }

  lemma {:induction false} RunKept(w: World, steps: seq<Step>)
    requires Started(w)
    ensures Kept(Run(w, steps))
    decreases |steps|
  {
    hide Kept, Next;
    if steps == [] {
      KeptAtStart(w);
    } else {
      RunKept(w, steps[..|steps| - 1]);
      KeptStep(Run(w, steps[..|steps| - 1]), steps[|steps| - 1]);
    }
  }

  /** Under every interleaving, wait_for_signal_confirmation reads CONFIRMED only
      if a report equal to the payload of the command was taken after that
      command began; and a route is freed only right after such a confirmation
      of PARADA. */
  lemma {:induction false} ConfirmedMeansReported(w: World, steps: seq<Step>, r: nat)
    requires Started(w) && r < |Run(w, steps).log|
    ensures var log := Run(w, steps).log;
            && (log[r] == ResultRead(CommandConfirmed) ==> Confirmable(log, r))
            && (log[r].RouteFreed? ==>
                  r > 0 && log[r - 1] == ResultRead(CommandConfirmed) && ConfirmedFor(log, r - 1, PayloadOf(Parada)))
  {
    RunKept(w, steps);
    hide Run, Confirmable, ConfirmedFor;
    assert Justified(Run(w, steps).log, r);
  }

  /** A route stops blocking in one place only, and that is recorded. */
  lemma FreedOnlyOnRecord(w: World, s: Step, id: nat)
    requires Ixl.WellFormed(w.plant) && id < |w.plant.route|
    requires Ixl.Blocks(w.plant.route[id]) && !Ixl.Blocks(Next(w, s).plant.route[id])
    ensures Next(w, s).log == w.log + [ResultRead(CommandConfirmed), RouteFreed(id)]
    ensures w.main == Waiting(ReleaseRoute(id))
  {
  }

  /** Whatever the threads do, no two blocking routes share a section. */
  lemma {:induction false} RoutesStaySafe(w: World, steps: seq<Step>)
    requires Started(w)
    ensures Ixl.Safe(Run(w, steps).plant)
  {
    RunKept(w, steps);
  }

  /* ----- what brings the machine into each state ----- */

  /** The message a step is about to dispatch. */
  predicate Dispatches(w: World, s: Step) {
    s == Processes && w.receiving.Taken?
  }

  /** A step that a thread takes to say that something is wrong. */
  predicate GoesWrong(w: World, s: Step) {
    match s
    case TimesOut => true
    case StatusRequestFails => w.receiving == StatusRequested
    case Sends(success) => w.main.Sending? && !success
    case HandshakeSends(success) => w.handshakes > 0 && !success
    case GivesUp => w.main.Waiting? || w.main == Establishing
    case Returns => w.main == Leaving
    case Handshakes(id) => id != 0x61
    case Changes(link) => w.pdi == WaitConfirmation && link != OtherLink
    case Takes(m) => w.receiving == NoMessage && m == WrongHeader
    case _ => false
  }

  /** A message that the state does not allow, or that cannot be read. */
  predicate OutOfPlace(w: World, m: Message, waiting: bool) {
    match m
    case VersionResponse(ok, _, _, _) => !ok || w.pdi != WaitVersionResponse
    case LuminosityStatus(ok) =>
      || !ok || w.pdi == Disconnected || w.pdi == WaitRastaHandshake || w.pdi == WaitVersionResponse
      || w.pdi == WaitInitialisationStart || w.pdi == Failed
    case ExecutionError(ok) => !ok || w.pdi != WaitConfirmation
    case AspectStatus(ok, _) => !ok || (!waiting && w.pdi != ReceivingInitialStatus)
    case StatusBegin => w.pdi != WaitInitialisationStart
    case StatusFinish => w.pdi != ReceivingInitialStatus
    case _ => false
  }

  /** A version response with version 5 in both fields and equal versions. */
  predicate VersionFive(m: Message) {
    m.VersionResponse? && m.requested == 5 && m.supported == 5 && m.equal
  }

  /** The conditions under which a step leads from another state into q. */
  ghost predicate EntersBy(w: World, s: Step, q: Pdi) {
    match q
    case Disconnected => s == Changes(Closed) && w.pdi != WaitConfirmation && w.pdi != Failed
    case WaitRastaHandshake => (s == Changes(Down) || s == Changes(Start)) && w.pdi != WaitConfirmation
    case WaitVersionResponse => s == Handshakes(0x61)
    case WaitInitialisationStart => s == Processes && w.receiving.VersionChecked? && VersionFive(w.receiving.m)
    case ReceivingInitialStatus =>
      Dispatches(w, s) && w.receiving.m == StatusBegin && w.pdi == WaitInitialisationStart
    case Established =>
      || (Dispatches(w, s) && w.receiving.m == StatusFinish && w.pdi == ReceivingInitialStatus)
      || (s == Returns && w.main.Waiting?
          && (w.pdi == CommandConfirmed || w.pdi == CommandMismatch || w.pdi == CommandRejected))
    case WaitConfirmation => s == Advances && w.main.Copying? && w.main.k >= 18 && w.pdi == Established
    case CommandConfirmed =>
      s == Processes && w.receiving.Compared? && w.receiving.bytes == w.expected && w.pdi == WaitConfirmation
    case CommandMismatch =>
      s == Processes && w.receiving.Compared? && w.receiving.bytes != w.expected && w.pdi == WaitConfirmation
    case CommandRejected => Dispatches(w, s) && w.receiving.m == ExecutionError(true) && w.pdi == WaitConfirmation
    case Failed =>
      || GoesWrong(w, s)
      || (Dispatches(w, s) && OutOfPlace(w, w.receiving.m, w.receiving.waiting))
      || (s == Processes && w.receiving.VersionChecked? && !VersionFive(w.receiving.m))
      || (s == Processes && w.receiving.Compared? && w.pdi != WaitConfirmation)
  }

  /** Each state is entered exactly so, in every reachable world. */
  lemma EnteredIff(w0: World, steps: seq<Step>, s: Step, q: Pdi)
    requires Started(w0) && Run(w0, steps).pdi != q
    ensures Run(w0, steps + [s]).pdi == q <==> EntersBy(Run(w0, steps), s, q)
  {
    RunKept(w0, steps);
    RunAppend(w0, steps, s);
    EnteredByStep(Run(w0, steps), s, q);
  }

  lemma EnteredByStep(w: World, s: Step, q: Pdi)
    requires Ixl.WellFormed(w.plant) && ComparisonTrue(w) && w.pdi != q
    ensures Next(w, s).pdi == q <==> EntersBy(w, s, q)
  {
    hide Ixl.WellFormed, Ixl.Request, Ixl.Release, Ixl.Operate, Ixl.Grantable, PayloadOf;
    if s == Processes {
      EnteredByProcess(w, q);
      hide EntersBy;
    } else {
      hide Process, OutOfPlace, RightVersion;
    }
  }

  lemma EnteredByProcess(w: World, q: Pdi)
    requires Ixl.WellFormed(w.plant) && ComparisonTrue(w) && w.pdi != q
    ensures Process(w).pdi == q <==> EntersBy(w, Processes, q)
  {
    hide Ixl.WellFormed;
    if w.receiving.Taken? {
      hide ComparisonTrue;
    } else {
      hide Dispatch, OutOfPlace;
    }
  }
}
