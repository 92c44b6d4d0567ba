/** The shared PDI state behind its lock: each method is one critical section
    of the machine. */
module PdiMonitor {
  import opened PdiMachine
  import Ixl = Interlocking

  class Monitor {
    var pdiState: Pdi

    constructor ()
      ensures pdiState == Disconnected
    {
      pdiState := Disconnected;
    }

    method SetPdiState(next: Pdi)
      modifies this
      ensures forall w: World :: w.pdi == old(pdiState) ==> Set(w, next).pdi == pdiState
    {
      pdiState := next;
    }

    /** The main thread starts a command, if the machine is established. */
    method BeginSignalConfirmation() returns (started: bool)
      modifies this
      ensures started <==> old(pdiState) == Established
      ensures forall w: World, order, a :: w.pdi == old(pdiState) && w.main == Copying(order, a, PAYLOAD_SIZE) ==>
                Advance(w).pdi == pdiState && (started <==> Advance(w).main == Sending(order))
    {
      started := pdiState == Established;
      if started {
        pdiState := WaitConfirmation;
      }
    }

    method RequirePdiState(expected: Pdi) returns (valid: bool)
      modifies this
      ensures valid <==> old(pdiState) == expected
      ensures forall w: World :: w.pdi == old(pdiState) ==> Require(w, expected).pdi == pdiState
    {
      valid := pdiState == expected;
      if !valid {
        pdiState := Failed;
      }
    }

    method TransitionPdiState(expected: Pdi, next: Pdi) returns (transitioned: bool)
      modifies this
      ensures transitioned <==> old(pdiState) == expected
      ensures forall w: World, n :: w.pdi == old(pdiState) ==> Transition(w, expected, next, n).pdi == pdiState
    {
      transitioned := pdiState == expected;
      pdiState := if transitioned then next else Failed;
    }

    method CompleteSignalCommand(outcome: Pdi)
      modifies this
      ensures forall w: World :: w.pdi == old(pdiState) ==> Complete(w, outcome).pdi == pdiState
    {
      if pdiState != WaitConfirmation || !IsResult(outcome) {
        pdiState := Failed;
      } else {
        pdiState := outcome;
      }
    }

    method OnBrightnessStatus()
      modifies this
      ensures forall w: World, waiting :: w.pdi == old(pdiState) ==>
                Dispatch(w, LuminosityStatus(true), waiting).pdi == pdiState
    {
      if !LuminosityAllowed(pdiState) {
        pdiState := Failed;
      }
    }

    method OnConnectionChange(l: Link)
      modifies this
      ensures forall w: World :: w.pdi == old(pdiState) ==> Change(w, l).pdi == pdiState
    {
      match l
      case Closed =>
        if pdiState == WaitConfirmation || pdiState == Failed {
          pdiState := Failed;
        } else {
          pdiState := Disconnected;
        }
      case Down =>
        pdiState := if pdiState == WaitConfirmation then Failed else WaitRastaHandshake;
      case Start =>
        pdiState := if pdiState == WaitConfirmation then Failed else WaitRastaHandshake;
      case OtherLink =>
    }

    /** wait_for_signal_confirmation returns what it finds once the wait is over:
        the machine's main thread reads this result, and a result of the
        command is read once, since the machine is then established again. */
    method TakeResult() returns (result: Pdi)
      requires pdiState != WaitConfirmation
      modifies this
      ensures forall w: World :: w.pdi == old(pdiState) && w.main.Waiting? && Ixl.WellFormed(w.plant) ==>
                && Return(w).pdi == pdiState
                && |w.log| < |Return(w).log| && Return(w).log[|w.log|] == ResultRead(result)
      ensures pdiState != WaitConfirmation && !IsResult(pdiState)
    {
      hide Return, Ixl.WellFormed;
      result := pdiState;
      if IsResult(result) {
        pdiState := Established;
      }
      forall w: World | w.pdi == result && w.main.Waiting? && Ixl.WellFormed(w.plant)
        ensures Return(w).pdi == pdiState
        ensures |w.log| < |Return(w).log| && Return(w).log[|w.log|] == ResultRead(result)
      {
        ReturnReads(w);
      }
    }
  }

  lemma ReturnReads(w: World)
    requires w.main.Waiting? && w.pdi != WaitConfirmation && Ixl.WellFormed(w.plant)
    ensures Return(w).pdi == if IsResult(w.pdi) then Established else w.pdi
    ensures |w.log| < |Return(w).log| && Return(w).log[|w.log|] == ResultRead(w.pdi)
  {
    hide Ixl.Release, Ixl.WellFormed;
  }
}
