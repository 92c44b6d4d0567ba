/** The PDI establishment and command machine, shared by several threads.

  One step is what one thread does in one critical section, or one byte it
  copies or compares outside the locks. The main thread, one message being
  received (the receive lock admits one), any number of handshake callbacks and
  the connection and timeout callbacks interleave freely.
*/
module PdiMachine {
  import opened ByteOrder
  import Ixl = Interlocking

  datatype Pdi =
    | Disconnected | WaitRastaHandshake | WaitVersionResponse | WaitInitialisationStart
    | ReceivingInitialStatus | Established | WaitConfirmation
    | CommandConfirmed | CommandMismatch | CommandRejected | Failed

  /** SCI_LS_ICD_SIGNAL_ASPECT_PAYLOAD_SIZE. */
  const PAYLOAD_SIZE := 18
  const PDI_VERSION := 5
  const OC_ID := 0x61

  type Payload = s: seq<byte> | |s| == PAYLOAD_SIZE witness seq(PAYLOAD_SIZE, _ => 0)

  datatype Aspect =
    | ViaLibre | Parada | AnuncioParada | AnuncioPrecaucion | Rebase
    | ParadaSelectivaN2 | RebaseAutorizado | Apagada

  function Vector(first: byte, ninth: byte, tenth: byte): Payload {
    [first, 0, 0, 0, 0, 0, 0xFE, 0xFE, ninth, tenth, 0xFE, 0xFE, 0xFE, 0xFE, 0xFE, 0xFE, 0xFE, 0xFE]
  }

  /** cloud_ixl_build_signal_aspect_payload on the supported aspects. */
  function PayloadOf(a: Aspect): Payload {
    match a
    case ViaLibre => Vector(0x01, 0x01, 0xFE)
    case Parada => Vector(0x02, 0x01, 0xFE)
    case AnuncioParada => Vector(0x03, 0x01, 0xFE)
    case AnuncioPrecaucion => Vector(0x05, 0x01, 0xFE)
    case Rebase => Vector(0xFE, 0x01, 0x01)
    case ParadaSelectivaN2 => Vector(0xFE, 0x01, 0x02)
    case RebaseAutorizado => Vector(0xFE, 0x01, 0x03)
    case Apagada => Vector(0x02, 0x0F, 0xFE)
  }

  /** A report says which aspect is shown. */
  lemma PayloadsDiffer(a: Aspect, b: Aspect)
    requires PayloadOf(a) == PayloadOf(b)
    ensures a == b
  {
    assert PayloadOf(a)[0] == PayloadOf(b)[0];
    assert PayloadOf(a)[8] == PayloadOf(b)[8];
    assert PayloadOf(a)[9] == PayloadOf(b)[9];
  }

  /** A received message after decoding; ok is the outcome of the ICD parser. */
  datatype Message =
    | NotATelegram
    | WrongHeader
    | VersionResponse(ok: bool, requested: byte, supported: byte, equal: bool)
    | LuminosityStatus(ok: bool)
    | ExecutionError(ok: bool)
    | AspectStatus(ok: bool, bytes: Payload)
    | StatusBegin
    | StatusFinish
    | OtherMessage

  predicate RightVersion(m: Message) {
    m.VersionResponse? && m.requested == PDI_VERSION && m.supported == PDI_VERSION && m.equal
  }

  /** Where process_received_message is. */
  datatype Receiving =
    | NoMessage
    | Taken(m: Message, waiting: bool)
    | VersionChecked(m: Message)
    | StatusRequested
    | Comparing(bytes: Payload, k: nat, same: bool)
    | Compared(bytes: Payload, same: bool)

  datatype Order = RequestRoute(id: nat) | ReleaseRoute(id: nat) | ShowAspect(aspect: Aspect)

  /** Where the main thread is. */
  datatype Main =
    | Establishing
    | Idle
    | Copying(order: Order, aspect: Aspect, k: nat)
    | Sending(order: Order)
    | Waiting(order: Order)
    | Leaving
    | Finished

  /** What the run has shown so far; the program keeps no such record. */
  datatype Note =
    | HandshakeNoted
    | VersionNoted(m: Message)
    | BeginNoted
    | FinishNoted
    | CommandBegun(payload: Payload)
    | ReportTaken(bytes: Payload)
    | ResultRead(result: Pdi)
    | RouteFreed(id: nat)
    | Upset

  datatype World = World(
    pdi: Pdi, expected: Payload, main: Main, receiving: Receiving, handshakes: nat,
    plant: Ixl.Plant, log: seq<Note>)

  predicate IsResult(s: Pdi) {
    s == CommandConfirmed || s == CommandMismatch || s == CommandRejected
  }

  predicate LuminosityAllowed(s: Pdi) {
    s == ReceivingInitialStatus || s == Established || s == WaitConfirmation || IsResult(s)
  }

  /* ----- the critical sections ----- */

  function Set(w: World, s: Pdi): World {
    w.(pdi := s)
  }

  function Noted(w: World, n: Note): World {
    w.(log := w.log + [n])
  }

  /** set_pdi_state(PDI_FAILED) and the like. */
  function Fail(w: World): World {
    Noted(Set(w, Failed), Upset)
  }

  function Require(w: World, expected: Pdi): World {
    if w.pdi == expected then w else Fail(w)
  }

  function Transition(w: World, expected: Pdi, next: Pdi, n: Note): World {
    if w.pdi == expected then Noted(Set(w, next), n) else Fail(w)
  }

  /** complete_signal_command. */
  function Complete(w: World, outcome: Pdi): World {
    if w.pdi != WaitConfirmation || !IsResult(outcome) then Fail(w) else Set(w, outcome)
  }

  /* ----- the receive thread ----- */

  /** The message is decoded and, past the header checks, the waiting flag read. */
  function Take(w: World, m: Message): World {
    if w.receiving != NoMessage || m.NotATelegram? then w
    else if m.WrongHeader? then Fail(w)
    else
      var waiting := w.pdi == WaitConfirmation;
      var w1 := w.(receiving := Taken(m, waiting));
      if m.AspectStatus? && waiting then Noted(w1, ReportTaken(m.bytes)) else w1
  }

  /** The next critical section of the message being processed. */
  function Process(w: World): World {
    match w.receiving
    case NoMessage => w
    case Taken(m, waiting) => Dispatch(w.(receiving := NoMessage), m, waiting)
    case VersionChecked(m) =>
      if !RightVersion(m) then Fail(w.(receiving := NoMessage))
      else Noted(Set(w.(receiving := StatusRequested), WaitInitialisationStart), VersionNoted(m))
    case StatusRequested => w.(receiving := NoMessage)
    case Comparing(bytes, k, same) =>
      if k < PAYLOAD_SIZE then w.(receiving := Comparing(bytes, k + 1, same && w.expected[k] == bytes[k]))
      else w.(receiving := Compared(bytes, same))
    case Compared(bytes, same) =>
      Complete(w.(receiving := NoMessage), if same then CommandConfirmed else CommandMismatch)
  }

  function Dispatch(w: World, m: Message, waiting: bool): World {
    match m
    case VersionResponse(ok, _, _, _) =>
      if !ok then Fail(w)
      else if w.pdi == WaitVersionResponse then w.(receiving := VersionChecked(m))
      else Fail(w)
    case LuminosityStatus(ok) => if ok && LuminosityAllowed(w.pdi) then w else Fail(w)
    case ExecutionError(ok) => if ok then Complete(w, CommandRejected) else Fail(w)
    case AspectStatus(ok, bytes) =>
      if !ok then Fail(w)
      else if waiting then w.(receiving := Comparing(bytes, 0, true))
      else Require(w, ReceivingInitialStatus)
    case StatusBegin => Transition(w, WaitInitialisationStart, ReceivingInitialStatus, BeginNoted)
    case StatusFinish => Transition(w, ReceivingInitialStatus, Established, FinishNoted)
    case NotATelegram => w
    case WrongHeader => w
    case OtherMessage => w
  }

  /* ----- the main thread ----- */

  /** ls_request_command. */
  function AspectFor(d: Ixl.Decision): Aspect {
    match d
    case Go => ViaLibre
    case Stop => Parada
  }

  ghost function Command(w: World, order: Order): World
    requires Ixl.WellFormed(w.plant)
  {
    if w.main != Idle then w
    else match order
      case RequestRoute(id) =>
        var d := if Ixl.Grantable(w.plant, id) then Ixl.Go else Ixl.Stop;
        w.(plant := Ixl.Request(w.plant, id), main := Copying(order, AspectFor(d), 0))
      case ReleaseRoute(id) => w.(main := Copying(order, AspectFor(Ixl.Stop), 0))
      case ShowAspect(a) => w.(main := Copying(order, a, 0))
  }

  /** One byte of the expected payload, or the start of the command. */
  function Advance(w: World): World {
    match w.main
    case Copying(order, a, k) =>
      if k < PAYLOAD_SIZE then
        w.(expected := w.expected[k := PayloadOf(a)[k]], main := Copying(order, a, k + 1))
      else if w.pdi == Established then
        Noted(Set(w.(main := Sending(order)), WaitConfirmation), CommandBegun(w.expected))
      else w.(main := Finished)
    case _ => w
  }

  /** scils_send_telegram returned. */
  function Sent(w: World, success: bool): World {
    match w.main
    case Sending(order) => if success then w.(main := Waiting(order)) else Fail(w.(main := Finished))
    case _ => w
  }

  /** wait_for_signal_confirmation returns, and the branch that follows it. */
  ghost function Return(w: World): World
    requires Ixl.WellFormed(w.plant)
  {
    match w.main
    case Waiting(order) =>
      if w.pdi == WaitConfirmation then w
      else
        var w1 := Noted(w, ResultRead(w.pdi));
        if IsResult(w.pdi) then
          var w2 := Set(w1.(main := Idle), Established);
          if w.pdi == CommandConfirmed && order.ReleaseRoute? then Freed(w2, order.id) else w2
        else w1.(main := if w.pdi == Failed then Finished else Leaving)
    case Leaving => Fail(w.(main := Finished))
    case Establishing =>
      if w.pdi == Established then w.(main := Idle)
      else if w.pdi == Failed then w.(main := Finished)
      else w
    case _ => w
  }

  ghost function Freed(w: World, id: nat): World
    requires Ixl.WellFormed(w.plant)
  {
    var after := Ixl.Release(w.plant, id);
    if after == w.plant then w else Noted(w.(plant := after), RouteFreed(id))
  }

  /** The wait times out or fails, whatever state it finds. */
  function GiveUp(w: World): World {
    match w.main
    case Waiting(_) => Noted(Fail(w.(main := Finished)), ResultRead(Failed))
    case Establishing => Fail(w.(main := Finished))
    case _ => w
  }

  /* ----- the other callbacks ----- */

  function Handshake(w: World, id: nat): World {
    if id != OC_ID then Fail(w)
    else Noted(Set(w.(handshakes := w.handshakes + 1), WaitVersionResponse), HandshakeNoted)
  }

  /** The version request of a handshake callback has been sent, or not. */
  function HandshakeSent(w: World, success: bool): World {
    if w.handshakes == 0 then w
    else
      var w1 := w.(handshakes := w.handshakes - 1);
      if success then w1 else Fail(w1)
  }

  datatype Link = Closed | Down | Start | OtherLink

  function Change(w: World, l: Link): World {
    match l
    case Closed =>
      if w.pdi == WaitConfirmation || w.pdi == Failed then Fail(w) else Noted(Set(w, Disconnected), Upset)
    case Down => if w.pdi == WaitConfirmation then Fail(w) else Noted(Set(w, WaitRastaHandshake), Upset)
    case Start => if w.pdi == WaitConfirmation then Fail(w) else Noted(Set(w, WaitRastaHandshake), Upset)
    case OtherLink => w
  }

  datatype Step =
    | Takes(m: Message)
    | Processes
    | StatusRequestFails
    | Commands(order: Order)
    | Advances
    | Sends(success: bool)
    | Returns
    | GivesUp
    | Quits
    | Handshakes(id: nat)
    | HandshakeSends(success: bool)
    | Changes(link: Link)
    | TimesOut
    | TrackChanges(track: Ixl.Track)

  ghost function Next(w: World, s: Step): World
    requires Ixl.WellFormed(w.plant)
  {
    match s
    case Takes(m) => Take(w, m)
    case Processes => Process(w)
    case StatusRequestFails => if w.receiving == StatusRequested then Fail(w.(receiving := NoMessage)) else w
    case Commands(order) => Command(w, order)
    case Advances => Advance(w)
    case Sends(ok) => Sent(w, ok)
    case Returns => Return(w)
    case GivesUp => GiveUp(w)
    case Quits => if w.main == Idle then w.(main := Finished) else w
    case Handshakes(id) => Handshake(w, id)
    case HandshakeSends(ok) => HandshakeSent(w, ok)
    case Changes(l) => Change(w, l)
    case TimesOut => Fail(w)
    case TrackChanges(t) => w.(plant := Ixl.Operate(w.plant, Ixl.TrackChanges(t)))
  }

  lemma PlantStaysWellFormed(w: World, s: Step)
    requires Ixl.WellFormed(w.plant)
    ensures Ixl.WellFormed(Next(w, s).plant)
  {
  }

  ghost function Run(w: World, steps: seq<Step>): (w2: World)
    requires Ixl.WellFormed(w.plant)
    ensures Ixl.WellFormed(w2.plant)
    decreases |steps|
  {
    if steps == [] then w
    else
      var w1 := Run(w, steps[..|steps| - 1]);
      PlantStaysWellFormed(w1, steps[|steps| - 1]);
      Next(w1, steps[|steps| - 1])
  }

  /** main has set up its callbacks and called sr_connect. */
  ghost predicate Started(w: World) {
    && w.pdi == WaitRastaHandshake && w.main == Establishing && w.receiving == NoMessage && w.handshakes == 0
    && w.log == [] && Ixl.WellFormed(w.plant) && Ixl.Initial(w.plant)
  }
}
