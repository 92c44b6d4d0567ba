/** The safety and retransmission (SR) layer of RaSTA: what one endpoint does.

  Every handler, the send step and the heartbeat step run under the connection
  lock, so each is one atomic function from an endpoint to an Outcome: the new
  endpoint, the packets passed to the redundancy layer, and the application
  messages pushed towards the application.

  Sequence numbers are 32-bit in the program. All functions take an Arith
  argument: Wrapped computes as the program does, Exact never wraps. Every
  comparison is the program's unsigned 32-bit one in both modes, which makes
  the wrapped machine the exact image of the unbounded one (see SrRefinement).
*/
module SrEndpoint {
  import opened Words
  import opened Wrappers

  /** Capacity of the retransmission queue. */
  const MAX_QUEUE_SIZE: nat := 10

  datatype Arith = Wrapped | Exact

  function Norm(n: int, a: Arith): int {
    if a.Wrapped? then n % U32 else n
  }

  /** The unsigned 32-bit difference a - b. */
  function Diff32(a: int, b: int): int {
    (a - b) % U32
  }

  datatype Kind = Heartbeat | Data | RetrReq | RetrResp | RetrData | DiscReq

  datatype Packet<M> = Packet(kind: Kind, sn: int, cs: int, msgs: seq<M>)

  /** An element of the retransmission queue: a sent data packet. */
  datatype Entry<M> = Entry(sn: int, msgs: seq<M>)

  datatype State = Closed | Up | WaitResp | Running

  /** sendMax is N_SENDMAX, maxPacket the number of messages per data packet. */
  datatype Config = Config(sendMax: nat, maxPacket: nat)

  /** attached: the redundancy channel to the peer still exists. */
  datatype Endpoint<M> = Endpoint(
    cfg: Config, state: State, attached: bool,
    snT: int, snR: int, csT: int, csR: int,
    retr: seq<Entry<M>>, send: seq<M>, app: seq<M>)

  datatype Outcome<M> = Outcome(e: Endpoint<M>, out: seq<Packet<M>>, up: seq<M>)

  function Start<M>(e: Endpoint<M>): Outcome<M> {
    Outcome(e, [], [])
  }

  /* ----- bounded queues ----- */

  function Push<T>(q: seq<T>, x: T, cap: nat): seq<T> {
    if |q| == cap then q else q + [x]
  }

  function PushAll<T>(q: seq<T>, xs: seq<T>, cap: nat): seq<T>
    decreases |xs|
  {
    if xs == [] then q else PushAll(Push(q, xs[0], cap), xs[1..], cap)
  }

  /* ----- checks of section 5.5 ----- */

  predicate SnInSeq<M>(e: Endpoint<M>, p: Packet<M>) {
    p.kind.RetrResp? || p.kind.DiscReq? || Diff32(e.snR, p.sn) == 0
  }

  predicate SnRangeValid<M>(e: Endpoint<M>, p: Packet<M>) {
    p.kind.RetrResp? || Diff32(p.sn, e.snR) <= e.cfg.sendMax * 10
  }

  predicate CsValid<M>(e: Endpoint<M>, p: Packet<M>) {
    Diff32(p.cs, e.csR) < Diff32(e.snT, e.csR)
  }

  /* ----- sending ----- */

  /** A packet that carries and consumes the next sequence number. */
  function Emit<M>(o: Outcome<M>, kind: Kind, msgs: seq<M>, a: Arith): Outcome<M> {
    o.(out := if o.e.attached then o.out + [Packet(kind, o.e.snT, o.e.csT, msgs)] else o.out,
       e := o.e.(snT := Norm(o.e.snT + 1, a)))
  }

  /** A disconnection request carries the next number without consuming it. */
  function EmitDisconnect<M>(o: Outcome<M>): Outcome<M> {
    if o.e.attached then o.(out := o.out + [Packet(DiscReq, o.e.snT, o.e.csT, [])]) else o
  }

  function Close<M>(o: Outcome<M>): Outcome<M> {
    var o1 := if o.e.state.Closed? then o else EmitDisconnect(o);
    o1.(e := o1.e.(state := Closed, attached := false))
  }

  /* ----- retransmission queue ----- */

  function RemoveConfirmed<M>(q: seq<Entry<M>>, c: int): seq<Entry<M>> {
    if q == [] then []
    else if Diff32(q[0].sn, c) == 0 then q[1..]
    else RemoveConfirmed(q[1..], c)
  }

  function RetransmitAll<M>(o: Outcome<M>, pending: seq<Entry<M>>, a: Arith): Outcome<M>
    decreases |pending|
  {
    if pending == [] then o
    else
      var queued := o.(e := o.e.(retr := Push(o.e.retr, Entry(o.e.snT, pending[0].msgs), MAX_QUEUE_SIZE)));
      RetransmitAll(Emit(queued, RetrData, pending[0].msgs, a), pending[1..], a)
  }

  function RetransmitData<M>(o: Outcome<M>, a: Arith): Outcome<M> {
    Emit(RetransmitAll(o.(e := o.e.(retr := [])), o.e.retr, a), Heartbeat, [], a)
  }

  /* ----- receiving ----- */

  function AddToBuffer<M>(o: Outcome<M>, msgs: seq<M>): Outcome<M> {
    o.(e := o.e.(app := PushAll(o.e.app, msgs, o.e.cfg.sendMax)), up := o.up + msgs)
  }

  /** The peer's number is taken over: sn_r := SN + 1, cs_t := SN. */
  function TakeNumber<M>(o: Outcome<M>, p: Packet<M>, a: Arith): Outcome<M> {
    o.(e := o.e.(snR := Norm(p.sn + 1, a), csT := p.sn))
  }

  function Confirm<M>(o: Outcome<M>, c: int): Outcome<M> {
    o.(e := o.e.(csR := c))
  }

  function ConfirmAndTrim<M>(o: Outcome<M>, c: int): Outcome<M> {
    o.(e := o.e.(csR := c, retr := RemoveConfirmed(o.e.retr, c)))
  }

  function ToState<M>(o: Outcome<M>, s: State): Outcome<M> {
    o.(e := o.e.(state := s))
  }

  function RequestRetransmission<M>(o: Outcome<M>, a: Arith): Outcome<M> {
    ToState(Emit(o, RetrReq, [], a), WaitResp)
  }

  predicate Flowing(s: State) {
    s.Up? || s.Running?
  }

  /** A heartbeat confirms everything sent so far and leaves the queue alone. */
  function HandleHeartbeat<M>(e: Endpoint<M>, p: Packet<M>, ctsInSeq: bool, a: Arith): Outcome<M> {
    var o := Start(e);
    if !Flowing(e.state) then o
    else if !SnInSeq(e, p) then ToState(o, WaitResp)
    else if !ctsInSeq then Close(o)
    else ToState(Confirm(TakeNumber(o, p, a), Norm(e.snT - 1, a)), Up)
  }

  function HandleData<M>(e: Endpoint<M>, p: Packet<M>, ctsInSeq: bool, a: Arith): Outcome<M> {
    var o := Start(e);
    if !Flowing(e.state) then o
    else if !SnInSeq(e, p) then RequestRetransmission(o, a)
    else if !ctsInSeq then Close(o)
    else if e.state.Up? then ConfirmAndTrim(TakeNumber(AddToBuffer(o, p.msgs), p, a), p.cs)
    else TakeNumber(o, p, a)
  }

  /** The first half of handling a request: in state Running it closes the
      connection, in sequence its numbers are taken, and the queue is cut. */
  function ApplyRequest<M>(e: Endpoint<M>, p: Packet<M>, a: Arith): Outcome<M> {
    var o := Start(e);
    var o1 := if !SnInSeq(e, p) then o
              else TakeNumber(if e.state.Running? then Close(o) else o, p, a);
    ConfirmAndTrim(o1, p.cs)
  }

  function HandleRetrReq<M>(e: Endpoint<M>, p: Packet<M>, a: Arith): Outcome<M> {
    var o := RetransmitData(Emit(ApplyRequest(e, p, a), RetrResp, [], a), a);
    if SnInSeq(e, p) then o else ToState(o, WaitResp)
  }

  function HandleRetrResp<M>(e: Endpoint<M>, p: Packet<M>, a: Arith): Outcome<M> {
    var o := Start(e);
    if e.state.WaitResp? then
      ToState(Confirm(TakeNumber(o, p, a), Norm(e.snT - 1, a)), Running)
    else Close(o)
  }

  function HandleRetrData<M>(e: Endpoint<M>, p: Packet<M>, ctsInSeq: bool, a: Arith): Outcome<M> {
    var o := Start(e);
    if e.state.Up? then Close(o)
    else if !e.state.Running? then o
    else if !SnInSeq(e, p) then RequestRetransmission(o, a)
    else if !ctsInSeq then Close(o)
    else Confirm(TakeNumber(AddToBuffer(o, p.msgs), p, a), p.cs)
  }

  function HandleDiscReq<M>(e: Endpoint<M>): Outcome<M> {
    Start(e.(state := Closed, attached := false))
  }

  /** One round of the receive thread on a packet of an established connection. */
  function Receive<M>(e: Endpoint<M>, p: Packet<M>, ctsInSeq: bool, a: Arith): Outcome<M> {
    if !e.attached || !SnRangeValid(e, p) || !CsValid(e, p) then Start(e)
    else match p.kind
      case RetrData => HandleRetrData(e, p, ctsInSeq, a)
      case Data => HandleData(e, p, ctsInSeq, a)
      case RetrReq => HandleRetrReq(e, p, a)
      case RetrResp => HandleRetrResp(e, p, a)
      case DiscReq => HandleDiscReq(e)
      case Heartbeat => HandleHeartbeat(e, p, ctsInSeq, a)
  }

  /* ----- the other threads and the service interface ----- */

  /** One pass of the send thread over this connection. */
  function SendStep<M>(e: Endpoint<M>, a: Arith): Outcome<M> {
    if e.state.Closed? || |e.retr| > e.cfg.maxPacket || e.send == [] then Start(e)
    else
      var n := if |e.send| >= e.cfg.maxPacket then e.cfg.maxPacket else |e.send|;
      var e1 := e.(send := e.send[n..],
                   retr := Push(e.retr, Entry(e.snT, e.send[..n]), MAX_QUEUE_SIZE));
      Emit(Start(e1), Data, e.send[..n], a)
  }

  /** One pass of the heartbeat thread: T_i may have expired, a heartbeat may be due. */
  function HeartbeatStep<M>(e: Endpoint<M>, expired: bool, due: bool, a: Arith): Outcome<M> {
    if e.state.Closed? then Start(e)
    else
      var o := if expired then Close(Start(e)) else Start(e);
      if due then Emit(o, Heartbeat, [], a) else o
  }

  /** sr_send: messages are queued in state Up; in a retransmission the service
      is refused with a disconnection that leaves the channel in place. */
  function Submit<M>(e: Endpoint<M>, msgs: seq<M>): Outcome<M> {
    if e.state.Closed? then Start(e)
    else if e.state.Up? then
      if |msgs| > e.cfg.maxPacket then Start(e)
      else Start(e.(send := PushAll(e.send, msgs, 2 * e.cfg.maxPacket)))
    else ToState(EmitDisconnect(Start(e)), Closed)
  }

  function Disconnect<M>(e: Endpoint<M>): Outcome<M> {
    Close(Start(e))
  }

  datatype Fetched<M> = Fetched(e: Endpoint<M>, message: Option<M>)

  /** sr_get_received_data; the program calls it on a non-empty buffer. */
  function Fetch<M>(e: Endpoint<M>): Fetched<M> {
    if e.app == [] then Fetched(e, None) else Fetched(e.(app := e.app[1..]), Some(e.app[0]))
  }
}
