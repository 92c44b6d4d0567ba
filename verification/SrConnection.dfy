/** The connection object of the SR layer, updated in place by its handlers.

  Each method runs under the connection lock in the program and is proved
  against the function of SrEndpoint it implements, in 32-bit arithmetic.
*/
module SrConnection {
  import opened Words
  import opened Wrappers
  import opened SrEndpoint

  type u32 = n: int | 0 <= n < U32

  predicate PacketFits<M>(p: Packet<M>) {
    0 <= p.sn < U32 && 0 <= p.cs < U32
  }

  /** On 32-bit numbers being in sequence is equality. */
  lemma InSequence<M>(e: Endpoint<M>, p: Packet<M>)
    requires 0 <= e.snR < U32 && PacketFits(p) && !p.kind.RetrResp? && !p.kind.DiscReq?
    ensures SnInSeq(e, p) <==> e.snR == p.sn
  {
  }

  /* ----- the functions do not look at packets sent earlier ----- */

  function Prefixed<M>(pre: seq<Packet<M>>, o: Outcome<M>): Outcome<M> {
    o.(out := pre + o.out)
  }

  lemma EmitPrefixed<M>(pre: seq<Packet<M>>, o: Outcome<M>, kind: Kind, msgs: seq<M>)
    ensures Emit(Prefixed(pre, o), kind, msgs, Wrapped) == Prefixed(pre, Emit(o, kind, msgs, Wrapped))
  {
    var p := Packet(kind, o.e.snT, o.e.csT, msgs);
    assert pre + o.out + [p] == pre + (o.out + [p]);
  }

  lemma {:induction false} RetransmitPrefixed<M>(pre: seq<Packet<M>>, o: Outcome<M>, q: seq<Entry<M>>)
    ensures RetransmitAll(Prefixed(pre, o), q, Wrapped) == Prefixed(pre, RetransmitAll(o, q, Wrapped))
    decreases |q|
  {
    if q != [] {
      var queued := o.(e := o.e.(retr := Push(o.e.retr, Entry(o.e.snT, q[0].msgs), MAX_QUEUE_SIZE)));
      EmitPrefixed(pre, queued, RetrData, q[0].msgs);
      RetransmitPrefixed(pre, Emit(queued, RetrData, q[0].msgs, Wrapped), q[1..]);
    }
  }

  lemma RetransmitDataPrefixed<M>(pre: seq<Packet<M>>, o: Outcome<M>)
    ensures RetransmitData(Prefixed(pre, o), Wrapped) == Prefixed(pre, RetransmitData(o, Wrapped))
  {
    var cleared := o.(e := o.e.(retr := []));
    RetransmitPrefixed(pre, cleared, o.e.retr);
    EmitPrefixed(pre, RetransmitAll(cleared, o.e.retr, Wrapped), Heartbeat, []);
  }

  class Connection<M> {
    const cfg: Config
    var state: State
    var attached: bool
    var snT: u32
    var snR: u32
    var csT: u32
    var csR: u32
    var fifoRetr: seq<Entry<M>>
    var fifoSend: seq<M>
    var fifoApp: seq<M>
    /** Everything passed to the redundancy multiplexer so far. */
    var sent: seq<Packet<M>>

    ghost predicate Valid()
      reads this
    {
      forall k :: 0 <= k < |fifoRetr| ==> 0 <= fifoRetr[k].sn < U32
    }

    function Now(): Endpoint<M>
      reads this
    {
      Endpoint(cfg, state, attached, snT, snR, csT, csR, fifoRetr, fifoSend, fifoApp)
    }

    function Sofar(): Outcome<M>
      reads this
    {
      Outcome(Now(), sent, [])
    }

    /** A freshly established connection: nothing queued, nothing confirmed
        beyond the handshake. */
    constructor (cfg: Config, snT: u32, snR: u32, csT: u32, csR: u32)
      ensures Valid() && Now() == Endpoint(cfg, Up, true, snT, snR, csT, csR, [], [], []) && sent == []
    {
      this.cfg := cfg;
      state, attached := Up, true;
      this.snT, this.snR, this.csT, this.csR := snT, snR, csT, csR;
      fifoRetr, fifoSend, fifoApp, sent := [], [], [], [];
    }

    method SendPacket(kind: Kind, msgs: seq<M>)
      requires Valid()
      modifies this`sent, this`snT
      ensures Valid() && Sofar() == Emit(old(Sofar()), kind, msgs, Wrapped)
    {
      if attached {
        sent := sent + [Packet(kind, snT, csT, msgs)];
      }
      snT := (snT + 1) % U32;
    }

    method CloseConnection()
      requires Valid()
      modifies this`sent, this`state, this`attached
      ensures Valid() && Sofar() == Close(old(Sofar()))
    {
      if state != Closed {
        if attached {
          sent := sent + [Packet(DiscReq, snT, csT, [])];
        }
        state := Closed;
      }
      attached := false;
    }

    method RemoveConfirmedMessages()
      requires Valid()
      modifies this`fifoRetr
      ensures Valid() && fifoRetr == RemoveConfirmed(old(fifoRetr), csR)
    {
      while fifoRetr != []
        invariant Valid()
        invariant RemoveConfirmed(fifoRetr, csR) == RemoveConfirmed(old(fifoRetr), csR)
        decreases |fifoRetr|
      {
        var elem := fifoRetr[0];
        fifoRetr := fifoRetr[1..];
        if elem.sn == csR {
          break;
        }
      }
    }

    method DrainRetransmissionQueue() returns (packets: seq<Entry<M>>)
      modifies this`fifoRetr
      ensures packets == old(fifoRetr) && fifoRetr == []
    {
      packets := [];
      while fifoRetr != []
        invariant packets + fifoRetr == old(fifoRetr)
        decreases |fifoRetr|
      {
        packets := packets + [fifoRetr[0]];
        fifoRetr := fifoRetr[1..];
      }
    }

    method ResendAll(packets: seq<Entry<M>>)
      requires Valid()
      modifies this`sent, this`snT, this`fifoRetr
      ensures Valid() && Sofar() == RetransmitAll(old(Sofar()), packets, Wrapped)
    {
      ghost var goal := RetransmitAll(Sofar(), packets, Wrapped);
      for i := 0 to |packets|
        invariant Valid()
        invariant RetransmitAll(Sofar(), packets[i..], Wrapped) == goal
      {
        assert packets[i..][1..] == packets[i + 1..];
        ghost var o := Sofar();
        fifoRetr := Push(fifoRetr, Entry(snT, packets[i].msgs), MAX_QUEUE_SIZE);
        assert Sofar() == o.(e := o.e.(retr := Push(o.e.retr, Entry(o.e.snT, packets[i].msgs), MAX_QUEUE_SIZE)));
        SendPacket(RetrData, packets[i].msgs);
      }
    }

    method RetransmitQueue()
      requires Valid()
      modifies this`sent, this`snT, this`fifoRetr
      ensures Valid() && Sofar() == RetransmitData(old(Sofar()), Wrapped)
    {
      ghost var o := Sofar();
      var packets := DrainRetransmissionQueue();
      assert Sofar() == o.(e := o.e.(retr := []));
      ResendAll(packets);
      SendPacket(Heartbeat, []);
    }

    method AddAppMessages(msgs: seq<M>)
      modifies this`fifoApp
      ensures fifoApp == PushAll(old(fifoApp), msgs, cfg.sendMax)
    {
      for i := 0 to |msgs|
        invariant PushAll(fifoApp, msgs[i..], cfg.sendMax) == PushAll(old(fifoApp), msgs, cfg.sendMax)
      {
        fifoApp := Push(fifoApp, msgs[i], cfg.sendMax);
        assert msgs[i..][1..] == msgs[i + 1..];
      }
    }

    method HandleHb(p: Packet<M>, ctsInSeq: bool)
      requires Valid() && PacketFits(p) && p.kind.Heartbeat?
      modifies this
      ensures Valid()
      ensures var o := HandleHeartbeat(old(Now()), p, ctsInSeq, Wrapped);
              Now() == o.e && sent == old(sent) + o.out
    {
      hide SnInSeq, Diff32;
      InSequence(Now(), p);
      if snR == p.sn {
        if state == Up || state == Running {
          if ctsInSeq {
            snR, csT := (p.sn + 1) % U32, p.sn;
            csR := (snT - 1) % U32;
            if state == Running {
              state := Up;
            }
          } else {
            CloseConnection();
          }
        }
      } else if state == Up || state == Running {
        state := WaitResp;
      }
    }

    method HandleDataPacket(p: Packet<M>, ctsInSeq: bool)
      requires Valid() && PacketFits(p) && p.kind.Data?
      modifies this
      ensures Valid()
      ensures var o := HandleData(old(Now()), p, ctsInSeq, Wrapped);
              Now() == o.e && sent == old(sent) + o.out
    {
      hide SnInSeq, Diff32;
      InSequence(Now(), p);
      if snR == p.sn {
        if state == Up {
          if ctsInSeq {
            AcceptData(p);
          } else {
            CloseConnection();
          }
        } else if state == Running {
          if ctsInSeq {
            snR, csT := (p.sn + 1) % U32, p.sn;
          } else {
            CloseConnection();
          }
        }
      } else if state == Running || state == Up {
        SendPacket(RetrReq, []);
        state := WaitResp;
      }
    }

    /** The first branch of HandleDataPacket: messages up, numbers taken, queue cut. */
    method AcceptData(p: Packet<M>)
      requires Valid() && PacketFits(p)
      modifies this`fifoApp, this`snR, this`csT, this`csR, this`fifoRetr
      ensures Valid()
      ensures Now() == ConfirmAndTrim(TakeNumber(AddToBuffer(Start(old(Now())), p.msgs), p, Wrapped), p.cs).e
    {
      AddAppMessages(p.msgs);
      snR, csT, csR := (p.sn + 1) % U32, p.sn, p.cs;
      RemoveConfirmedMessages();
    }

    method HandleRetransmissionRequest(p: Packet<M>)
      requires Valid() && PacketFits(p) && p.kind.RetrReq?
      modifies this
      ensures Valid()
      ensures var o := HandleRetrReq(old(Now()), p, Wrapped);
              Now() == o.e && sent == old(sent) + o.out
    {
      hide SnInSeq, Diff32;
      InSequence(Now(), p);
      hide ApplyRequest, RetransmitData, Emit;
      ghost var o := ApplyRequest(Now(), p, Wrapped);
      ghost var pre := sent;
      var inSeq := TakeRequest(p);
      AnswerRequest(pre, o);
      if !inSeq {
        state := WaitResp;
      }
    }

    method TakeRequest(p: Packet<M>) returns (inSeq: bool)
      requires Valid() && PacketFits(p) && p.kind.RetrReq?
      modifies this
      ensures Valid() && inSeq == (old(snR) == p.sn)
      ensures Sofar() == Prefixed(old(sent), ApplyRequest(old(Now()), p, Wrapped))
    {
      hide SnInSeq, Diff32;
      InSequence(Now(), p);
      hide RemoveConfirmed;
      ghost var o := Start(Now());
      inSeq := snR == p.sn;
      if inSeq {
        if state == Running {
          CloseConnection();
          o := Close(o);
        }
        assert Sofar() == Prefixed(old(sent), o);
        snR, csT := (p.sn + 1) % U32, p.sn;
        o := TakeNumber(o, p, Wrapped);
      }
      assert Sofar() == Prefixed(old(sent), o);
      assert ConfirmAndTrim(o, p.cs) == ApplyRequest(old(Now()), p, Wrapped);
      hide ApplyRequest, Close, TakeNumber;
      csR := p.cs;
      RemoveConfirmedMessages();
    }

    /** The response, the queued packets again, and a closing heartbeat. */
    method AnswerRequest(ghost pre: seq<Packet<M>>, ghost o: Outcome<M>)
      requires Valid() && Sofar() == Prefixed(pre, o)
      modifies this`sent, this`snT, this`fifoRetr
      ensures Valid()
      ensures Sofar() == Prefixed(pre, RetransmitData(Emit(o, RetrResp, [], Wrapped), Wrapped))
    {
      SendPacket(RetrResp, []);
      EmitPrefixed(pre, o, RetrResp, []);
      ghost var o2 := Emit(o, RetrResp, [], Wrapped);
      RetransmitDataPrefixed(pre, o2);
      RetransmitQueue();
    }

    method HandleRetransmissionResponse(p: Packet<M>)
      requires Valid() && PacketFits(p)
      modifies this
      ensures Valid()
      ensures var o := HandleRetrResp(old(Now()), p, Wrapped);
              Now() == o.e && sent == old(sent) + o.out
    {
      if state == WaitResp {
        state := Running;
        snR, csT := (p.sn + 1) % U32, p.sn;
        csR := (snT - 1) % U32;
      } else {
        CloseConnection();
      }
    }

    method HandleRetransmittedData(p: Packet<M>, ctsInSeq: bool)
      requires Valid() && PacketFits(p) && p.kind.RetrData?
      modifies this
      ensures Valid()
      ensures var o := HandleRetrData(old(Now()), p, ctsInSeq, Wrapped);
              Now() == o.e && sent == old(sent) + o.out
    {
      hide SnInSeq, Diff32;
      InSequence(Now(), p);
      hide PushAll;
      if snR == p.sn {
        if state == Up {
          CloseConnection();
        } else if state == Running {
          if ctsInSeq {
            AddAppMessages(p.msgs);
            snR, csT, csR := (p.sn + 1) % U32, p.sn, p.cs;
          } else {
            CloseConnection();
          }
        }
      } else {
        if state == Up {
          CloseConnection();
        } else if state == Running {
          SendPacket(RetrReq, []);
          state := WaitResp;
        }
      }
    }

    /** One round of the receive thread. */
    method ReceivePacket(p: Packet<M>, ctsInSeq: bool)
      requires Valid() && PacketFits(p)
      modifies this
      ensures Valid()
      ensures var o := Receive(old(Now()), p, ctsInSeq, Wrapped);
              Now() == o.e && sent == old(sent) + o.out
    {
      if !attached || !SnRangeValid(Now(), p) || !CsValid(Now(), p) {
        return;
      }
      match p.kind
      case RetrData => HandleRetransmittedData(p, ctsInSeq);
      case Data => HandleDataPacket(p, ctsInSeq);
      case RetrReq => HandleRetransmissionRequest(p);
      case RetrResp => HandleRetransmissionResponse(p);
      case DiscReq => state, attached := Closed, false;
      case Heartbeat => HandleHb(p, ctsInSeq);
    }

    method PopBatch(n: nat) returns (msgs: seq<M>)
      requires n <= |fifoSend|
      modifies this`fifoSend
      ensures msgs == old(fifoSend)[..n] && fifoSend == old(fifoSend)[n..]
    {
      msgs := [];
      for i := 0 to n
        invariant msgs == old(fifoSend)[..i] && fifoSend == old(fifoSend)[i..]
      {
        msgs := msgs + [fifoSend[0]];
        fifoSend := fifoSend[1..];
      }
    }

    /** One pass of the send thread over this connection. */
    method SendQueued()
      requires Valid()
      modifies this
      ensures Valid()
      ensures var o := SendStep(old(Now()), Wrapped);
              Now() == o.e && sent == old(sent) + o.out
    {
      if state == Closed || |fifoRetr| > cfg.maxPacket {
        return;
      }
      var msgQueue := |fifoSend|;
      if msgQueue > 0 {
        if msgQueue >= cfg.maxPacket {
          msgQueue := cfg.maxPacket;
        }
        var msgs := PopBatch(msgQueue);
        fifoRetr := Push(fifoRetr, Entry(snT, msgs), MAX_QUEUE_SIZE);
        SendPacket(Data, msgs);
      }
    }

    /** One pass of the heartbeat thread over this connection. */
    method Beat(expired: bool, due: bool)
      requires Valid()
      modifies this
      ensures Valid()
      ensures var o := HeartbeatStep(old(Now()), expired, due, Wrapped);
              Now() == o.e && sent == old(sent) + o.out
    {
      if state != Closed {
        if expired {
          CloseConnection();
        }
        if due {
          SendPacket(Heartbeat, []);
        }
      }
    }

    /** sr_get_received_data. */
    method GetReceivedData() returns (message: Option<M>)
      requires Valid()
      modifies this`fifoApp
      ensures Valid()
      ensures Fetched(Now(), message) == Fetch(old(Now()))
    {
      if fifoApp == [] {
        return None;
      }
      message := Some(fifoApp[0]);
      fifoApp := fifoApp[1..];
    }

    /** sr_send. */
    method SubmitMessages(msgs: seq<M>)
      requires Valid()
      modifies this
      ensures Valid()
      ensures var o := Submit(old(Now()), msgs);
              Now() == o.e && sent == old(sent) + o.out
    {
      if state == Up {
        if |msgs| > cfg.maxPacket {
          return;
        }
        for i := 0 to |msgs|
          invariant PushAll(fifoSend, msgs[i..], 2 * cfg.maxPacket) == PushAll(old(fifoSend), msgs, 2 * cfg.maxPacket)
          invariant Valid() && Now() == old(Now()).(send := fifoSend) && sent == old(sent)
        {
          fifoSend := Push(fifoSend, msgs[i], 2 * cfg.maxPacket);
          assert msgs[i..][1..] == msgs[i + 1..];
        }
      } else if state != Closed {
        if attached {
          sent := sent + [Packet(DiscReq, snT, csT, [])];
        }
        state := Closed;
      }
    }
  }
}
