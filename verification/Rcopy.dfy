/** The receiver of rcopy.c with its fields updated in place. Each state function is proved
    equal to the step of ReceiverMachine, whose properties are proved there. */
module Rcopy {
  import opened Checksum
  import opened Pdu
  import opened Ring
  import opened Window
  import opened Events
  import opened ReceiverMachine
  import opened ReceiverOrder
  import opened ReceiverAnswers
  import opened ReceiverContent
  import opened Segmentation
  import opened Transfer

  class RcopyClient {
    var state: Phase
    var expected: nat
    var highest: nat
    const window: Window
    var dataPacketLen: nat
    var finalPacketLen: nat
    var finalPacketSeq: nat
    var eofSeq: nat
    var clientSeqNum: nat
    var disk: seq<seq<byte>>    // the data of each write call
    var outbox: seq<seq<byte>>  // the packets handed to the network
    ghost var sources: seq<nat> // the packet each write took its data from
    ghost var log: seq<Control> // what those packets say

    ghost function Abs(): Receiver
      reads this, window, window.windowBuffer
    {
      Receiver(state, expected, highest, window.Abs(), dataPacketLen, finalPacketLen, finalPacketSeq,
               eofSeq, clientSeqNum, disk, sources, log)
    }

    ghost predicate Valid()
      reads this, window, window.windowBuffer
    {
      && Abs().Wf()
      && |outbox| == |log|
      && forall k :: 0 <= k < |log| ==> outbox[k] == Wire(log[k])
    }

    /** rcopy.c:127-139, 91 and file_ok, 572-588. */
    constructor (windowSize: nat, bufferSize: nat, clientSeq: nat)
      requires windowSize >= 1 && bufferSize <= MAX_PDU - HEADER_LEN
      ensures Valid() && Abs() == Start(windowSize, bufferSize, clientSeq) && outbox == []
    {
      state := RecvData;
      expected := 1;
      highest := 1;
      window := new Window(windowSize);
      dataPacketLen := HEADER_LEN + bufferSize;
      finalPacketLen := 0;
      finalPacketSeq := 0;
      eofSeq := 0;
      clientSeqNum := clientSeq;
      disk := [];
      sources := [];
      outbox := [];
      log := [];
    }

    /** pdu.c:183-193, with a sequence number as payload. */
    method SendBuf(value: nat, flag: byte)
      requires Valid()
      modifies this`outbox, this`log
      ensures Valid() && Abs() == old(Abs()).Say(flag, value)
      ensures outbox == old(outbox) + [Wire(Control(clientSeqNum, flag, value))]
    {
      var packet := new byte[MAX_PDU];
      var packetLen := CreatePdu(packet, clientSeqNum, flag, U32(value));
      outbox := outbox + [packet[..packetLen]];
      log := log + [Control(clientSeqNum, flag, value)];
    }

    /** Appends to the file; `source` records the packet the data came from. */
    method Write(data: seq<byte>, ghost source: nat)
      requires Valid()
      modifies this`disk, this`sources
      ensures Valid()
      ensures Abs() == old(Abs()).(writes := old(disk) + [data], sources := old(sources) + [source])
    {
      disk := disk + [data];
      sources := sources + [source];
    }

    /** rcopy.c:210-227 and 348-360. */
    method NoteLengths(d: seq<byte>, flag: byte, seqNum: nat)
      requires Valid() && HEADER_LEN <= |d| <= MAX_PDU && flag == FlagOf(d) && seqNum == SeqOf(d)
      modifies this`finalPacketLen, this`finalPacketSeq, this`eofSeq
      ensures Valid() && Abs() == old(Abs()).Note(d)
    {
      if flag == DATA {
        if |d| != dataPacketLen {
          finalPacketLen := |d|;
          finalPacketSeq := seqNum;
        }
      } else if flag == END_OF_FILE {
        eofSeq := seqNum;
      }
    }

    /** recv_buf followed by the checksum test, rcopy.c:201-207 and 321-328. A datagram longer than
        the buffer is cut; of one without a full header the flag and the number are whatever the
        buffer held. */
    method Receive(datagram: seq<byte>) returns (accepted: bool, data: seq<byte>, flag: byte, seqNum: nat)
      ensures data == if |datagram| <= MAX_PDU then datagram else datagram[..MAX_PDU]
      ensures accepted == Verifies(data)
      ensures |data| >= HEADER_LEN ==> flag == FlagOf(data) && seqNum == SeqOf(data)
    {
      var dataBuf := new byte[MAX_PDU];
      var dataLen;
      dataLen, flag, seqNum := RecvBuf(dataBuf, datagram);
      data := dataBuf[..dataLen];
      assert data == datagram[..dataLen];
      var cksum := InCksum(data);
      accepted := cksum == 0;
    }

    /** The in-order branch of recv_data, rcopy.c:231-265. */
    method RecvInOrder(d: seq<byte>, flag: byte)
      requires Valid() && HEADER_LEN <= |d| <= MAX_PDU && flag == FlagOf(d)
      modifies this, window, window.windowBuffer
      ensures Valid()
      ensures Abs() == if flag == END_OF_FILE then old(Abs()).Say(EOF_ACK, old(expected) + 1).(phase := Finished)
                       else old(Abs()).Say(RR, old(expected) + 1).(
                              writes := old(disk) + [d[HEADER_LEN..]], sources := old(sources) + [old(expected)],
                              highest := old(expected),
                              expected := old(expected) + 1, clientSeq := old(clientSeqNum) + 1)
    {
      if flag == END_OF_FILE {
        SendBuf(expected + 1, EOF_ACK);
        state := Finished;
        return;
      }
      SendBuf(expected + 1, RR);
      Write(d[HEADER_LEN..], expected);
      highest := expected;
      expected := expected + 1;
      clientSeqNum := clientSeqNum + 1;
    }

    /** The out-of-order branch of recv_data, rcopy.c:268-289. */
    method RecvAhead(d: seq<byte>, seqNum: nat)
      requires Valid() && HEADER_LEN <= |d| <= MAX_PDU
      modifies this, window, window.windowBuffer
      ensures Valid()
      ensures Abs() == old(Abs()).Say(SREJ, old(expected)).(ring := old(window.Abs()).Add(seqNum, d),
                         highest := seqNum, clientSeq := old(clientSeqNum) + 1, phase := Buffer)
    {
      SendBuf(expected, SREJ);
      window.Add(seqNum, d);
      highest := seqNum;
      clientSeqNum := clientSeqNum + 1;
      state := Buffer;
    }

    /** The last branch of recv_data, rcopy.c:291-295. */
    method RecvOld(seqNum: nat)
      requires Valid()
      modifies this
      ensures Valid() && Abs() == old(Abs()).Say(RR, seqNum + 1).(clientSeq := old(clientSeqNum) + 1)
    {
      SendBuf(seqNum + 1, RR);
      clientSeqNum := clientSeqNum + 1;
    }

    /** rcopy.c:183-299. */
    method RecvDataState(e: Event)
      requires Valid() && Sized(e) && state == RecvData
      modifies this, window, window.windowBuffer
      ensures Valid() && Abs() == RecvDataStep(old(Abs()), e)
      ensures Rejected(e) ==> Abs() == old(Abs())
    {
      match e {
        case Timeout =>
          state := TimedOut;
        case Arrive(datagram) =>
          var accepted, d, flag, seqNum := Receive(datagram);
          if !accepted {
            return;
          }
          NoteLengths(d, flag, seqNum);
          if seqNum == expected {
            RecvInOrder(d, flag);
          } else if seqNum > expected {
            RecvAhead(d, seqNum);
          } else {
            RecvOld(seqNum);
          }
      }
    }

    /** The branch of buffer for an old packet, rcopy.c:331-344. */
    method BufferOld(seqNum: nat)
      requires Valid()
      modifies this
      ensures Valid() && Abs() == old(Abs()).Say(SREJ, old(expected)).Say(RR, seqNum + 1).(phase := RecvData)
    {
      SendBuf(expected, SREJ);
      SendBuf(seqNum + 1, RR);
      state := RecvData;
    }

    /** The out-of-order branch of buffer, rcopy.c:394-410. */
    method BufferAhead(d: seq<byte>, seqNum: nat)
      requires Valid() && HEADER_LEN <= |d| <= MAX_PDU
      modifies this, window.windowBuffer
      ensures Valid() && Abs() == old(Abs()).(ring := old(window.Abs()).Add(seqNum, d), highest := seqNum)
    {
      window.Add(seqNum, d);
      highest := seqNum;
    }

    /** The in-order branch of buffer, rcopy.c:364-391. */
    method BufferInOrder(d: seq<byte>)
      requires Valid() && HEADER_LEN <= |d| <= MAX_PDU
      modifies this, window.windowBuffer
      ensures Valid()
      ensures Abs() == old(Abs()).(writes := old(disk) + [d[HEADER_LEN..]], sources := old(sources) + [old(expected)],
                         ring := old(window.Abs()).Remove(old(expected)), expected := old(expected) + 1, phase := Flush)
    {
      Write(d[HEADER_LEN..], expected);
      window.Remove(expected);
      expected := expected + 1;
      state := Flush;
    }

    /** rcopy.c:301-413. */
    method BufferState(e: Event)
      requires Valid() && Sized(e) && state == Buffer
      modifies this, window, window.windowBuffer
      ensures Valid() && Abs() == BufferStep(old(Abs()), e)
      ensures Rejected(e) ==> Abs() == old(Abs())
    {
      match e {
        case Timeout =>
          state := TimedOut;
        case Arrive(datagram) =>
          var accepted, d, flag, seqNum := Receive(datagram);
          if !accepted {
            return;
          }
          if seqNum < expected {
            BufferOld(seqNum);
            return;
          }
          NoteLengths(d, flag, seqNum);
          if seqNum == expected {
            BufferInOrder(d);
          } else {
            BufferAhead(d, seqNum);
          }
      }
    }

    /** rcopy.c:438-467 and 513-542: writes the packet in the slot of `expected`. */
    method WriteFromWindow()
      requires Valid()
      modifies this`disk, this`sources, this`expected, window.windowBuffer
      ensures Valid() && Abs() == old(Abs()).WriteSlot()
    {
      var packet := window.GetPacket(expected);
      var packetLen := dataPacketLen;
      if expected == finalPacketSeq {
        packetLen := finalPacketLen;
      }
      Write(packet[HEADER_LEN..packetLen], window.Abs().At(expected).seqNum);
      window.Remove(expected);
      expected := expected + 1;
    }

    /** The loop of flush, rcopy.c:427-489. */
    method FlushSlots()
      requires Valid() && state == Flush
      modifies this, window.windowBuffer
      ensures Valid() && Abs() == FlushLoop(old(Abs()))
    {
      var valid := window.IsValid(expected);
      while valid
        invariant Valid() && state == Flush && valid == window.Abs().IsValid(expected)
        invariant FlushLoop(Abs()) == FlushLoop(old(Abs()))
        decreases highest - expected, valid
      {
        if expected >= highest {
          break;
        }
        if expected == eofSeq {
          SendBuf(expected, EOF_ACK);
          state := Finished;
          return;
        }
        WriteFromWindow();
        valid := window.IsValid(expected);
      }
    }

    /** What flush does after its loop, rcopy.c:493-567. */
    method LeaveFlush()
      requires Valid()
      modifies this, window.windowBuffer
      ensures Valid() && Abs() == FlushTail(old(Abs()))
    {
      if expected >= highest {
        SendBuf(expected, RR);
        if expected == eofSeq {
          SendBuf(expected, EOF_ACK);
          state := Finished;
        } else {
          WriteFromWindow();
          state := RecvData;
        }
      } else {
        var valid := window.IsValid(expected);
        if !valid {
          SendBuf(expected, SREJ);
          SendBuf(expected, RR);
        }
        state := Buffer;
      }
    }

    /** rcopy.c:415-569. Back in BUFFER, the last two packets sent ask for the hole and acknowledge
        what comes before it. */
    method FlushState()
      requires Valid() && state == Flush
      modifies this, window.windowBuffer
      ensures Valid() && Abs() == FlushStep(old(Abs()))
      ensures old(Ordered(Abs())) && state == Buffer ==>
                Adds(old(Abs()), Abs(), [(SREJ, expected), (RR, expected)])
    {
      ghost var r0 := Abs();
      FlushInPlace();
      if Ordered(r0) { FlushAnswers(r0); }
    }

    /** The loop of flush and what follows it. */
    method FlushInPlace()
      requires Valid() && state == Flush
      modifies this, window.windowBuffer
      ensures Valid() && Abs() == FlushStep(old(Abs()))
    {
      FlushSlots();
      if state != Finished {
        LeaveFlush();
      }
    }

    /** The states that wait for a datagram, rcopy.c:164-170. */
    method Turn(e: Event)
      requires Valid() && Sized(e) && (state == RecvData || state == Buffer)
      modifies this, window, window.windowBuffer
      ensures Valid() && Abs() == Step(old(Abs()), e)
    {
      if state == RecvData {
        RecvDataState(e);
      } else {
        BufferState(e);
      }
    }

    /** rcopy.c:142-180 on a given sequence of datagrams and timeouts. What is on disk grows, with
        one write per packet expected so far, and is a prefix of the file after a good run. */
    method ProcessFile(events: seq<Event>, ghost file: seq<byte>, ghost bufferSize: nat)
      requires Valid() && AllSized(events) && state != Flush
      modifies this, window, window.windowBuffer
      ensures Valid() && Abs() == Run(old(Abs()), events)
      ensures old(Ordered(Abs())) ==> Ordered(Abs()) && old(disk) <= disk && |disk| == expected - 1
      ensures bufferSize >= 1 && GoodRun(old(Abs()), Job(Split(file, bufferSize), bufferSize), events) ==>
                Flatten(disk) <= file && (state == Finished ==> Flatten(disk) == file)
    {
      ghost var r0 := Abs();
      StateLoop(events);
      RunKeepsPromise(r0, events, file, bufferSize);
    }

    /** One turn of the loop of processFile, rcopy.c:163-174. */
    method NextState(events: seq<Event>, next: nat) returns (taken: nat)
      requires Valid() && AllSized(events) && next <= |events| && state != TimedOut && state != Finished
      requires next < |events| || state == Flush
      modifies this, window, window.windowBuffer
      ensures Valid()
      ensures if old(state) == Flush then taken == next && state != Flush else taken == next + 1 <= |events|
      ensures Run(Settle(Abs()), events[taken..]) == Run(Settle(old(Abs())), events[next..])
    {
      if state == Flush {
        FlushState();
        return next;
      }
      RunUnfolds(Abs(), events, next);
      Turn(events[next]);
      return next + 1;
    }

    /** The loop of processFile. */
    method StateLoop(events: seq<Event>)
      requires Valid() && AllSized(events) && state != Flush
      modifies this, window, window.windowBuffer
      ensures Valid() && Abs() == Run(old(Abs()), events)
    {
      var next := 0;
      while state != TimedOut && state != Finished && (next < |events| || state == Flush)
        invariant Valid() && 0 <= next <= |events|
        invariant Run(Settle(Abs()), events[next..]) == Run(old(Abs()), events)
        decreases |events| - next, state == Flush
      {
        next := NextState(events, next);
      }
      DoneIsFinal(Abs(), events[next..]);
    }
  }

  lemma RunUnfolds(r: Receiver, events: seq<Event>, next: nat)
    requires r.Wf() && AllSized(events) && r.phase != Flush && next < |events|
    ensures Sized(events[next])
    ensures Run(r, events[next..]) == Run(Settle(Step(r, events[next])), events[next + 1..])
  {
    assert events[next..][0] == events[next] && events[next..][1..] == events[next + 1..];
  }

  lemma RunKeepsPromise(r: Receiver, events: seq<Event>, file: seq<byte>, bufSize: nat)
    requires r.Wf() && r.phase != Flush && AllSized(events)
    ensures var r' := Run(r, events);
            && (Ordered(r) ==> Ordered(r') && r.writes <= r'.writes && |r'.writes| == r'.expected - 1)
            && (bufSize >= 1 && GoodRun(r, Job(Split(file, bufSize), bufSize), events) ==>
                  Flatten(r'.writes) <= file && (r'.phase == Finished ==> Flatten(r'.writes) == file))
  {
    if Ordered(r) { EveryTraceOrdered(r, events); }
    if bufSize >= 1 && GoodRun(r, Job(Split(file, bufSize), bufSize), events) {
      GoodRunIsPrefix(r, file, bufSize, events);
    }
  }

  /** A receiver that has exited ignores what still arrives. */
  lemma {:induction false} DoneIsFinal(r: Receiver, events: seq<Event>)
    requires r.Wf() && AllSized(events) && r.phase != Flush
    requires r.phase == TimedOut || r.phase == Finished || events == []
    ensures Run(r, events) == r
    decreases |events|
  {
    if events != [] { DoneIsFinal(r, events[1..]); }
  }
}
