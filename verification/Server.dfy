/** The sender of server.c with its fields updated in place. Each state function is proved
    equal to the step of SenderMachine, whose properties are proved there. */
module Server {
  import opened Checksum
  import opened Pdu
  import opened Ring
  import opened Window
  import opened Segmentation
  import opened Events
  import opened SenderMachine
  import opened SenderContent
  import opened SenderTermination
  import opened SenderAnswers

  class ServerChild {
    var state: Phase
    const window: Window
    var seqNum: nat
    var finished: bool
    const bufSize: nat
    var finalPacketLen: nat
    var finalPacketSeq: nat
    var lastSeqNum: nat
    var eofLen: nat
    var retryCount: nat
    var eofRetryCount: nat
    var dataFile: seq<byte>     // what read has not returned yet
    var outbox: seq<seq<byte>>  // the packets handed to the network
    var inbox: seq<Event>       // what the polls to come will yield; nothing, once it is empty
    const junk: byte            // the uninitialised byte in the buffer of send_data

    ghost function Abs(): Sender
      reads this, window, window.windowBuffer
    {
      Sender(state, window.Abs(), seqNum, finished, bufSize, finalPacketLen, finalPacketSeq, lastSeqNum, eofLen,
             retryCount, eofRetryCount, dataFile, outbox)
    }

    ghost predicate Valid()
      reads this, window, window.windowBuffer
    {
      Abs().Wf()
    }

    /** server.c:105-121 and filename, 209-256, for a file that exists. */
    constructor (file: seq<byte>, windowSize: nat, bufSize: nat, inbox: seq<Event>, junk: byte)
      requires windowSize >= 1 && 1 <= bufSize <= MAX_PDU - HEADER_LEN
      ensures Valid() && Abs() == Start(file, windowSize, bufSize) && this.inbox == inbox && this.junk == junk
      ensures fresh(window) && fresh(window.windowBuffer)
    {
      state := SendData;
      window := new Window(windowSize);
      seqNum := 1;
      finished := false;
      this.bufSize := bufSize;
      finalPacketLen, finalPacketSeq, lastSeqNum, eofLen := 0, 0, 0, 0;
      retryCount, eofRetryCount := 0, 0;
      dataFile := file;
      outbox := [];
      this.inbox := inbox;
      this.junk := junk;
    }

    /** Builds a packet; the send of send_buf is Transmit. */
    method Build(flag: byte, payload: seq<byte>) returns (packet: seq<byte>)
      requires |payload| <= MAX_PDU - HEADER_LEN
      ensures packet == Sealed(seqNum, flag, payload)
    {
      var buffer := new byte[MAX_PDU];
      var packetLen := CreatePdu(buffer, seqNum, flag, payload);
      packet := buffer[..packetLen];
    }

    /** safeSendto; sendto_Err exits on an empty packet (PacketManager.cpp:365-369). */
    method Transmit(packet: seq<byte>)
      requires Valid()
      modifies this`outbox, this`state
      ensures Valid() && Abs() == old(Abs()).Transmit(packet)
    {
      if packet == [] {
        state := Aborted;
      } else {
        outbox := outbox + [packet];
      }
    }

    /** pollCall followed by recv_buf. */
    method Poll() returns (e: Event)
      requires AllSizedAcks(inbox)
      modifies this`inbox
      ensures SizedAck(e) && AllSizedAcks(inbox)
      ensures e == NextEvent(old(inbox)) && inbox == Later(old(inbox))
    {
      if inbox == [] {
        return Timeout;
      }
      e := inbox[0];
      inbox := inbox[1..];
    }

    /** Puts a new packet into the window, server.c:283-284 and 307-308. */
    method Store(packet: seq<byte>)
      requires Valid() && |packet| <= MAX_PDU
      modifies window, window.windowBuffer
      ensures Valid() && Abs() == old(Abs()).WithRing(old(window.Abs()).Add(seqNum, packet).CurUpdate())
    {
      window.Add(seqNum, packet);
      window.CurUpdate();
    }

    /** server.c:279-294. */
    method SendEndOfFile()
      requires Valid() && state == SendData && !window.Abs().Full() && ReadLen(dataFile, bufSize) == 0
      modifies this, window, window.windowBuffer
      ensures Valid() && Abs() == SendDataStep(old(Abs()), junk) && inbox == old(inbox)
    {
      if !finished {
        var packet := Build(END_OF_FILE, [junk]);
        Transmit(packet);
        Store(packet);
        lastSeqNum := seqNum;
        eofLen := |packet|;
        finished := true;
      }
      state := WaitOnAck;
    }

    /** server.c:295-316. */
    method SendChunk(lenRead: nat)
      requires Valid() && state == SendData && !window.Abs().Full() && lenRead == ReadLen(dataFile, bufSize) > 0
      modifies this, window, window.windowBuffer
      ensures Valid() && Abs() == SendDataStep(old(Abs()), junk) && inbox == old(inbox)
    {
      var packet := Build(DATA, dataFile[..lenRead]);
      dataFile := dataFile[lenRead..];
      Transmit(packet);
      KeepChunk(packet);
    }

    /** server.c:300-314. */
    method KeepChunk(packet: seq<byte>)
      requires Valid() && HEADER_LEN <= |packet| <= MAX_PDU && state == SendData
      modifies this, window, window.windowBuffer
      ensures Valid() && inbox == old(inbox)
      ensures var noted := if |packet| == HEADER_LEN + bufSize then old(Abs())
                           else old(Abs()).(finalLen := |packet|, finalSeq := old(seqNum));
              Abs() == noted.(ring := old(window.Abs()).Add(old(seqNum), packet).CurUpdate(), seqNum := old(seqNum) + 1)
    {
      if |packet| != HEADER_LEN + bufSize {
        finalPacketLen := |packet|;
        finalPacketSeq := seqNum;
      }
      Store(packet);
      seqNum := seqNum + 1;
      state := SendData;
    }

    /** server.c:258-319. */
    method SendDataState()
      requires Valid() && state == SendData
      modifies this, window, window.windowBuffer
      ensures Valid() && Abs() == SendDataStep(old(Abs()), junk) && inbox == old(inbox)
    {
      var full := window.Full();
      if full {
        state := WaitOnAck;
        return;
      }
      var lenRead := ReadLen(dataFile, bufSize);
      if lenRead == 0 {
        SendEndOfFile();
      } else {
        SendChunk(lenRead);
      }
    }

    /** Rewrites the slot of `at` in place: flag, cleared checksum, new checksum over `len` bytes
        (server.c:184-190 and 413-431). */
    method RewriteStored(at: nat, flag: byte, len: nat) returns (packet: seq<byte>)
      requires Valid() && len <= MAX_PDU
      modifies window.windowBuffer
      ensures packet == Rewritten(old(window.Abs()).At(at).packet, flag, len)
      ensures Valid() && Abs() == old(Abs()).WithRing(old(window.Abs()).Rewrite(at, packet))
    {
      packet := window.GetPacket(at);
      packet := packet[6 := flag];
      packet := packet[4 := 0][5 := 0];
      var checksum := InCksum(packet[..len]);
      packet := packet[4 := checksum % 0x100][5 := checksum / 0x100];
      window.Rewrite(at, packet);
    }

    /** server.c:164-199. */
    method TimeoutOnAckState()
      requires Valid() && state == TimeoutOnAck
      modifies this, window.windowBuffer
      ensures Valid() && Abs() == TimeoutStep(old(Abs())) && inbox == old(inbox)
    {
      var retransmission := window.GetLower();
      var stored := ToU32(retransmission[..4]);
      var newPacketLen := HEADER_LEN + bufSize;
      if stored == finalPacketSeq {
        newPacketLen := finalPacketLen;
      }
      var packet := RewriteStored(window.lower, DATA_TIMEOUT, newPacketLen);
      state := WaitOnAck;
      Transmit(packet[..newPacketLen]);
    }

    /** server.c:401-448. */
    method SendSrej(srejSeq: nat)
      requires Valid()
      modifies this, window.windowBuffer
      ensures Valid() && Abs() == SrejStep(old(Abs()), srejSeq) && inbox == old(inbox)
    {
      var packetLen := HEADER_LEN + bufSize;
      if srejSeq == finalPacketSeq {
        packetLen := finalPacketLen;
      }
      var packet := RewriteStored(srejSeq, SREJ_RETRAN, packetLen);
      state := SendData;
      if srejSeq == seqNum {
        return;
      }
      Transmit(packet[..packetLen]);
    }

    /** server.c:376-392. */
    method Acknowledged(rrSeq: nat)
      requires Valid()
      modifies this, window, window.windowBuffer
      ensures Valid() && inbox == old(inbox)
      ensures Abs() == if rrSeq == old(finalPacketSeq) + 1 then old(Abs()).(phase := WaitOnEofAck)
                       else old(Abs()).(phase := SendData, ring := old(window.Abs()).Slide(rrSeq).Remove(rrSeq))
    {
      if rrSeq == finalPacketSeq + 1 {
        state := WaitOnEofAck;
        return;
      }
      window.Slide(rrSeq);
      window.Remove(rrSeq);
      state := SendData;
    }

    /** server.c:321-399; the retry counting is that of processSelect, 541-598. */
    method WaitOnAckState()
      requires Valid() && state == WaitOnAck && AllSizedAcks(inbox)
      modifies this, window, window.windowBuffer
      ensures Valid() && AllSizedAcks(inbox)
      ensures Abs() == WaitOnAckStep(old(Abs()), NextEvent(old(inbox)))
      ensures old(retryCount) < MAX_RETRANS && NextEvent(old(inbox)).Arrive? ==> retryCount == 0
      ensures old(retryCount) < MAX_RETRANS && NextEvent(old(inbox)).Timeout? ==>
                retryCount == old(retryCount) + 1 && state == TimeoutOnAck
      ensures state != Done ==> inbox == Later(old(inbox))
    {
      retryCount := retryCount + 1;
      if retryCount > MAX_RETRANS {
        state := Done;
        return;
      }
      var e := Poll();
      match e {
        case Timeout =>
          state := TimeoutOnAck;
        case Arrive(buf) =>
          retryCount := 0;
          TakeDatagram(buf);
      }
    }

    /** What wait_on_ack does with a datagram, server.c:337-392. */
    method TakeDatagram(buf: seq<byte>)
      requires Valid() && state == WaitOnAck && retryCount == 0 && SizedAck(Arrive(buf))
      modifies this, window, window.windowBuffer
      ensures Valid() && inbox == old(inbox) && retryCount == 0
      ensures Abs() == WaitOnAckStep(old(Abs()), Arrive(buf))
    {
      var cksum := InCksum(buf);
      if cksum != 0 {
        return;
      }
      var flag := FlagOf(buf);
      if flag == SREJ {
        SendSrej(ValueOf(buf));
      } else if flag == RR {
        Acknowledged(ValueOf(buf));
      } else {
        state := Done;
      }
    }

    /** One round of the loop of wait_on_eof_ack after its send, server.c:472-490. */
    method PollForEofAck()
      requires Valid() && state == EofPoll && AllSizedAcks(inbox)
      modifies this`state, this`eofRetryCount, this`inbox
      ensures Valid() && AllSizedAcks(inbox)
      ensures Abs() == EofPollStep(old(Abs()), NextEvent(old(inbox)))
      ensures inbox == Later(old(inbox))
    {
      state := WaitOnEofAck;
      var e := Poll();
      match e {
        case Timeout =>
          eofRetryCount := eofRetryCount + 1;
        case Arrive(buf) =>
          var cksum := InCksum(buf);
          if cksum != 0 {
            eofRetryCount := eofRetryCount + 1;
          } else if FlagOf(buf) == EOF_ACK {
            state := Done;
          }
      }
    }

    /** The start of a round, server.c:464-470. */
    method SendEofCopy()
      requires Valid() && state == WaitOnEofAck
      modifies this`state, this`outbox
      ensures Valid() && Abs() == EofSendStep(old(Abs()))
    {
      if eofRetryCount > MAX_RETRANS - 1 {
        state := GaveUp;
        return;
      }
      var eofPacket := window.GetPacket(lastSeqNum);
      state := EofPoll;
      Transmit(eofPacket[..eofLen]);
    }

    /** One round of that loop: the send and, unless the process has ended, the poll. */
    method EofRound()
      requires Valid() && Steady(Abs()) && state == WaitOnEofAck && AllSizedAcks(inbox)
      modifies this
      ensures Valid() && Steady(Abs()) && AllSizedAcks(inbox)
      ensures state == WaitOnEofAck || Over(Abs())
      ensures ServerRun(Abs(), inbox, junk) == ServerRun(old(Abs()), old(inbox), junk)
      ensures Over(Abs()) || |inbox| < |old(inbox)| || (inbox == old(inbox) && eofRetryCount > old(eofRetryCount))
    {
      RunInner(Abs(), inbox, junk);
      SendEofCopy();
      if state == EofPoll {
        RunOuter(Abs(), inbox, junk);
        PollForEofAck();
      }
    }

    /** server.c:450-494. It ends with the EOF_ACK or with the process, and well exactly when an
        EOF_ACK comes before its tries are used up; a copy goes out in every round. */
    method WaitOnEofAckState()
      requires Valid() && Steady(Abs()) && state == WaitOnEofAck && AllSizedAcks(inbox)
      modifies this
      ensures Valid() && Steady(Abs()) && Over(Abs()) && AllSizedAcks(inbox)
      ensures ServerRun(Abs(), inbox, junk) == ServerRun(old(Abs()), old(inbox), junk)
      ensures old(eofLen) > 0 ==>
                && (state == Done <==> Answered(old(inbox), MAX_RETRANS - old(eofRetryCount)))
                && |outbox| == |old(outbox)| + Copies(old(inbox), MAX_RETRANS - old(eofRetryCount))
    {
      if eofLen > 0 { EofLoopExact(Abs(), inbox, junk); }
      while state == WaitOnEofAck
        invariant Valid() && Steady(Abs()) && AllSizedAcks(inbox)
        invariant state == WaitOnEofAck || Over(Abs())
        invariant ServerRun(Abs(), inbox, junk) == ServerRun(old(Abs()), old(inbox), junk)
        decreases state == WaitOnEofAck, |inbox|, MAX_RETRANS + 1 - eofRetryCount
      {
        EofRound();
      }
    }

    /** The states of process_client other than WAIT_ON_EOF_ACK, server.c:135-149. */
    method Turn()
      requires Valid() && Steady(Abs()) && AllSizedAcks(inbox)
      requires state == SendData || state == WaitOnAck || state == TimeoutOnAck
      modifies this, window, window.windowBuffer
      ensures Valid() && Steady(Abs()) && AllSizedAcks(inbox) && state != EofPoll
      ensures Over(Abs()) || Closer(old(Abs()), old(inbox), Abs(), inbox)
      ensures ServerRun(Abs(), inbox, junk) == ServerRun(old(Abs()), old(inbox), junk)
    {
      if state == WaitOnAck {
        RunOuter(Abs(), inbox, junk);
        WaitOnAckState();
      } else {
        RunInner(Abs(), inbox, junk);
        if state == SendData {
          SendDataState();
        } else {
          TimeoutOnAckState();
        }
      }
    }

    /** server.c:105-160: on every finite inbox the loop terminates, with the run of the machine
        and no more packets sent than its budget. */
    method ProcessClient()
      requires Valid() && Steady(Abs()) && AllSizedAcks(inbox) && state == SendData
      modifies this, window, window.windowBuffer
      ensures Valid() && Over(Abs())
      ensures Abs() == ServerRun(old(Abs()), old(inbox), junk)
      ensures |outbox| <= |old(outbox)| + Budget(old(Abs()), |old(inbox)|)
    {
      ServerTerminates(Abs(), inbox, junk);
      while state != Done && state != GaveUp && state != Aborted
        invariant Valid() && Steady(Abs()) && AllSizedAcks(inbox) && state != EofPoll
        invariant ServerRun(Abs(), inbox, junk) == ServerRun(old(Abs()), old(inbox), junk)
        decreases !Over(Abs()), |inbox|, Left(Abs()), Patience(Abs()), Rank(Abs())
      {
        if state == WaitOnEofAck {
          WaitOnEofAckState();
        } else {
          Turn();
        }
      }
    }
  }
}
