/** The sender of server.c as a state machine on values: one step per call of send_data,
    wait_on_ack or timeout_on_ack, and per send and poll of wait_on_eof_ack. The class in
    Server.dfy runs the same steps in place. */
module SenderMachine {
  import opened Checksum
  import opened Pdu
  import opened Ring
  import opened Segmentation
  import opened Events

  const MAX_RETRANS := 10

  /** EofPoll is the wait inside the loop of wait_on_eof_ack. GaveUp is its exit after ten
      tries, Aborted the exit of the send routine on an empty packet. */
  datatype Phase = SendData | WaitOnAck | TimeoutOnAck | WaitOnEofAck | EofPoll | Done | GaveUp | Aborted

  datatype Sender = Sender(
    phase: Phase,
    ring: Ring,
    seqNum: nat,
    finished: bool,
    bufSize: nat,
    finalLen: nat,
    finalSeq: nat,
    lastSeq: nat,
    eofLen: nat,
    retry: nat,     // static in wait_on_ack
    eofRetry: nat,  // static in wait_on_eof_ack
    rest: seq<byte>,       // what read has not returned yet
    sent: seq<seq<byte>>)  // every packet sent, oldest first
  {
    ghost predicate Wf() {
      && ring.Wf()
      && 1 <= bufSize <= MAX_PDU - HEADER_LEN
      && seqNum >= 1
      && (finalSeq > 0 ==> HEADER_LEN <= finalLen <= MAX_PDU)
      && (finalSeq == 0 ==> finalLen == 0)
      && eofLen <= MAX_PDU
    }

    function DataLen(): nat { HEADER_LEN + bufSize }

    /** server.c:175-181 and 418-424. */
    function LenOf(s: nat): nat {
      if s == finalSeq then finalLen else DataLen()
    }

    /** Hands a packet to the network; an empty one ends the process. */
    function Transmit(packet: seq<byte>): Sender {
      if packet == [] then this.(phase := Aborted) else this.(sent := sent + [packet])
    }

    function WithRing(w: Ring): Sender {
      this.(ring := w)
    }
  }

  /** The stored bytes `p` after the flag is overwritten and the checksum recomputed over the
      first `len` of them. */
  function Rewritten(p: seq<byte>, flag: byte, len: nat): (q: seq<byte>)
    requires |p| == MAX_PDU && len <= MAX_PDU
    ensures |q| == MAX_PDU
  {
    var cleared := PutChecksum(p[6 := flag], 0);
    PutChecksum(cleared, Cksum(cleared[..len]))
  }

  /** server.c:258-319. `junk` is the uninitialised byte the end-of-file packet carries. */
  function SendDataStep(s: Sender, junk: byte): (s': Sender)
    requires s.Wf()
    ensures s'.Wf() && s'.ring.size == s.ring.size
  {
    var k := ReadLen(s.rest, s.bufSize);
    if s.ring.Full() then s.(phase := WaitOnAck)
    else if k == 0 then
      if s.finished then s.(phase := WaitOnAck)
      else
        var packet := Sealed(s.seqNum, END_OF_FILE, [junk]);
        s.(sent := s.sent + [packet],
           ring := s.ring.Add(s.seqNum, packet).CurUpdate(),
           lastSeq := s.seqNum,
           eofLen := |packet|,
           finished := true,
           phase := WaitOnAck)
    else
      var packet := Sealed(s.seqNum, DATA, s.rest[..k]);
      var noted := if |packet| != s.DataLen() then s.(finalLen := |packet|, finalSeq := s.seqNum) else s;
      noted.(sent := s.sent + [packet],
             ring := s.ring.Add(s.seqNum, packet).CurUpdate(),
             seqNum := s.seqNum + 1,
             rest := s.rest[k..],
             phase := SendData)
  }

  /** server.c:164-199: resends whatever sits in the slot of `lower`. */
  function TimeoutStep(s: Sender): (s': Sender)
    requires s.Wf()
    ensures s'.Wf() && s'.ring.size == s.ring.size
  {
    var p := s.ring.At(s.ring.lower).packet;
    var len := s.LenOf(SeqOf(p));
    var q := Rewritten(p, DATA_TIMEOUT, len);
    s.(phase := WaitOnAck).WithRing(s.ring.Rewrite(s.ring.lower, q)).Transmit(q[..len])
  }

  /** server.c:401-448; the caller goes on in SEND_DATA either way. */
  function SrejStep(s: Sender, srej: nat): (s': Sender)
    requires s.Wf()
    ensures s'.Wf() && s'.ring.size == s.ring.size
  {
    var len := s.LenOf(srej);
    var q := Rewritten(s.ring.At(srej).packet, SREJ_RETRAN, len);
    var t := s.(phase := SendData).WithRing(s.ring.Rewrite(srej, q));
    if srej == s.seqNum then t else t.Transmit(q[..len])
  }

  /** RR and SREJ packets carry a sequence number. */
  predicate SizedAck(e: Event) {
    && Sized(e)
    && (e.Arrive? && (FlagOf(e.datagram) == RR || FlagOf(e.datagram) == SREJ) ==> |e.datagram| >= HEADER_LEN + 4)
  }

  /** server.c:321-399 with processSelect, 541-598. */
  function WaitOnAckStep(s: Sender, e: Event): (s': Sender)
    requires s.Wf() && SizedAck(e)
    ensures s'.Wf() && s'.ring.size == s.ring.size
  {
    if s.retry + 1 > MAX_RETRANS then s.(retry := s.retry + 1, phase := Done)
    else
      match e
      case Timeout => s.(retry := s.retry + 1, phase := TimeoutOnAck)
      case Arrive(d) =>
        var t := s.(retry := 0);
        if !Verifies(d) then t.(phase := WaitOnAck)
        else if FlagOf(d) == SREJ then SrejStep(t, ValueOf(d))
        else if FlagOf(d) != RR then t.(phase := Done)
        else if ValueOf(d) == s.finalSeq + 1 then t.(phase := WaitOnEofAck)
        else t.(ring := s.ring.Slide(ValueOf(d)).Remove(ValueOf(d)), phase := SendData)
  }

  /** The top of the loop of wait_on_eof_ack, server.c:464-470. */
  function EofSendStep(s: Sender): (s': Sender)
    requires s.Wf()
    ensures s'.Wf() && s'.ring.size == s.ring.size
  {
    if s.eofRetry > MAX_RETRANS - 1 then s.(phase := GaveUp)
    else s.(phase := EofPoll).Transmit(s.ring.At(s.lastSeq).packet[..s.eofLen])
  }

  /** The poll in that loop, server.c:472-490. */
  function EofPollStep(s: Sender, e: Event): (s': Sender)
    requires s.Wf() && Sized(e)
    ensures s'.Wf() && s'.ring.size == s.ring.size
  {
    match e
    case Timeout => s.(eofRetry := s.eofRetry + 1, phase := WaitOnEofAck)
    case Arrive(d) =>
      if !Verifies(d) then s.(eofRetry := s.eofRetry + 1, phase := WaitOnEofAck)
      else if FlagOf(d) == EOF_ACK then s.(phase := Done)
      else s.(phase := WaitOnEofAck)
  }

  predicate Over(s: Sender) {
    s.phase == Done || s.phase == GaveUp || s.phase == Aborted
  }

  /** The states that wait for a datagram. */
  predicate Waiting(s: Sender) {
    s.phase == WaitOnAck || s.phase == EofPoll
  }

  /** A turn of process_client that reads no datagram. */
  function Inner(s: Sender, junk: byte): (s': Sender)
    requires s.Wf() && !Waiting(s)
    ensures s'.Wf() && s'.ring.size == s.ring.size
  {
    match s.phase
    case SendData => SendDataStep(s, junk)
    case TimeoutOnAck => TimeoutStep(s)
    case WaitOnEofAck => EofSendStep(s)
    case _ => s
  }

  /** A turn that does. */
  function Outer(s: Sender, e: Event): (s': Sender)
    requires s.Wf() && Waiting(s) && SizedAck(e)
    ensures s'.Wf() && s'.ring.size == s.ring.size
  {
    if s.phase == WaitOnAck then WaitOnAckStep(s, e) else EofPollStep(s, e)
  }

  /** The state filename leaves behind for a file that exists (server.c:105-121, 209-256). */
  function Start(file: seq<byte>, size: nat, bufSize: nat): (s: Sender)
    requires size >= 1 && 1 <= bufSize <= MAX_PDU - HEADER_LEN
    ensures s.Wf()
  {
    Sender(SendData, Created(size), 1, false, bufSize, 0, 0, 0, 0, 0, 0, file, [])
  }
}
