/** The receiver of rcopy.c as a state machine on values: one step per call of recv_data,
    buffer or flush. The class in Rcopy.dfy runs the same steps in place. */
module ReceiverMachine {
  import opened Checksum
  import opened Pdu
  import opened Ring
  import opened Events

  datatype Phase = RecvData | Buffer | Flush | TimedOut | Finished

  /** An RR, SREJ or EOF_ACK the receiver sent: its own sequence number and the number it names. */
  datatype Control = Control(clientSeq: nat, flag: byte, value: nat)

  function Wire(c: Control): seq<byte> {
    Sealed(c.clientSeq, c.flag, U32(c.value))
  }

  datatype Receiver = Receiver(
    phase: Phase,
    expected: nat,
    highest: nat,
    ring: Ring,
    dataLen: nat,
    finalLen: nat,
    finalSeq: nat,
    eofSeq: nat,
    clientSeq: nat,
    writes: seq<seq<byte>>,  // the data of each write call, oldest first
    sources: seq<nat>,       // the number of the packet each write took its data from
    sent: seq<Control>)      // every control packet sent, oldest first
  {
    ghost predicate Wf() {
      && ring.Wf()
      && expected >= 1
      && HEADER_LEN <= dataLen <= MAX_PDU
      && (finalSeq > 0 ==> HEADER_LEN <= finalLen <= MAX_PDU)
    }

    /** rcopy.c:443-458, 513-520: how long the packet in the slot of `s` is taken to be. */
    function LenOf(s: nat): nat {
      if s == finalSeq then finalLen else dataLen
    }

    /** rcopy.c:210-227, 348-360. */
    function Note(d: seq<byte>): Receiver
      requires |d| >= HEADER_LEN
    {
      if FlagOf(d) == DATA then
        if |d| != dataLen then this.(finalLen := |d|, finalSeq := SeqOf(d)) else this
      else if FlagOf(d) == END_OF_FILE then this.(eofSeq := SeqOf(d))
      else this
    }

    function Say(flag: byte, value: nat): Receiver {
      this.(sent := sent + [Control(clientSeq, flag, value)])
    }

    /** Writes the packet in the slot of `expected`, whatever it is, frees the slot and advances. */
    function WriteSlot(): (r: Receiver)
      requires Wf()
      ensures r.Wf()
    {
      this.(writes := writes + [ring.At(expected).packet[HEADER_LEN..LenOf(expected)]],
            sources := sources + [ring.At(expected).seqNum],
            ring := ring.Remove(expected),
            expected := expected + 1)
    }
  }

  /** rcopy.c:183-299. */
  function RecvDataStep(r: Receiver, e: Event): (r': Receiver)
    requires r.Wf() && Sized(e)
    ensures r'.Wf()
  {
    match e
    case Timeout => r.(phase := TimedOut)
    case Arrive(d) =>
      if !Verifies(d) then r
      else
        var s, n := SeqOf(d), r.Note(d);
        if s == r.expected then
          if FlagOf(d) == END_OF_FILE then n.Say(EOF_ACK, s + 1).(phase := Finished)
          else
            n.Say(RR, s + 1).(writes := n.writes + [d[HEADER_LEN..]],
                              sources := n.sources + [s],
                              highest := r.expected,
                              expected := r.expected + 1,
                              clientSeq := r.clientSeq + 1)
        else if s > r.expected then
          n.Say(SREJ, r.expected).(ring := r.ring.Add(s, d),
                                   highest := s,
                                   clientSeq := r.clientSeq + 1,
                                   phase := Buffer)
        else
          n.Say(RR, s + 1).(clientSeq := r.clientSeq + 1)
  }

  /** rcopy.c:301-413. */
  function BufferStep(r: Receiver, e: Event): (r': Receiver)
    requires r.Wf() && Sized(e)
    ensures r'.Wf()
  {
    match e
    case Timeout => r.(phase := TimedOut)
    case Arrive(d) =>
      if !Verifies(d) then r
      else
        var s := SeqOf(d);
        if s < r.expected then
          r.Say(SREJ, r.expected).Say(RR, s + 1).(phase := RecvData)
        else
          var n := r.Note(d);
          if s == r.expected then
            n.(writes := n.writes + [d[HEADER_LEN..]],
               sources := n.sources + [s],
               ring := r.ring.Remove(s),
               expected := r.expected + 1,
               phase := Flush)
          else
            n.(ring := r.ring.Add(s, d), highest := s)
  }

  /** The loop of flush, rcopy.c:427-489. */
  function FlushLoop(r: Receiver): (r': Receiver)
    requires r.Wf()
    ensures r'.Wf()
    decreases r.highest - r.expected
  {
    if !r.ring.IsValid(r.expected) || r.expected >= r.highest then r
    else if r.expected == r.eofSeq then r.Say(EOF_ACK, r.expected).(phase := Finished)
    else FlushLoop(r.WriteSlot())
  }

  /** What flush does after its loop, rcopy.c:493-567. */
  function FlushTail(r: Receiver): (r': Receiver)
    requires r.Wf()
    ensures r'.Wf()
  {
    if r.expected >= r.highest then
      if r.expected == r.eofSeq then
        r.Say(RR, r.expected).Say(EOF_ACK, r.expected).(phase := Finished)
      else
        r.Say(RR, r.expected).WriteSlot().(phase := RecvData)
    else if !r.ring.IsValid(r.expected) then
      r.Say(SREJ, r.expected).Say(RR, r.expected).(phase := Buffer)
    else r.(phase := Buffer)
  }

  function FlushStep(r: Receiver): (r': Receiver)
    requires r.Wf()
    ensures r'.Wf()
  {
    var l := FlushLoop(r);
    if l.phase == Finished then l else FlushTail(l)
  }

  /** One turn of the loop of processFile in a state that waits for a datagram. */
  function Step(r: Receiver, e: Event): (r': Receiver)
    requires r.Wf() && Sized(e)
    ensures r'.Wf()
  {
    match r.phase
    case RecvData => RecvDataStep(r, e)
    case Buffer => BufferStep(r, e)
    case Flush => FlushStep(r)
    case _ => r
  }

  /** rcopy.c:142-180 from the moment file_ok has created the window; FLUSH reads no datagram. */
  ghost function Run(r: Receiver, events: seq<Event>): Receiver
    requires r.Wf() && AllSized(events)
    requires r.phase != Flush
    decreases |events|
  {
    if events == [] then r
    else
      Run(Settle(Step(r, events[0])), events[1..])
  }

  /** Runs a pending flush. */
  function Settle(r: Receiver): (r': Receiver)
    requires r.Wf()
    ensures r'.Wf() && r'.phase != Flush
  {
    if r.phase == Flush then FlushStep(r) else r
  }

  /** The state file_ok leaves behind (rcopy.c:127-139, 91, 572-588). */
  function Start(size: nat, bufSize: nat, clientSeq: nat): (r: Receiver)
    requires size >= 1 && bufSize <= MAX_PDU - HEADER_LEN
    ensures r.Wf()
  {
    Receiver(RecvData, 1, 1, Created(size), HEADER_LEN + bufSize, 0, 0, 0, clientSeq, [], [], [])
  }
}
