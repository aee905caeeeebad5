/** Sender and receiver joined by a network that may lose, repeat, delay, reorder and corrupt:
    any packet ever sent can arrive at any time, any number of times, and so can packets that
    do not verify. Over this network the transfer is safe exactly when three rewrites and reads of
    ring slots find what they take for granted. */
module Network {
  import opened Checksum
  import opened Pdu
  import opened Ring
  import opened Segmentation
  import opened Transfer
  import opened Events
  import opened Channel
  import S = SenderMachine
  import SC = SenderContent
  import R = ReceiverMachine
  import RO = ReceiverOrder
  import RC = ReceiverContent

  datatype System = System(s: S.Sender, r: R.Receiver)

  datatype Action = ServerTurn(junk: byte) | ServerPoll(e: Event) | ClientPoll(e: Event) | ClientFlush

  ghost predicate Wf(sys: System) {
    sys.s.Wf() && sys.r.Wf()
  }

  /** What the server can find in its socket: a timeout, a packet the client sent, or garbage. */
  ghost predicate FromClient(sys: System, e: Event) {
    e.Arrive? ==> Sized(e) && (!Verifies(e.datagram) || exists c :: c in sys.r.sent && e.datagram == R.Wire(c))
  }

  /** The answer to the file name, sent before the transfer starts (server.c:247). */
  function Handshake(): seq<byte> {
    Sealed(0, FNAME_OK, [])
  }

  /** What the client can find: a timeout, a packet the server sent, the answer to the file name
      once more, or garbage. */
  ghost predicate FromServer(sys: System, e: Event) {
    e.Arrive? ==>
      Sized(e) && (!Verifies(e.datagram) || e.datagram in sys.s.sent || e.datagram == Handshake())
  }

  /** Acks too short to carry a number are never sent. */
  ghost predicate Possible(sys: System, a: Action) {
    match a
    case ServerTurn(_) => !S.Waiting(sys.s) && !S.Over(sys.s)
    case ServerPoll(e) => S.Waiting(sys.s) && S.SizedAck(e) && FromClient(sys, e)
    case ClientPoll(e) => (sys.r.phase == R.RecvData || sys.r.phase == R.Buffer) && FromServer(sys, e)
    case ClientFlush => sys.r.phase == R.Flush
  }

  function Do(sys: System, a: Action): (sys': System)
    requires Wf(sys) && Possible(sys, a)
    ensures Wf(sys') && sys'.s.ring.size == sys.s.ring.size
  {
    match a
    case ServerTurn(junk) => sys.(s := S.Inner(sys.s, junk))
    case ServerPoll(e) => sys.(s := S.Outer(sys.s, e))
    case ClientPoll(e) => sys.(r := R.Step(sys.r, e))
    case ClientFlush => sys.(r := R.FlushStep(sys.r))
  }

  /** The poll hands the server an SREJ that it answers. */
  predicate Answers(sys: System, e: Event) {
    && sys.s.phase == S.WaitOnAck && sys.s.retry < S.MAX_RETRANS
    && e.Arrive? && |e.datagram| >= HEADER_LEN + 4 && Verifies(e.datagram) && FlagOf(e.datagram) == SREJ
  }

  /** What the programs take for granted about a ring slot, tested on the slot before it is used:
      a timeout resends no end of file; the slot an SREJ is answered from holds no end of file and a
      packet as long as the one named; and the slots flush reads were stored for the numbers it
      reads, with the length of the short last packet noted. */
  ghost predicate Allowed(sys: System, job: Job, a: Action)
    requires Wf(sys) && Possible(sys, a)
  {
    match a
    case ServerTurn(_) =>
      sys.s.phase == S.TimeoutOnAck ==> SeqOf(sys.s.ring.At(sys.s.ring.lower).packet) != job.Eof()
    case ServerPoll(e) =>
      Answers(sys, e) ==> SC.RewriteOk(sys.s, job, ValueOf(e.datagram), sys.s.LenOf(ValueOf(e.datagram)))
    case ClientPoll(_) => true
    case ClientFlush => RC.FlushReadsOk(sys.r, job)
  }

  /** Nothing false has been sent or written: every packet the server sent is genuine, and write k
      of the client is chunk k, taken from packet k. */
  ghost predicate Honest(sys: System, job: Job) {
    && (forall k :: 0 <= k < |sys.s.sent| ==> Genuine(job, sys.s.sent[k]))
    && RC.Truthful(sys.r, job)
  }

  /** An RR never runs ahead of the receiver, and an SREJ names a data packet that was sent. */
  ghost predicate ControlOk(c: R.Control, expected: nat, current: nat) {
    && c.value < U32_LIMIT
    && (c.flag == RR ==> 1 <= c.value <= expected)
    && (c.flag == SREJ ==> 1 <= c.value && c.value + 1 < current)
  }

  ghost predicate ControlsOk(sent: seq<R.Control>, expected: nat, current: nat) {
    forall k :: 0 <= k < |sent| ==> ControlOk(sent[k], expected, current)
  }

  /** The invariant of the joined system. */
  ghost predicate Joined(sys: System, job: Job) {
    && SC.Sound(sys.s, job)
    && RC.Faithful(sys.r, job, sys.s.ring.current)
    && sys.s.ring.size == sys.r.ring.size
    && sys.s.ring.lower <= sys.r.expected
    && (job.EndsShort() ==> sys.s.ring.lower <= job.Count())
    && ControlsOk(sys.r.sent, sys.r.expected, sys.s.ring.current)
  }

  // ------------------------------------------------------------------- server steps

  lemma FaithfulLater(r: R.Receiver, job: Job, cap: nat, cap': nat)
    requires RC.Faithful(r, job, cap) && cap <= cap' <= job.Eof() + 1
    ensures RC.Faithful(r, job, cap')
  {
  }

  /** A server step that stays sound and within what the client expects keeps the system joined. */
  ghost predicate ServerMoves(sys: System, job: Job, s': S.Sender) {
    && SC.Sound(s', job)
    && s'.ring.size == sys.s.ring.size
    && s'.ring.current >= sys.s.ring.current
    && s'.ring.lower <= sys.r.expected
    && (job.EndsShort() ==> s'.ring.lower <= job.Count())
  }

  lemma AfterServer(sys: System, job: Job, s': S.Sender)
    requires Joined(sys, job) && ServerMoves(sys, job, s')
    ensures Joined(sys.(s := s'), job)
  {
    FaithfulLater(sys.r, job, sys.s.ring.current, s'.ring.current);
  }

  lemma SendDataMoves(sys: System, job: Job, junk: byte)
    requires Joined(sys, job) && sys.s.phase == S.SendData
    ensures ServerMoves(sys, job, S.SendDataStep(sys.s, junk))
  {
    SC.SendDataSound(sys.s, job, junk);
  }

  lemma TimeoutMoves(sys: System, job: Job)
    requires Joined(sys, job) && sys.s.phase == S.TimeoutOnAck
    ensures var ok := SeqOf(sys.s.ring.At(sys.s.ring.lower).packet) != job.Eof();
            && (ok ==> ServerMoves(sys, job, S.TimeoutStep(sys.s)))
            && (!ok ==> !Honest(sys.(s := S.TimeoutStep(sys.s)), job))
  {
    assert sys.s.ring.lower < sys.s.ring.current;
    SC.TimeoutGenuineIff(sys.s, job);
  }

  lemma EofSendMoves(sys: System, job: Job)
    requires Joined(sys, job) && sys.s.phase == S.WaitOnEofAck
    ensures ServerMoves(sys, job, S.EofSendStep(sys.s))
  {
    SC.EofSendSound(sys.s, job);
  }

  lemma ServerTurnMoves(sys: System, job: Job, junk: byte)
    requires Joined(sys, job) && Possible(sys, ServerTurn(junk))
    ensures Allowed(sys, job, ServerTurn(junk)) ==> ServerMoves(sys, job, S.Inner(sys.s, junk))
    ensures !Allowed(sys, job, ServerTurn(junk)) ==> !Honest(Do(sys, ServerTurn(junk)), job)
  {
    if sys.s.phase == S.SendData {
      SendDataMoves(sys, job, junk);
    } else if sys.s.phase == S.TimeoutOnAck {
      TimeoutMoves(sys, job);
    } else {
      EofSendMoves(sys, job);
    }
  }

  /** What an acknowledgement that verifies says. */
  lemma AckDecodes(sys: System, job: Job, d: seq<byte>)
    requires Joined(sys, job) && FromClient(sys, Arrive(d)) && Verifies(d)
    ensures |d| == HEADER_LEN + 4
    ensures FlagOf(d) == RR ==> 1 <= ValueOf(d) <= sys.r.expected
    ensures FlagOf(d) == SREJ ==> 1 <= ValueOf(d) <= sys.r.expected && ValueOf(d) + 1 < sys.s.ring.current
  {
    var c :| c in sys.r.sent && d == R.Wire(c);
    ControlDecodes(c.clientSeq, c.flag, c.value);
  }

  /** An RR for the whole of a short file always ends the data phase. */
  lemma ShortFileEnds(sys: System, job: Job)
    requires Joined(sys, job) && job.EndsShort() && sys.r.expected == job.Eof()
    ensures sys.s.finalSeq + 1 == job.Eof()
  {
  }

  lemma RrMoves(sys: System, job: Job, d: seq<byte>)
    requires Joined(sys, job) && sys.s.phase == S.WaitOnAck && sys.s.retry < S.MAX_RETRANS
    requires S.SizedAck(Arrive(d)) && Verifies(d) && FlagOf(d) == RR && 1 <= ValueOf(d) <= sys.r.expected
    ensures ServerMoves(sys, job, S.WaitOnAckStep(sys.s, Arrive(d)))
  {
    if job.EndsShort() && sys.r.expected == job.Eof() { ShortFileEnds(sys, job); }
    if ValueOf(d) != sys.s.finalSeq + 1 { SC.RrWindowIff(sys.s, job, d); }
  }

  lemma SrejMoves(sys: System, job: Job, srej: nat)
    requires Joined(sys, job) && sys.s.phase == S.WaitOnAck && 1 <= srej && srej + 1 < sys.s.ring.current
    ensures var s', ok := S.SrejStep(sys.s.(retry := 0), srej), SC.RewriteOk(sys.s, job, srej, sys.s.LenOf(srej));
            && (ok ==> ServerMoves(sys, job, s'))
            && (!ok ==> !Honest(sys.(s := s'), job))
  {
    var t := sys.s.(retry := 0);
    SC.StaysSound(sys.s, job, t);
    SC.SrejGenuineIff(t, job, srej);
  }

  lemma WaitOnAckMoves(sys: System, job: Job, e: Event)
    requires Joined(sys, job) && sys.s.phase == S.WaitOnAck && Possible(sys, ServerPoll(e))
    ensures Allowed(sys, job, ServerPoll(e)) ==> ServerMoves(sys, job, S.WaitOnAckStep(sys.s, e))
    ensures !Allowed(sys, job, ServerPoll(e)) ==> !Honest(Do(sys, ServerPoll(e)), job)
  {
    var acked := sys.s.retry < S.MAX_RETRANS && e.Arrive? && Verifies(e.datagram);
    if acked { AckDecodes(sys, job, e.datagram); }
    if acked && FlagOf(e.datagram) == SREJ {
      SrejMoves(sys, job, ValueOf(e.datagram));
    } else if acked && FlagOf(e.datagram) == RR {
      RrMoves(sys, job, e.datagram);
    } else {
      SC.OuterSteady(sys.s, e);
      SC.StaysSound(sys.s, job, S.WaitOnAckStep(sys.s, e));
    }
  }

  lemma ServerPollMoves(sys: System, job: Job, e: Event)
    requires Joined(sys, job) && Possible(sys, ServerPoll(e))
    ensures Allowed(sys, job, ServerPoll(e)) ==> ServerMoves(sys, job, S.Outer(sys.s, e))
    ensures !Allowed(sys, job, ServerPoll(e)) ==> !Honest(Do(sys, ServerPoll(e)), job)
  {
    if sys.s.phase == S.WaitOnAck { WaitOnAckMoves(sys, job, e); } else { EofPollMoves(sys, job, e); }
  }

  lemma EofPollMoves(sys: System, job: Job, e: Event)
    requires Joined(sys, job) && sys.s.phase == S.EofPoll && S.SizedAck(e)
    ensures ServerMoves(sys, job, S.EofPollStep(sys.s, e))
  {
    SC.OuterSteady(sys.s, e);
    SC.StaysSound(sys.s, job, S.EofPollStep(sys.s, e));
  }

  // ------------------------------------------------------------------- client steps

  lemma SayOk(r: R.Receiver, flag: byte, value: nat, current: nat)
    requires ControlsOk(r.sent, r.expected, current)
    requires ControlOk(R.Control(r.clientSeq, flag, value), r.expected, current)
    ensures ControlsOk(r.Say(flag, value).sent, r.expected, current)
  {
  }

  lemma ControlsLater(sent: seq<R.Control>, expected: nat, expected': nat, current: nat)
    requires ControlsOk(sent, expected, current) && expected <= expected'
    ensures ControlsOk(sent, expected', current)
  {
  }

  lemma RecvDataControls(r: R.Receiver, job: Job, cap: nat, d: seq<byte>)
    requires RC.Faithful(r, job, cap) && r.phase == R.RecvData && Sized(Arrive(d)) && Verifies(d)
    requires SeqOf(d) < cap && ControlsOk(r.sent, r.expected, cap)
    ensures var r' := R.RecvDataStep(r, Arrive(d)); ControlsOk(r'.sent, r'.expected, cap)
  {
    var s := SeqOf(d);
    if s == r.expected {
      ControlsLater(r.sent, s, s + 1, cap);
      if FlagOf(d) == END_OF_FILE {
        SayOk(r, EOF_ACK, s + 1, cap);
      } else {
        SayOk(r.(expected := s + 1), RR, s + 1, cap);
      }
    } else if s > r.expected {
      SayOk(r, SREJ, r.expected, cap);
    } else {
      SayOk(r, RR, s + 1, cap);
    }
  }

  lemma BufferControls(r: R.Receiver, job: Job, cap: nat, d: seq<byte>)
    requires RC.Faithful(r, job, cap) && r.phase == R.Buffer && Sized(Arrive(d)) && Verifies(d)
    requires SeqOf(d) < cap && ControlsOk(r.sent, r.expected, cap)
    ensures var r' := R.BufferStep(r, Arrive(d)); ControlsOk(r'.sent, r'.expected, cap)
  {
    var s := SeqOf(d);
    if s < r.expected {
      SayOk(r, SREJ, r.expected, cap);
      SayOk(r.Say(SREJ, r.expected), RR, s + 1, cap);
    } else {
      ControlsLater(r.sent, r.expected, r.expected + 1, cap);
    }
  }

  /** A flush whose reads are good acknowledges no more than is on disk. */
  lemma FlushControls(r: R.Receiver, job: Job, cap: nat)
    requires RC.Faithful(r, job, cap) && r.phase == R.Flush && ControlsOk(r.sent, r.expected, cap)
    requires RC.FlushReadsOk(r, job)
    ensures var r' := R.FlushStep(r); ControlsOk(r'.sent, r'.expected, cap)
  {
    FlushLoopControls(r, job, cap);
    RO.FlushLoopOrdered(r);
    RC.FlushLoopTruthfulIff(r, job, cap);
    var l := R.FlushLoop(r);
    if l.phase != R.Finished {
      var v := l.expected;
      SayOk(l, RR, v, cap);
      if v >= l.highest {
        SayOk(l.Say(RR, v), EOF_ACK, v, cap);
        ControlsLater(l.Say(RR, v).sent, v, v + 1, cap);
      } else {
        SayOk(l, SREJ, v, cap);
        SayOk(l.Say(SREJ, v), RR, v, cap);
      }
    }
  }

  lemma {:induction false} FlushLoopControls(r: R.Receiver, job: Job, cap: nat)
    requires RC.Faithful(r, job, cap) && r.phase == R.Flush && ControlsOk(r.sent, r.expected, cap)
    requires RC.LoopReadsOk(r, job)
    ensures var l := R.FlushLoop(r); ControlsOk(l.sent, l.expected, cap) && l.expected >= r.expected
    decreases r.highest - r.expected
  {
    if !r.ring.IsValid(r.expected) || r.expected >= r.highest {
    } else if r.expected == r.eofSeq {
      SayOk(r, EOF_ACK, r.expected, cap);
    } else {
      RC.WriteSlotFaithful(r, job, cap);
      ControlsLater(r.sent, r.expected, r.expected + 1, cap);
      FlushLoopControls(r.WriteSlot(), job, cap);
    }
  }

  /** The same for the client. */
  ghost predicate ClientMoves(sys: System, job: Job, r': R.Receiver) {
    && RC.Faithful(r', job, sys.s.ring.current)
    && r'.ring.size == sys.r.ring.size
    && r'.expected >= sys.r.expected
    && ControlsOk(r'.sent, r'.expected, sys.s.ring.current)
  }

  lemma AfterClient(sys: System, job: Job, r': R.Receiver)
    requires Joined(sys, job) && ClientMoves(sys, job, r')
    ensures Joined(sys.(r := r'), job)
  {
  }

  lemma StepGrows(r: R.Receiver, e: Event)
    requires r.Wf() && Sized(e) && (r.phase == R.RecvData || r.phase == R.Buffer)
    ensures R.Step(r, e).expected >= r.expected && R.Step(r, e).ring.size == r.ring.size
  {
  }

  lemma HandshakeIsGenuine(job: Job)
    ensures |Handshake()| == HEADER_LEN && Genuine(job, Handshake()) && SeqOf(Handshake()) == 0
  {
    SealedDecodes(0, FNAME_OK, []);
  }

  lemma ServerPacketIsGenuine(sys: System, job: Job, d: seq<byte>)
    requires Joined(sys, job) && FromServer(sys, Arrive(d)) && Verifies(d)
    ensures Genuine(job, d) && SeqOf(d) < sys.s.ring.current
  {
    HandshakeIsGenuine(job);
    if d in sys.s.sent { assert SC.OnTheWire(job, d, sys.s.ring.current); }
  }

  lemma ClientPollMoves(sys: System, job: Job, e: Event)
    requires Joined(sys, job) && Possible(sys, ClientPoll(e))
    ensures ClientMoves(sys, job, R.Step(sys.r, e))
  {
    var r, cap := sys.r, sys.s.ring.current;
    StepGrows(r, e);
    if e.Arrive? && Verifies(e.datagram) {
      var d := e.datagram;
      ServerPacketIsGenuine(sys, job, d);
      if r.phase == R.RecvData { RecvDataControls(r, job, cap, d); } else { BufferControls(r, job, cap, d); }
    }
    RC.EventFaithful(r, job, cap, e);
  }

  lemma ClientFlushMoves(sys: System, job: Job)
    requires Joined(sys, job) && sys.r.phase == R.Flush
    ensures RC.FlushReadsOk(sys.r, job) ==> ClientMoves(sys, job, R.FlushStep(sys.r))
    ensures !RC.FlushReadsOk(sys.r, job) ==> !Honest(Do(sys, ClientFlush), job)
  {
    RC.FlushTruthfulIff(sys.r, job, sys.s.ring.current);
    FlushKeepsSize(sys.r);
    if RC.FlushReadsOk(sys.r, job) { FlushControls(sys.r, job, sys.s.ring.current); }
  }

  lemma {:induction false} FlushKeepsSize(r: R.Receiver)
    requires r.Wf()
    ensures R.FlushLoop(r).ring.size == r.ring.size && R.FlushLoop(r).expected >= r.expected
    decreases r.highest - r.expected
  {
    if !(!r.ring.IsValid(r.expected) || r.expected >= r.highest) && r.expected != r.eofSeq {
      FlushKeepsSize(r.WriteSlot());
    }
  }

  // ------------------------------------------------------------------- runs

  /** Each step: an allowed one keeps the joint invariant, any other makes something false. */
  lemma StepJoinedIff(sys: System, job: Job, a: Action)
    requires Joined(sys, job) && Possible(sys, a)
    ensures Allowed(sys, job, a) ==> Joined(Do(sys, a), job)
    ensures !Allowed(sys, job, a) ==> !Honest(Do(sys, a), job)
  {
    match a {
      case ServerTurn(junk) =>
        ServerTurnMoves(sys, job, junk);
        if Allowed(sys, job, a) { AfterServer(sys, job, S.Inner(sys.s, junk)); }
      case ServerPoll(e) =>
        ServerPollMoves(sys, job, e);
        if Allowed(sys, job, a) { AfterServer(sys, job, S.Outer(sys.s, e)); }
      case ClientPoll(e) =>
        ClientPollMoves(sys, job, e);
        AfterClient(sys, job, R.Step(sys.r, e));
      case ClientFlush =>
        ClientFlushMoves(sys, job);
        if Allowed(sys, job, a) { AfterClient(sys, job, R.FlushStep(sys.r)); }
    }
  }

  /** A run of the two programs over the network, whatever the network does. */
  ghost predicate PossibleRun(sys: System, actions: seq<Action>)
    requires Wf(sys)
    decreases |actions|
  {
    actions != [] ==> Possible(sys, actions[0]) && PossibleRun(Do(sys, actions[0]), actions[1..])
  }

  ghost function Run(sys: System, actions: seq<Action>): (sys': System)
    requires Wf(sys) && PossibleRun(sys, actions)
    ensures Wf(sys')
    decreases |actions|
  {
    if actions == [] then sys else Run(Do(sys, actions[0]), actions[1..])
  }

  ghost predicate AllowedRun(sys: System, job: Job, actions: seq<Action>)
    requires Wf(sys) && PossibleRun(sys, actions)
    decreases |actions|
  {
    actions != [] ==> Allowed(sys, job, actions[0]) && AllowedRun(Do(sys, actions[0]), job, actions[1..])
  }

  /** Nothing sent or written is ever taken back. */
  lemma {:induction false} RunGrows(sys: System, actions: seq<Action>)
    requires Wf(sys) && RO.Ordered(sys.r) && PossibleRun(sys, actions)
    ensures var sys' := Run(sys, actions);
            && sys.s.sent <= sys'.s.sent && RO.Ordered(sys'.r)
            && sys.r.writes <= sys'.r.writes && sys.r.sources <= sys'.r.sources
    decreases |actions|
  {
    if actions != [] {
      ActionGrows(sys, actions[0]);
      RunGrows(Do(sys, actions[0]), actions[1..]);
    }
  }

  lemma ActionGrows(sys: System, a: Action)
    requires Wf(sys) && RO.Ordered(sys.r) && Possible(sys, a)
    ensures var sys' := Do(sys, a);
            && sys.s.sent <= sys'.s.sent && RO.Ordered(sys'.r)
            && sys.r.writes <= sys'.r.writes && sys.r.sources <= sys'.r.sources
  {
    match a
    case ServerTurn(_) =>
    case ServerPoll(_) =>
    case ClientPoll(e) => RO.StepOrdered(sys.r, e);
    case ClientFlush => RO.FlushOrdered(sys.r);
  }

  /** What was false once is false for good. */
  lemma NeverHonestAgain(sys: System, job: Job, actions: seq<Action>)
    requires Wf(sys) && RO.Ordered(sys.r) && PossibleRun(sys, actions) && !Honest(sys, job)
    ensures !Honest(Run(sys, actions), job)
  {
    var sys' := Run(sys, actions);
    RunGrows(sys, actions);
    if Honest(sys', job) {
      RC.NeverMended(sys.r, sys'.r, job);
      forall k | 0 <= k < |sys.s.sent| ensures Genuine(job, sys.s.sent[k]) { assert sys'.s.sent[k] == sys.s.sent[k]; }
      assert false;
    }
  }

  lemma {:induction false} RunJoinedIff(sys: System, job: Job, actions: seq<Action>)
    requires Joined(sys, job) && PossibleRun(sys, actions)
    ensures AllowedRun(sys, job, actions) ==> Joined(Run(sys, actions), job)
    ensures !AllowedRun(sys, job, actions) ==> !Honest(Run(sys, actions), job)
    decreases |actions|
  {
    if actions != [] {
      StepJoinedIff(sys, job, actions[0]);
      if Allowed(sys, job, actions[0]) {
        RunJoinedIff(Do(sys, actions[0]), job, actions[1..]);
      } else {
        ActionGrows(sys, actions[0]);
        NeverHonestAgain(Do(sys, actions[0]), job, actions[1..]);
      }
    }
  }

  function Initial(file: seq<byte>, size: nat, bufSize: nat, clientSeq: nat): (sys: System)
    requires size >= 1 && 1 <= bufSize <= MAX_PDU - HEADER_LEN
    ensures Wf(sys)
  {
    System(S.Start(file, size, bufSize), R.Start(size, bufSize, clientSeq))
  }

  lemma InitialJoined(file: seq<byte>, size: nat, bufSize: nat, clientSeq: nat)
    requires size >= 1 && 1 <= bufSize <= MAX_PDU - HEADER_LEN && Job(Split(file, bufSize), bufSize).Wf()
    ensures Joined(Initial(file, size, bufSize, clientSeq), Job(Split(file, bufSize), bufSize))
  {
    SC.StartSound(file, size, bufSize);
    RC.StartFaithful(Job(Split(file, bufSize), bufSize), size, clientSeq, 1);
  }

  lemma JoinedIsHonest(sys: System, job: Job)
    requires Joined(sys, job)
    ensures Honest(sys, job)
  {
    assert forall k :: 0 <= k < |sys.s.sent| ==> SC.OnTheWire(job, sys.s.sent[k], sys.s.ring.current);
  }

  /** What the joined invariant means for the two files. */
  ghost predicate Safe(sys: System, job: Job, file: seq<byte>) {
    && Flatten(sys.r.writes) <= file
    && (sys.r.phase == R.Finished ==> Flatten(sys.r.writes) == file)
    && Honest(sys, job)
    && sys.s.ring.lower <= sys.r.expected <= sys.s.ring.current
  }

  lemma JoinedIsSafe(sys: System, file: seq<byte>, bufSize: nat)
    requires bufSize >= 1 && Joined(sys, Job(Split(file, bufSize), bufSize))
    ensures Safe(sys, Job(Split(file, bufSize), bufSize), file)
  {
    var job := Job(Split(file, bufSize), bufSize);
    JoinedIsHonest(sys, job);
    RC.FaithfulIsPrefix(sys.r, file, bufSize, sys.s.ring.current);
  }

  /** End-to-end safety over the whole system, exactly: over every run of the two programs,
      whatever the network loses, repeats, delays, reorders or corrupts, every packet the server
      sent is genuine and every write of the client is the right chunk from the right packet if and
      only if no rewrite or read of a slot in the run went wrong. Then the client's file is a prefix
      of the server's, equal to it once the client reports a finished transmission. */
  lemma EndToEndSafety(file: seq<byte>, size: nat, bufSize: nat, clientSeq: nat, actions: seq<Action>)
    requires size >= 1 && 1 <= bufSize <= MAX_PDU - HEADER_LEN && Job(Split(file, bufSize), bufSize).Wf()
    requires PossibleRun(Initial(file, size, bufSize, clientSeq), actions)
    ensures var job, sys := Job(Split(file, bufSize), bufSize), Initial(file, size, bufSize, clientSeq);
            && (Honest(Run(sys, actions), job) <==> AllowedRun(sys, job, actions))
            && (AllowedRun(sys, job, actions) ==> Safe(Run(sys, actions), job, file))
  {
    var job, sys := Job(Split(file, bufSize), bufSize), Initial(file, size, bufSize, clientSeq);
    InitialJoined(file, size, bufSize, clientSeq);
    RunJoinedIff(sys, job, actions);
    if AllowedRun(sys, job, actions) { JoinedIsSafe(Run(sys, actions), file, bufSize); }
  }

  // ------------------------------------------------------------------- the client alone

  /** What the client accepts at this step is genuine, whatever else the server has sent. */
  ghost predicate Fed(job: Job, a: Action) {
    a.ClientPoll? ==> RC.GenuineEvent(job, a.e)
  }

  ghost predicate AllFed(job: Job, actions: seq<Action>) {
    forall i :: 0 <= i < |actions| ==> Fed(job, actions[i])
  }

  /** Every read of every flush in the run is as it should be. */
  ghost predicate ReadsOkRun(sys: System, job: Job, actions: seq<Action>)
    requires Wf(sys) && PossibleRun(sys, actions)
    decreases |actions|
  {
    actions != [] ==>
      && (actions[0].ClientFlush? ==> RC.FlushReadsOk(sys.r, job))
      && ReadsOkRun(Do(sys, actions[0]), job, actions[1..])
  }

  lemma FalseForGood(sys: System, job: Job, actions: seq<Action>)
    requires Wf(sys) && RO.Ordered(sys.r) && PossibleRun(sys, actions) && !RC.Truthful(sys.r, job)
    ensures !RC.Truthful(Run(sys, actions).r, job)
  {
    RunGrows(sys, actions);
    if RC.Truthful(Run(sys, actions).r, job) {
      RC.NeverMended(sys.r, Run(sys, actions).r, job);
      assert false;
    }
  }

  lemma FedStep(sys: System, job: Job, a: Action)
    requires Wf(sys) && RC.Faithful(sys.r, job, job.Eof() + 1) && Possible(sys, a) && Fed(job, a)
    ensures var r', ok := Do(sys, a).r, a.ClientFlush? ==> RC.FlushReadsOk(sys.r, job);
            && RO.Ordered(r')
            && (RC.Truthful(r', job) <==> ok)
            && (ok ==> RC.Faithful(r', job, job.Eof() + 1))
  {
    ActionGrows(sys, a);
    match a
    case ClientPoll(e) => RC.EventFaithful(sys.r, job, job.Eof() + 1, e);
    case ClientFlush => RC.FlushTruthfulIff(sys.r, job, job.Eof() + 1);
    case _ =>
  }

  lemma {:induction false} FedRunIff(sys: System, job: Job, actions: seq<Action>)
    requires Wf(sys) && RC.Faithful(sys.r, job, job.Eof() + 1) && PossibleRun(sys, actions) && AllFed(job, actions)
    ensures RC.Truthful(Run(sys, actions).r, job) <==> ReadsOkRun(sys, job, actions)
    ensures ReadsOkRun(sys, job, actions) ==> RC.Faithful(Run(sys, actions).r, job, job.Eof() + 1)
    decreases |actions|
  {
    if actions != [] {
      FedStep(sys, job, actions[0]);
      if actions[0].ClientFlush? && !RC.FlushReadsOk(sys.r, job) {
        FalseForGood(Do(sys, actions[0]), job, actions[1..]);
      } else {
        FedRunIff(Do(sys, actions[0]), job, actions[1..]);
      }
    }
  }

  /** A false packet of the server harms nobody unless the client accepts it: over every run in
      which it accepts none, its writes are right if and only if its reads are good, and then its
      file is a prefix of the server's, all of it when finished. */
  lemma ClientSafety(file: seq<byte>, size: nat, bufSize: nat, clientSeq: nat, actions: seq<Action>)
    requires size >= 1 && 1 <= bufSize <= MAX_PDU - HEADER_LEN && Job(Split(file, bufSize), bufSize).Wf()
    requires PossibleRun(Initial(file, size, bufSize, clientSeq), actions)
    requires AllFed(Job(Split(file, bufSize), bufSize), actions)
    ensures var job, sys := Job(Split(file, bufSize), bufSize), Initial(file, size, bufSize, clientSeq);
            var r := Run(sys, actions).r;
            && (RC.Truthful(r, job) <==> ReadsOkRun(sys, job, actions))
            && (RC.Truthful(r, job) ==>
                  Flatten(r.writes) <= file && (r.phase == R.Finished ==> Flatten(r.writes) == file))
  {
    var job, sys := Job(Split(file, bufSize), bufSize), Initial(file, size, bufSize, clientSeq);
    RC.StartFaithful(job, size, clientSeq, job.Eof() + 1);
    FedRunIff(sys, job, actions);
    if RC.Truthful(Run(sys, actions).r, job) {
      RC.FaithfulIsPrefix(Run(sys, actions).r, file, bufSize, job.Eof() + 1);
    }
  }

  // ------------------------------------------------------------------- the windows

  /** No RR older than current - size slides the window. */
  ghost predicate Recent(sys: System, a: Action) {
    a.ServerPoll? && sys.s.phase == S.WaitOnAck && a.e.Arrive? && |a.e.datagram| >= HEADER_LEN + 4
    && Verifies(a.e.datagram) && FlagOf(a.e.datagram) == RR && ValueOf(a.e.datagram) != sys.s.finalSeq + 1
    ==> sys.s.ring.current <= ValueOf(a.e.datagram) + sys.s.ring.size
  }

  ghost predicate RecentRun(sys: System, actions: seq<Action>)
    requires Wf(sys) && PossibleRun(sys, actions)
    decreases |actions|
  {
    actions != [] ==> Recent(sys, actions[0]) && RecentRun(Do(sys, actions[0]), actions[1..])
  }

  lemma TurnInWindow(s: S.Sender, junk: byte)
    requires s.Wf() && !S.Waiting(s) && SC.InWindow(s.ring)
    ensures SC.InWindow(S.Inner(s, junk).ring)
  {
    if s.phase == S.SendData { SC.SendDataInWindow(s, junk); }
  }

  lemma PollInWindow(s: S.Sender, e: Event)
    requires s.Wf() && S.Waiting(s) && S.SizedAck(e) && SC.InWindow(s.ring)
    requires s.phase == S.WaitOnAck && e.Arrive? && Verifies(e.datagram) && FlagOf(e.datagram) == RR
             && ValueOf(e.datagram) != s.finalSeq + 1 ==>
               1 <= ValueOf(e.datagram) <= s.ring.current <= ValueOf(e.datagram) + s.ring.size
    ensures SC.InWindow(S.Outer(s, e).ring)
  {
  }

  lemma StepInWindow(sys: System, job: Job, a: Action)
    requires Joined(sys, job) && SC.InWindow(sys.s.ring) && Possible(sys, a) && Recent(sys, a)
    ensures SC.InWindow(Do(sys, a).s.ring)
  {
    match a {
      case ServerTurn(junk) => TurnInWindow(sys.s, junk);
      case ServerPoll(e) =>
        if e.Arrive? && Verifies(e.datagram) { AckDecodes(sys, job, e.datagram); }
        PollInWindow(sys.s, e);
      case _ =>
    }
  }

  lemma {:induction false} RunInWindow(sys: System, job: Job, actions: seq<Action>)
    requires Joined(sys, job) && SC.InWindow(sys.s.ring)
    requires PossibleRun(sys, actions) && AllowedRun(sys, job, actions) && RecentRun(sys, actions)
    ensures SC.InWindow(Run(sys, actions).s.ring) && Joined(Run(sys, actions), job)
    decreases |actions|
  {
    if actions != [] {
      StepJoinedIff(sys, job, actions[0]);
      StepInWindow(sys, job, actions[0]);
      RunInWindow(Do(sys, actions[0]), job, actions[1..]);
    }
  }

  /** The two windows overlap in every allowed run without an old RR: the client expects a packet
      between the server's bounds, of which `size` at most are outstanding. */
  lemma WindowsOverlap(file: seq<byte>, size: nat, bufSize: nat, clientSeq: nat, actions: seq<Action>)
    requires size >= 1 && 1 <= bufSize <= MAX_PDU - HEADER_LEN && Job(Split(file, bufSize), bufSize).Wf()
    requires var job, sys := Job(Split(file, bufSize), bufSize), Initial(file, size, bufSize, clientSeq);
             PossibleRun(sys, actions) && AllowedRun(sys, job, actions) && RecentRun(sys, actions)
    ensures var sys := Run(Initial(file, size, bufSize, clientSeq), actions);
            sys.s.ring.lower <= sys.r.expected <= sys.s.ring.current <= sys.s.ring.lower + sys.s.ring.size
  {
    InitialJoined(file, size, bufSize, clientSeq);
    RunInWindow(Initial(file, size, bufSize, clientSeq), Job(Split(file, bufSize), bufSize), actions);
  }

  /** With the window in order, a file that ends in a short packet never has its end of file resent
      by a timeout. */
  lemma ShortFilesNeverResendEof(sys: System, job: Job, junk: byte)
    requires Joined(sys, job) && SC.InWindow(sys.s.ring) && job.EndsShort() && sys.s.phase == S.TimeoutOnAck
    ensures Possible(sys, ServerTurn(junk)) && Allowed(sys, job, ServerTurn(junk))
  {
    var t := SC.Occupant(sys.s, job, sys.s.ring.lower);
  }

  // ------------------------------------------------------------------- the channel

  /** Corruption equals loss, joined to the network: whatever the channel makes of a packet the
      server sent, the network of this module can deliver. */
  lemma DeliveredFromServer(sys: System, job: Job, standard: seq<MsgEvent>, random: seq<MsgEvent>,
                            k: nat, msgNo: nat, draw: Draw)
    requires Joined(sys, job) && k < |sys.s.sent|
    requires DrawFits(draw, standard, random, sys.s.sent[k]) && NoFlips(standard)
    ensures var f := Fate(standard, random, sys.s.sent[k], msgNo, draw);
            f.Sent? ==> FromServer(sys, Arrive(f.bytes))
  {
    assert SC.OnTheWire(job, sys.s.sent[k], sys.s.ring.current);
    AcceptedIsUnmodified(standard, random, sys.s.sent[k], msgNo, draw);
  }

  /** And of one the client sent. */
  lemma DeliveredFromClient(sys: System, standard: seq<MsgEvent>, random: seq<MsgEvent>,
                            k: nat, msgNo: nat, draw: Draw)
    requires k < |sys.r.sent|
    requires DrawFits(draw, standard, random, R.Wire(sys.r.sent[k])) && NoFlips(standard)
    ensures var f := Fate(standard, random, R.Wire(sys.r.sent[k]), msgNo, draw);
            f.Sent? ==> FromClient(sys, Arrive(f.bytes)) && S.SizedAck(Arrive(f.bytes))
  {
    var c := sys.r.sent[k];
    SealVerifies(U32(c.clientSeq) + [0, 0, c.flag] + U32(c.value));
    AcceptedIsUnmodified(standard, random, R.Wire(c), msgNo, draw);
    assert c in sys.r.sent;
  }
}
