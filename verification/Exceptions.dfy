/** The cases the safety theorem excludes, each reached by a run of the two programs from the start,
    and what becomes of the client's file; and two acknowledgements that come at the wrong time. */
module Exceptions {
  import opened Checksum
  import opened Pdu
  import opened Ring
  import opened Segmentation
  import opened Transfer
  import opened Events
  import opened Network
  import opened Reaching
  import S = SenderMachine
  import SC = SenderContent
  import ST = SenderTermination
  import R = ReceiverMachine
  import RO = ReceiverOrder
  import RC = ReceiverContent

  // ------------------------------------------------------------------- an old RR

  /** Everything up to packet k-1 sent, received and acknowledged, through a window of one. */
  ghost predicate InStep(sys: System, k: nat) {
    && sys.s.phase == S.SendData && !sys.s.finished && sys.s.retry == 0
    && sys.s.ring.size == 1 && sys.s.seqNum == sys.s.ring.lower == k
    && sys.r.phase == R.RecvData && sys.r.expected == k
  }

  lemma NextInStep(sys0: System, sys: System, job: Job, k: nat) returns (sys': System)
    requires Wf(sys0) && On(sys0, sys, job, true) && InStep(sys, k) && 1 <= k < job.Count()
    ensures On(sys0, sys', job, true) && InStep(sys', k + 1) && |sys'.s.sent| == |sys.s.sent| + 1
    ensures sys'.r.sent == sys.r.sent + [R.Control(sys.r.clientSeq, RR, k + 1)]
  {
    var sys1, d := SendsAndWaits(sys0, sys, job, true);
    assert d in sys1.s.sent;
    var sys2 := ClientTakes(sys0, sys1, job, d, true);
    var c := R.Control(sys.r.clientSeq, RR, k + 1);
    assert c in sys2.r.sent;
    sys' := ServerSlides(sys0, sys2, job, c, true);
  }

  /** Three packets sent through a window of one, two of them acknowledged. */
  lemma ThreeSent(file: seq<byte>, bufSize: nat, clientSeq: nat) returns (sys: System, c: R.Control)
    requires 1 <= bufSize <= MAX_PDU - HEADER_LEN && Job(Split(file, bufSize), bufSize).Wf()
    requires |Split(file, bufSize)| >= 3
    ensures On(Initial(file, 1, bufSize, clientSeq), sys, Job(Split(file, bufSize), bufSize), true)
    ensures sys.s.phase == S.WaitOnAck && !sys.s.finished && sys.s.retry == 0 && |sys.s.sent| == 3
    ensures sys.s.ring.current == sys.s.seqNum == 4 && sys.s.ring.size == 1
    ensures c in sys.r.sent && c.flag == RR && c.value == 2
  {
    var job := Job(Split(file, bufSize), bufSize);
    var sys0 := AtTheStart(file, 1, bufSize, clientSeq);
    c := R.Control(sys0.r.clientSeq, RR, 2);
    var sys1 := NextInStep(sys0, sys0, job, 1);
    assert sys1.r.sent[0] == c;
    var sys2 := NextInStep(sys0, sys1, job, 2);
    assert sys2.r.sent[0] == c;
    var sys3, d := SendsAndWaits(sys0, sys2, job, true);
    sys := sys3;
  }

  /** For every file of three packets or more there is a run in which the server is handed an RR
      older than current - size: with three packets sent through a window of one and two of them
      acknowledged, the first RR arrives again. All the packets left then go out at once. */
  lemma OldRr(file: seq<byte>, bufSize: nat, clientSeq: nat, junk: byte) returns (sys: System, d: seq<byte>)
    requires 1 <= bufSize <= MAX_PDU - HEADER_LEN && Job(Split(file, bufSize), bufSize).Wf()
    requires |Split(file, bufSize)| >= 3
    ensures Reaches(Initial(file, 1, bufSize, clientSeq), sys, true) && Wf(sys) && |sys.s.sent| == 3
    ensures Possible(sys, ServerPoll(Arrive(d))) && !Recent(sys, ServerPoll(Arrive(d)))
    ensures var s := Do(sys, ServerPoll(Arrive(d))).s;
            && SC.Steady(s) && s.phase == S.SendData && s.ring.upper < s.ring.current
            && |ST.Burst(s, junk).sent| == |Split(file, bufSize)| + 1
  {
    var job, c := Job(Split(file, bufSize), bufSize), R.Control(0, RR, 0);
    sys, c := ThreeSent(file, bufSize, clientSeq);
    d := R.Wire(c);
    OfTheClient(sys, job, c);
    assert |Split(sys.s.rest, bufSize)| == |job.chunks[3..]|;
    ST.OldRrFloods(sys.s, d, junk);
  }

  // ------------------------------------------------------------------- a late answer to the file name

  /** Fills the window from the start. */
  lemma {:induction false} Fills(sys0: System, sys: System, job: Job) returns (sys': System)
    requires Wf(sys0) && On(sys0, sys, job, true) && sys.s.phase == S.SendData && !sys.s.finished
    requires sys.s.seqNum <= sys.s.ring.upper <= job.Count()
    ensures On(sys0, sys', job, true) && sys'.r == sys.r && sys'.s.phase == S.WaitOnAck
    ensures !sys'.s.finished && sys'.s.finalSeq == sys.s.finalSeq && sys'.s.retry == sys.s.retry
    ensures sys'.s.eofRetry == sys.s.eofRetry
    decreases sys.s.ring.upper - sys.s.seqNum
  {
    if sys.s.ring.Full() {
      sys' := Waits(sys0, sys, job, true);
    } else {
      var sys1, d := SendsChunk(sys0, sys, job, true);
      sys' := Fills(sys0, sys1, job);
    }
  }

  lemma AnswersHandshake(r: R.Receiver)
    requires r.Wf() && r.phase == R.RecvData
    ensures |Handshake()| == HEADER_LEN && Verifies(Handshake())
    ensures var r' := R.RecvDataStep(r, Arrive(Handshake()));
            && r'.phase == R.RecvData && r'.writes == r.writes
            && r'.sent == r.sent + [R.Control(r.clientSeq, RR, 1)]
  {
    SealedDecodes(0, FNAME_OK, []);
  }

  lemma HandshakeAgain(sys0: System, job: Job) returns (sys: System, c: R.Control)
    requires Wf(sys0) && On(sys0, sys0, job, true) && Fresh(sys0)
    ensures On(sys0, sys, job, true) && sys.s == sys0.s && sys.r.phase == R.RecvData && sys.r.writes == sys0.r.writes
    ensures c in sys.r.sent && c.flag == RR && c.value == 1
  {
    AnswersHandshake(sys0.r);
    sys := Onward(sys0, sys0, job, ClientPoll(Arrive(Handshake())), true);
    c := R.Control(sys0.r.clientSeq, RR, 1);
    assert sys.r == R.RecvDataStep(sys0.r, Arrive(Handshake()));
  }

  lemma PollEnds(s: S.Sender, d: seq<byte>)
    requires s.Wf() && s.phase == S.WaitOnAck && s.retry == 0 && s.finalSeq == 0
    requires S.SizedAck(Arrive(d)) && Verifies(d) && FlagOf(d) == RR && ValueOf(d) == 1
    ensures S.Outer(s, Arrive(d)) == s.(phase := S.WaitOnEofAck)
  {
  }

  /** RR 1 ends the data phase of a server that has met no short packet. */
  lemma EndsTooSoon(sys0: System, sys: System, job: Job, c: R.Control) returns (sys': System)
    requires Wf(sys0) && On(sys0, sys, job, true) && sys.s.phase == S.WaitOnAck && sys.s.retry == 0
    requires !sys.s.finished && sys.s.finalSeq == 0 && sys.s.eofRetry == 0
    requires c in sys.r.sent && c.flag == RR && c.value == 1
    ensures On(sys0, sys', job, true) && sys'.r == sys.r && sys'.s.phase == S.Aborted
  {
    OfTheClient(sys, job, c);
    PollEnds(sys.s, R.Wire(c));
    var sys1 := Onward(sys0, sys, job, ServerPoll(Arrive(R.Wire(c))), true);
    ExitsOnEmpty(sys1, job);
    sys' := Onward(sys0, sys1, job, ServerTurn(0), true);
  }

  lemma ExitsOnEmpty(sys: System, job: Job)
    requires Joined(sys, job) && sys.s.phase == S.WaitOnEofAck && !sys.s.finished && sys.s.eofRetry == 0
    ensures Possible(sys, ServerTurn(0)) && Do(sys, ServerTurn(0)).s.phase == S.Aborted
  {
    SC.EofSendSound(sys.s, job);
  }

  /** FNAME_OK arrives once more: the client answers RR 1, a server that has met no short packet
      takes that for the RR of the last one, and exits on the empty end of file it has not built. */
  lemma HandshakeAborts(file: seq<byte>, size: nat, bufSize: nat, clientSeq: nat) returns (sys: System)
    requires size >= 1 && 1 <= bufSize <= MAX_PDU - HEADER_LEN && Job(Split(file, bufSize), bufSize).Wf()
    requires |Split(file, bufSize)| > size
    ensures Reaches(Initial(file, size, bufSize, clientSeq), sys, true)
    ensures sys.s.phase == S.Aborted && sys.r.phase == R.RecvData && sys.r.writes == []
  {
    var job := Job(Split(file, bufSize), bufSize);
    var sys0 := AtTheStart(file, size, bufSize, clientSeq);
    var sys1, c := HandshakeAgain(sys0, job);
    var sys2 := Fills(sys0, sys1, job);
    sys := EndsTooSoon(sys0, sys2, job, c);
  }

  // ------------------------------------------------------------------- the end of file as data

  /** Rewritten as data, an end of file still verifies and keeps its number, and is a packet the
      transfer does not have. */
  lemma EofAsData(s: S.Sender, job: Job, at: nat, len: nat, flag: byte)
    requires SC.Sound(s, job) && IsDataFlag(flag) && 1 <= at < s.ring.current && HEADER_LEN <= len <= MAX_PDU
    requires SeqOf(s.ring.At(at).packet) == job.Eof()
    ensures var d := S.Rewritten(s.ring.At(at).packet, flag, len)[..len];
            |d| == len && Verifies(d) && SeqOf(d) == job.Eof() && FlagOf(d) == flag && !Genuine(job, d)
  {
    var p := s.ring.At(at).packet;
    SC.RewrittenReseals(p, flag, len);
    SC.RewrittenNumber(p, flag, len);
    SealVerifies(p[..len][6 := flag]);
  }

  /** A client that has the whole file and takes such a packet appends its payload to the file. */
  lemma FalseDataAppended(r: R.Receiver, file: seq<byte>, bufSize: nat, cap: nat, d: seq<byte>)
    requires bufSize >= 1 && RC.Faithful(r, Job(Split(file, bufSize), bufSize), cap)
    requires r.phase == R.RecvData && r.expected == |Split(file, bufSize)| + 1
    requires Sized(Arrive(d)) && Verifies(d) && SeqOf(d) == r.expected && FlagOf(d) != END_OF_FILE
    ensures Flatten(R.RecvDataStep(r, Arrive(d)).writes) == file + d[HEADER_LEN..]
  {
    var chunks := Split(file, bufSize);
    assert r.writes == chunks;
    FlattenConcat(chunks, [d[HEADER_LEN..]]);
    SplitJoins(file, bufSize);
    FlattenOne(d[HEADER_LEN..]);
  }

  lemma FlattenOne(a: seq<byte>)
    ensures Flatten([a]) == a
  {
    assert [a][1..] == [] && Flatten([a]) == a + Flatten([a][1..]);
  }

  /** The client takes a false packet: the two steps are possible, and its payload is appended to
      the finished file. */
  lemma FalsePacketTaken(sys: System, file: seq<byte>, bufSize: nat, a: Action, d: seq<byte>)
    requires bufSize >= 1 && Joined(sys, Job(Split(file, bufSize), bufSize))
    requires (a.ServerTurn? || a.ServerPoll?) && Possible(sys, a) && d in Do(sys, a).s.sent
    requires sys.r.phase == R.RecvData && sys.r.expected == |Split(file, bufSize)| + 1
    requires HEADER_LEN < |d| <= MAX_PDU && Verifies(d) && SeqOf(d) == sys.r.expected && FlagOf(d) != END_OF_FILE
    ensures PossibleRun(sys, [a, ClientPoll(Arrive(d))])
    ensures var sys' := Run(sys, [a, ClientPoll(Arrive(d))]);
            && sys'.s == Do(sys, a).s
            && Flatten(sys'.r.writes) == file + d[HEADER_LEN..] && !(Flatten(sys'.r.writes) <= file)
  {
    FalseDataAppended(sys.r, file, bufSize, sys.s.ring.current, d);
    TwoSteps(sys, a, ClientPoll(Arrive(d)));
  }

  /** While the slot of `lower` holds the end of file, a timeout sends a packet that verifies,
      carries the number of the end of file and claims to be data. */
  lemma ResentEofIsNotGenuine(s: S.Sender, job: Job)
    requires SC.Sound(s, job) && s.phase == S.TimeoutOnAck && s.ring.lower < s.ring.current
    requires SeqOf(s.ring.At(s.ring.lower).packet) == job.Eof()
    ensures var s' := S.TimeoutStep(s);
            && |s'.sent| == |s.sent| + 1
            && var d := s'.sent[|s.sent|];
               && |d| == HEADER_LEN + job.bufSize && Verifies(d)
               && SeqOf(d) == job.Eof() && FlagOf(d) == DATA_TIMEOUT && !Genuine(job, d)
  {
    var len := SC.TimeoutIsResent(s, job);
    EofAsData(s, job, s.ring.lower, len, DATA_TIMEOUT);
  }

  /** From every such state, with the client waiting for the end of file, the finished file grows by
      `bufSize` bytes. */
  lemma ResentEofCorrupts(sys: System, file: seq<byte>, bufSize: nat) returns (d: seq<byte>)
    requires bufSize >= 1 && Joined(sys, Job(Split(file, bufSize), bufSize)) && sys.s.phase == S.TimeoutOnAck
    requires SeqOf(sys.s.ring.At(sys.s.ring.lower).packet) == |Split(file, bufSize)| + 1 == sys.r.expected
    requires sys.r.phase == R.RecvData
    ensures PossibleRun(sys, [ServerTurn(0), ClientPoll(Arrive(d))]) && |d| == HEADER_LEN + bufSize
    ensures var r := Run(sys, [ServerTurn(0), ClientPoll(Arrive(d))]).r;
            Flatten(r.writes) == file + d[HEADER_LEN..] && !(Flatten(r.writes) <= file)
  {
    var s' := S.TimeoutStep(sys.s);
    TimedOutInWindow(sys, Job(Split(file, bufSize), bufSize));
    ResentEofIsNotGenuine(sys.s, Job(Split(file, bufSize), bufSize));
    d := s'.sent[|sys.s.sent|];
    FalsePacketTaken(sys, file, bufSize, ServerTurn(0), d);
  }

  lemma TimedOutInWindow(sys: System, job: Job)
    requires Joined(sys, job) && sys.s.phase == S.TimeoutOnAck
    ensures sys.s.ring.lower < sys.s.ring.current
  {
  }

  /** An empty file, and nothing heard of its end of file. */
  lemma EofUnanswered(size: nat, bufSize: nat, clientSeq: nat) returns (sys: System)
    requires size >= 1 && 1 <= bufSize <= MAX_PDU - HEADER_LEN
    ensures On(Initial([], size, bufSize, clientSeq), sys, Job([], bufSize), true)
    ensures sys.s.phase == S.TimeoutOnAck && SeqOf(sys.s.ring.At(sys.s.ring.lower).packet) == 1
    ensures sys.r.phase == R.RecvData && sys.r.expected == 1
  {
    var job := Job([], bufSize);
    assert Split([], bufSize) == [];
    var sys0 := AtTheStart([], size, bufSize, clientSeq);
    var sys1 := SendsEof(sys0, sys0, job, 0, true);
    sys := TimesOut(sys0, sys1, job, true);
    var t := SC.Occupant(sys.s, job, sys.s.ring.lower);
  }

  /** The shortest run of that kind: the end of file of an empty file is lost, or its EOF_ACK late.
      The client ends up with a file of `bufSize` bytes. */
  lemma EmptyFileCorrupted(size: nat, bufSize: nat, clientSeq: nat) returns (sys: System)
    requires size >= 1 && 1 <= bufSize <= MAX_PDU - HEADER_LEN
    ensures Reaches(Initial([], size, bufSize, clientSeq), sys, true) && |Flatten(sys.r.writes)| == bufSize
  {
    var sys0 := Initial([], size, bufSize, clientSeq);
    assert Split([], bufSize) == [];
    var sys1 := EofUnanswered(size, bufSize, clientSeq);
    var d := ResentEofCorrupts(sys1, [], bufSize);
    sys := BothSteps(sys0, sys1, ServerTurn(0), ClientPoll(Arrive(d)), true);
  }

  // ------------------------------------------------------------------- an old SREJ

  /** Two packets sent through a window of two. */
  lemma TwoSent(sys0: System, job: Job) returns (sys: System, d1: seq<byte>, d2: seq<byte>)
    requires Wf(sys0) && On(sys0, sys0, job, true) && Fresh(sys0) && sys0.s.ring.size == 2 && job.Count() >= 2
    ensures On(sys0, sys, job, true) && sys.r == sys0.r && sys.s.sent == [d1, d2]
    ensures |d1| >= HEADER_LEN && SeqOf(d1) == 1 && FlagOf(d1) == DATA
    ensures |d2| >= HEADER_LEN && SeqOf(d2) == 2 && FlagOf(d2) == DATA
    ensures sys.s.phase == S.WaitOnAck && sys.s.seqNum == 3 && sys.s.ring.lower == 1 && sys.s.ring.size == 2
    ensures !sys.s.finished && sys.s.retry == 0
  {
    var sys1, e1 := SendsChunk(sys0, sys0, job, true);
    var sys2, e2 := SendsAndWaits(sys0, sys1, job, true);
    sys, d1, d2 := sys2, e1, e2;
  }

  /** flush with one packet to write. */
  lemma FlushesOne(r: R.Receiver)
    requires r.Wf() && r.phase == R.Flush && r.expected == r.highest != r.eofSeq
    ensures R.FlushStep(r) == r.Say(RR, r.expected).WriteSlot().(phase := R.RecvData)
  {
    assert R.FlushLoop(r) == r;
  }

  /** flush writes the one packet it holds. */
  lemma WritesLast(sys0: System, sys: System, job: Job, s: nat) returns (sys': System, rr: R.Control)
    requires Wf(sys0) && On(sys0, sys, job, true) && !job.EndsShort()
    requires sys.r.phase == R.Flush && sys.r.expected == sys.r.highest == s <= job.Count()
    requires sys.r.ring.At(s).seqNum == s
    ensures On(sys0, sys', job, true) && sys'.s == sys.s && sys'.r.phase == R.RecvData && sys'.r.expected == s + 1
    ensures sys'.r.sent == sys.r.sent + [rr] && rr.flag == RR && rr.value == s
  {
    FlushesOne(sys.r);
    assert R.FlushLoop(sys.r) == sys.r;
    sys' := Onward(sys0, sys, job, ClientFlush, true);
    rr := R.Control(sys.r.clientSeq, RR, s);
  }

  /** The second packet is taken first, then the first, and both are written. */
  lemma BothWritten(sys0: System, job: Job) returns (sys: System, rr: R.Control, srej: R.Control)
    requires Wf(sys0) && On(sys0, sys0, job, true) && Fresh(sys0) && sys0.s.ring.size == 2
    requires job.Count() == 2 && !job.EndsShort()
    ensures On(sys0, sys, job, true) && sys.s.phase == S.WaitOnAck && sys.s.retry == 0 && !sys.s.finished
    ensures sys.s.seqNum == 3 && sys.s.ring.size == 2
    ensures sys.r.phase == R.RecvData && sys.r.expected == 3
    ensures rr in sys.r.sent && rr.flag == RR && rr.value == 2
    ensures srej in sys.r.sent && srej.flag == SREJ && srej.value == 1
  {
    var sys1, d1, d2 := TwoSent(sys0, job);
    assert d1 in sys1.s.sent && d2 in sys1.s.sent;
    var sys2 := ClientBuffers(sys0, sys1, job, d2, true);
    TakesAhead(sys1.r, d2);
    srej := R.Control(sys1.r.clientSeq, SREJ, 1);
    assert srej in sys2.r.sent;
    var sys3 := ClientCloses(sys0, sys2, job, d1, true);
    TakesHole(sys2.r, d1);
    assert sys3.r.ring.At(2).seqNum == 2;
    sys, rr := WritesLast(sys0, sys3, job, 2);
  }

  /** The client has the file, the end of file is out, and the SREJ for packet 1 is on its way. */
  ghost predicate SrejUnderWay(sys: System, c: R.Control) {
    && sys.s.phase == S.WaitOnAck && sys.s.retry == 0 && sys.s.ring.current == 4 && sys.s.ring.size == 2
    && sys.r.phase == R.RecvData && sys.r.expected == 3
    && c in sys.r.sent && c.flag == SREJ && c.value == 1
  }

  lemma ToTheEnd(file: seq<byte>, bufSize: nat, clientSeq: nat) returns (sys: System, c: R.Control)
    requires 1 <= bufSize <= MAX_PDU - HEADER_LEN && Job(Split(file, bufSize), bufSize).Wf()
    requires |Split(file, bufSize)| == 2 && !Short(Split(file, bufSize), bufSize)
    ensures On(Initial(file, 2, bufSize, clientSeq), sys, Job(Split(file, bufSize), bufSize), true)
    ensures SrejUnderWay(sys, c)
  {
    var job := Job(Split(file, bufSize), bufSize);
    var sys0 := AtTheStart(file, 2, bufSize, clientSeq);
    var sys1, rr, srej := BothWritten(sys0, job);
    var sys2 := ServerSlides(sys0, sys1, job, rr, true);
    sys := SendsEof(sys0, sys2, job, 0, true);
    c := srej;
  }

  lemma PollAnswers(s: S.Sender, d: seq<byte>)
    requires s.Wf() && s.phase == S.WaitOnAck && s.retry == 0
    requires S.SizedAck(Arrive(d)) && Verifies(d) && FlagOf(d) == SREJ
    ensures S.Outer(s, Arrive(d)) == S.SrejStep(s, ValueOf(d))
  {
    assert s.(retry := 0) == s;
  }

  lemma AnswersWithEof(sys: System, job: Job, c: R.Control) returns (d: seq<byte>)
    requires Joined(sys, job) && SrejUnderWay(sys, c) && job.Count() == 2 && !job.EndsShort()
    ensures Possible(sys, ServerPoll(Arrive(R.Wire(c)))) && FlagOf(R.Wire(c)) == SREJ
    ensures d in Do(sys, ServerPoll(Arrive(R.Wire(c)))).s.sent && |d| == HEADER_LEN + job.bufSize
    ensures Verifies(d) && SeqOf(d) == 3 && FlagOf(d) == SREJ_RETRAN && !Genuine(job, d)
  {
    OfTheClient(sys, job, c);
    var t := SC.Occupant(sys.s, job, 1);
    SC.SrejIsResent(sys.s, job, 1);
    ChunkLength(job, 1);
    PollAnswers(sys.s, R.Wire(c));
    EofAsData(sys.s, job, 1, sys.s.LenOf(1), SREJ_RETRAN);
    d := S.SrejStep(sys.s, 1).sent[|sys.s.sent|];
  }

  /** For every file of exactly two full packets there is a run in which an SREJ arrives after its
      packet has left the ring and the end of file has taken the slot. The server answers with the
      end of file as data, and the client appends its payload to the finished file. */
  lemma OldSrejCorrupts(file: seq<byte>, bufSize: nat, clientSeq: nat) returns (sys: System, d: seq<byte>)
    requires 1 <= bufSize <= MAX_PDU - HEADER_LEN && Job(Split(file, bufSize), bufSize).Wf()
    requires |Split(file, bufSize)| == 2 && |file| % bufSize == 0
    ensures Reaches(Initial(file, 2, bufSize, clientSeq), sys, true)
    ensures d in sys.s.sent && !Genuine(Job(Split(file, bufSize), bufSize), d) && |d| == HEADER_LEN + bufSize
    ensures Flatten(sys.r.writes) == file + d[HEADER_LEN..] && !(Flatten(sys.r.writes) <= file)
  {
    var job := Job(Split(file, bufSize), bufSize);
    ShortIff(file, bufSize);
    var sys1, c := ToTheEnd(file, bufSize, clientSeq);
    var poll := ServerPoll(Arrive(R.Wire(c)));
    d := AnswersWithEof(sys1, job, c);
    FalsePacketTaken(sys1, file, bufSize, poll, d);
    sys := BothSteps(Initial(file, 2, bufSize, clientSeq), sys1, poll, ClientPoll(Arrive(d)), true);
  }

  // ------------------------------------------------------------------- a length that was lost

  /** Two packets acknowledged, four sent through a window of two. */
  lemma FourSent(sys0: System, job: Job) returns (sys: System, rr: R.Control, d3: seq<byte>)
    requires Wf(sys0) && On(sys0, sys0, job, true) && Fresh(sys0) && sys0.s.ring.size == 2 && job.Count() == 4
    ensures On(sys0, sys, job, true) && sys.s.phase == S.WaitOnAck && sys.s.retry == 0 && !sys.s.finished
    ensures sys.s.seqNum == 5 && sys.s.ring.lower == 3 && sys.s.ring.size == 2
    ensures d3 in sys.s.sent && |d3| >= HEADER_LEN && SeqOf(d3) == 3 && FlagOf(d3) == DATA
    ensures sys.r.phase == R.RecvData && sys.r.expected == 3 && sys.r.finalSeq == 0
    ensures rr in sys.r.sent && rr.flag == RR && rr.value == 2
  {
    var sys1, d1, d2 := TwoSent(sys0, job);
    assert d1 in sys1.s.sent && d2 in sys1.s.sent;
    var sys2 := ClientTakes(sys0, sys1, job, d1, true);
    var sys3 := ClientTakes(sys0, sys2, job, d2, true);
    rr := R.Control(sys1.r.clientSeq, RR, 2);
    var rr3 := R.Control(sys2.r.clientSeq, RR, 3);
    assert sys3.r.sent == [rr, rr3] && rr in sys3.r.sent && rr3 in sys3.r.sent;
    var sys4 := ServerSlides(sys0, sys3, job, rr, true);
    var sys5, e3 := SendsAndWaits(sys0, sys4, job, true);
    d3 := e3;
    var sys6 := ServerSlides(sys0, sys5, job, rr3, true);
    var sys7, d4 := SendsAndWaits(sys0, sys6, job, true);
    sys := sys7;
  }

  /** The first RR arrives again: the window moves back, the end of file takes the slot of packet 3,
      and a timeout finds packet 4 in the slot of `lower`. */
  lemma LastResent(sys0: System, job: Job) returns (sys: System, d3: seq<byte>, d4: seq<byte>)
    requires Wf(sys0) && On(sys0, sys0, job, true) && Fresh(sys0) && sys0.s.ring.size == 2 && job.Count() == 4
    ensures On(sys0, sys, job, false) && d3 in sys.s.sent && d4 in sys.s.sent
    ensures |d3| >= HEADER_LEN && SeqOf(d3) == 3 && FlagOf(d3) == DATA
    ensures |d4| >= HEADER_LEN && SeqOf(d4) == 4 && FlagOf(d4) == DATA_TIMEOUT
    ensures sys.r.phase == R.RecvData && sys.r.expected == 3 && sys.r.finalSeq == 0 && sys.r.ring.size == 2
  {
    var sys1, rr, e3 := FourSent(sys0, job);
    Forget(sys0, sys1, job);
    var sys2 := ServerSlides(sys0, sys1, job, rr, false);
    var sys3 := SendsEof(sys0, sys2, job, 0, false);
    var sys4 := TimesOut(sys0, sys3, job, false);
    var t := SC.Occupant(sys4.s, job, 2);
    var sys5, e4 := Resends(sys0, sys4, job, 4, false);
    sys, d3, d4 := sys5, e3, e4;
  }

  /** Written over the full length, the short last packet is followed by stray bytes. */
  lemma WrittenTooLong(r: R.Receiver, file: seq<byte>, bufSize: nat, cap: nat)
    requires bufSize >= 1 && RC.Faithful(r, Job(Split(file, bufSize), bufSize), cap) && r.phase == R.Flush
    requires r.expected == r.highest == |Split(file, bufSize)| && Short(Split(file, bufSize), bufSize)
    requires r.ring.At(r.expected).seqNum == r.expected && r.finalSeq == 0
    ensures var w := Flatten(R.FlushStep(r).writes);
            file < w && |w| == |file| + bufSize - |Split(file, bufSize)[r.expected - 1]|
  {
    var job, n := Job(Split(file, bufSize), bufSize), |Split(file, bufSize)|;
    var slot, last := r.ring.At(n), job.Chunk(n);
    var data := slot.packet[HEADER_LEN..r.LenOf(n)];
    FlushesOne(r);
    assert RC.SlotGenuine(slot, job, cap, r.eofSeq);
    ChunkLength(job, n);
    assert |data| == bufSize && data[..|last|] == last;
    assert R.FlushStep(r).writes == job.chunks[..n - 1] + [data];
    assert job.chunks == job.chunks[..n - 1] + [last];
    FlattenConcat(job.chunks[..n - 1], [data]);
    FlattenConcat(job.chunks[..n - 1], [last]);
    FlattenOne(data);
    FlattenOne(last);
    SplitJoins(file, bufSize);
  }

  /** The resent last packet is buffered, packet 3 arrives, and the client is about to flush. */
  lemma AboutToFlush(sys0: System, job: Job) returns (sys: System)
    requires Wf(sys0) && On(sys0, sys0, job, true) && Fresh(sys0) && sys0.s.ring.size == 2 && job.Count() == 4
    ensures On(sys0, sys, job, false) && sys.r.phase == R.Flush && sys.r.expected == sys.r.highest == 4
    ensures sys.r.ring.At(4).seqNum == 4 && sys.r.finalSeq == 0
  {
    var sys1, d3, d4 := LastResent(sys0, job);
    var sys2 := ClientBuffers(sys0, sys1, job, d4, false);
    TakesAhead(sys1.r, d4);
    var sys3 := ClientCloses(sys0, sys2, job, d3, false);
    TakesHole(sys2.r, d3);
    ChunkLength(job, 3);
    sys := sys3;
  }

  /** For every file of exactly four packets, the last short, there is a run through a window of two
      in which an old RR makes the server resend the last packet ahead of the third: the client
      buffers it without noting its length, and stray bytes follow the whole file on disk. */
  lemma LostLengthCorrupts(file: seq<byte>, bufSize: nat, clientSeq: nat) returns (sys: System)
    requires 1 <= bufSize <= MAX_PDU - HEADER_LEN && Job(Split(file, bufSize), bufSize).Wf()
    requires |Split(file, bufSize)| == 4 && |file| % bufSize != 0
    ensures Reaches(Initial(file, 2, bufSize, clientSeq), sys, false)
    ensures file < Flatten(sys.r.writes) && |Flatten(sys.r.writes)| == 4 * bufSize
  {
    var job := Job(Split(file, bufSize), bufSize);
    var sys0 := AtTheStart(file, 2, bufSize, clientSeq);
    var sys1 := AboutToFlush(sys0, job);
    ShortIff(file, bufSize);
    WrittenTooLong(sys1.r, file, bufSize, sys1.s.ring.current);
    FourPackets(file, bufSize);
    Further(sys0, sys1, ClientFlush, false);
    sys := Do(sys1, ClientFlush);
  }

  lemma FourPackets(file: seq<byte>, bufSize: nat)
    requires bufSize >= 1 && |Split(file, bufSize)| == 4
    ensures |file| == 3 * bufSize + |Split(file, bufSize)[3]|
  {
    var c := Split(file, bufSize);
    SplitJoins(file, bufSize);
    assert c == [c[0]] + ([c[1]] + ([c[2]] + [c[3]]));
    FlattenConcat([c[0]], [c[1]] + ([c[2]] + [c[3]]));
    FlattenConcat([c[1]], [c[2]] + [c[3]]);
    FlattenConcat([c[2]], [c[3]]);
    FlattenOne(c[0]);
    FlattenOne(c[1]);
    FlattenOne(c[2]);
    FlattenOne(c[3]);
  }

  // ------------------------------------------------------------------- a slot that was not freed

  /** Three packets sent through a window of three. */
  lemma WindowOfThree(sys0: System, job: Job) returns (sys: System, d1: seq<byte>, d2: seq<byte>, d3: seq<byte>)
    requires Wf(sys0) && On(sys0, sys0, job, true) && Fresh(sys0) && sys0.s.ring.size == 3 && job.Count() >= 7
    ensures On(sys0, sys, job, true) && sys.r == sys0.r && sys.s.sent == [d1, d2, d3]
    ensures |d1| >= HEADER_LEN && SeqOf(d1) == 1 && FlagOf(d1) == DATA
    ensures |d2| >= HEADER_LEN && SeqOf(d2) == 2 && FlagOf(d2) == DATA
    ensures |d3| >= HEADER_LEN && SeqOf(d3) == 3 && FlagOf(d3) == DATA
    ensures sys.s.phase == S.WaitOnAck && sys.s.seqNum == 4 && sys.s.ring.lower == 1 && sys.s.ring.size == 3
    ensures !sys.s.finished && sys.s.retry == 0
  {
    var sys1, e1 := SendsChunk(sys0, sys0, job, true);
    var sys2, e2 := SendsChunk(sys0, sys1, job, true);
    var sys3, e3 := SendsAndWaits(sys0, sys2, job, true);
    sys, d1, d2, d3 := sys3, e1, e2, e3;
  }

  /** Packet 3 is buffered, packet 1 arrives again, then 2 and 3 in order: the slot of 3 is left in
      use. */
  lemma SlotLeftInUse(sys0: System, job: Job) returns (sys: System, rr: R.Control)
    requires Wf(sys0) && On(sys0, sys0, job, true) && Fresh(sys0) && sys0.s.ring.size == 3 && job.Count() >= 7
    ensures On(sys0, sys, job, true)
    ensures sys.s.phase == S.WaitOnAck && sys.s.seqNum == 4 && sys.s.ring.lower == 1 && sys.s.ring.size == 3
    ensures !sys.s.finished && sys.s.retry == 0
    ensures sys.r.phase == R.RecvData && sys.r.expected == 4
    ensures sys.r.ring.size == 3 && sys.r.ring.IsValid(3) && sys.r.ring.At(3).seqNum == 3
    ensures rr in sys.r.sent && rr.flag == RR && rr.value == 4
  {
    var sys1, d1, d2, d3 := WindowOfThree(sys0, job);
    assert d1 in sys1.s.sent && d2 in sys1.s.sent && d3 in sys1.s.sent;
    var sys2 := ClientTakes(sys0, sys1, job, d1, true);
    var sys3 := ClientBuffers(sys0, sys2, job, d3, true);
    TakesAhead(sys2.r, d3);
    var sys4 := ClientFallsBack(sys0, sys3, job, d1, true);
    var sys5 := ClientTakes(sys0, sys4, job, d2, true);
    sys := ClientTakes(sys0, sys5, job, d3, true);
    rr := R.Control(sys5.r.clientSeq, RR, 4);
    assert rr in sys.r.sent;
  }

  /** The server slides on and sends packets 4 to 7, of which the client takes 4. */
  lemma FourMore(sys0: System, sys: System, job: Job, rr: R.Control)
    returns (sys': System, d5: seq<byte>, d7: seq<byte>)
    requires Wf(sys0) && On(sys0, sys, job, true) && job.Count() >= 7
    requires sys.s.phase == S.WaitOnAck && sys.s.seqNum == 4 && sys.s.ring.lower == 1 && sys.s.ring.size == 3
    requires !sys.s.finished && sys.s.retry == 0
    requires sys.r.phase == R.RecvData && sys.r.expected == 4
    requires rr in sys.r.sent && rr.flag == RR && rr.value == 4
    ensures On(sys0, sys', job, true) && d5 in sys'.s.sent && d7 in sys'.s.sent
    ensures |d5| >= HEADER_LEN && SeqOf(d5) == 5 && |d7| >= HEADER_LEN && SeqOf(d7) == 7
    ensures sys'.r.phase == R.RecvData && sys'.r.expected == 5 && sys'.r.ring == sys.r.ring
  {
    var sys1 := ServerSlides(sys0, sys, job, rr, true);
    var sys2, d4 := SendsChunk(sys0, sys1, job, true);
    var sys3, e5 := SendsChunk(sys0, sys2, job, true);
    var sys4, d6 := SendsAndWaits(sys0, sys3, job, true);
    assert d4 in sys4.s.sent && e5 in sys4.s.sent;
    var sys5 := ClientTakes(sys0, sys4, job, d4, true);
    var rr5 := R.Control(sys4.r.clientSeq, RR, 5);
    assert rr5 in sys5.r.sent;
    var sys6 := ServerSlides(sys0, sys5, job, rr5, true);
    var sys7, e7 := SendsChunk(sys0, sys6, job, true);
    sys', d5, d7 := sys7, e5, e7;
  }

  /** Packets 7 and 5 arrive: flush is about to take the slot of packet 3 for that of packet 6. */
  lemma StaleSlotAhead(sys0: System, job: Job) returns (sys: System)
    requires Wf(sys0) && On(sys0, sys0, job, true) && Fresh(sys0) && sys0.s.ring.size == 3 && job.Count() >= 7
    ensures On(sys0, sys, job, true) && sys.r.phase == R.Flush && sys.r.expected == 6 && sys.r.highest == 7
    ensures sys.r.ring.IsValid(6) && sys.r.ring.At(6).seqNum == 3
  {
    var sys1, rr := SlotLeftInUse(sys0, job);
    var sys2, d5, d7 := FourMore(sys0, sys1, job, rr);
    NextLap(sys2.r.ring, 3);
    var sys3 := ClientBuffers(sys0, sys2, job, d7, true);
    TakesAhead(sys2.r, d7);
    sys := ClientCloses(sys0, sys3, job, d5, true);
    TakesHole(sys3.r, d5);
  }

  /** It writes packet 3 again. */
  lemma WritesStale(r: R.Receiver, job: Job, cap: nat)
    requires RC.Faithful(r, job, cap) && r.phase == R.Flush && r.expected == 6 && r.highest == 7 && job.Count() >= 7
    requires r.ring.IsValid(6) && r.ring.At(6).seqNum == 3
    ensures var r' := R.FlushStep(r);
            && |r'.writes| == |r'.sources| >= 6 && r'.writes[..5] == job.chunks[..5]
            && r'.writes[5] == job.Chunk(3) && r'.sources[5] == 3
  {
    var w := r.WriteSlot();
    ChunkLength(job, 3);
    assert RC.SlotGenuine(r.ring.At(6), job, cap, r.eofSeq);
    assert r.LenOf(6) == HEADER_LEN + |job.Chunk(3)|;
    assert w.writes == r.writes + [job.Chunk(3)] && w.sources == r.sources + [3];
    assert R.FlushLoop(r) == R.FlushLoop(w);
    RO.FlushOrdered(w);
    var r' := R.FlushStep(r);
    assert r' == R.FlushStep(w);
    assert r'.writes[..5] == w.writes[..5] && r'.writes[5] == w.writes[5] && r'.sources[5] == w.sources[5];
  }

  /** A file that differs in a chunk of the same length is no prefix. */
  lemma Diverges(a: seq<seq<byte>>, b: seq<seq<byte>>, i: nat)
    requires i < |a| && i < |b| && a[..i] == b[..i] && |a[i]| == |b[i]| && a[i] != b[i]
    ensures !(Flatten(a) <= Flatten(b))
  {
    var front := Flatten(a[..i]);
    Around(a, i);
    Around(b, i);
    var j :| 0 <= j < |a[i]| && a[i][j] != b[i][j];
    assert Flatten(a)[|front| + j] == a[i][j] && Flatten(b)[|front| + j] == b[i][j];
  }

  lemma Around(a: seq<seq<byte>>, i: nat)
    requires i < |a|
    ensures Flatten(a) == Flatten(a[..i]) + a[i] + Flatten(a[i + 1..])
  {
    assert a == a[..i] + a[i..] && a[i..][1..] == a[i + 1..];
    FlattenConcat(a[..i], a[i..]);
  }

  /** For every file of seven packets or more whose third and sixth packets differ there is a run
      through a window of three, without an old RR, in which a repeated packet leaves a slot in use:
      packet 3 is on disk a second time in the place of packet 6, and the file is no prefix of the
      original. */
  lemma StaleSlotCorrupts(file: seq<byte>, bufSize: nat, clientSeq: nat) returns (sys: System)
    requires 1 <= bufSize <= MAX_PDU - HEADER_LEN && Job(Split(file, bufSize), bufSize).Wf()
    requires |Split(file, bufSize)| >= 7 && Split(file, bufSize)[2] != Split(file, bufSize)[5]
    ensures Reaches(Initial(file, 3, bufSize, clientSeq), sys, true)
    ensures |sys.r.writes| >= 6 && sys.r.writes[5] == Split(file, bufSize)[2]
    ensures !(Flatten(sys.r.writes) <= file)
  {
    var job := Job(Split(file, bufSize), bufSize);
    var sys0 := AtTheStart(file, 3, bufSize, clientSeq);
    var sys1 := StaleSlotAhead(sys0, job);
    WritesStale(sys1.r, job, sys1.s.ring.current);
    Further(sys0, sys1, ClientFlush, true);
    sys := Do(sys1, ClientFlush);
    SplitJoins(file, bufSize);
    Diverges(sys.r.writes, job.chunks, 5);
  }
}
