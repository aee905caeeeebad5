/** Runs of the two programs from the start, put together step by step. */
module Reaching {
  import opened Checksum
  import opened Pdu
  import opened Ring
  import opened Segmentation
  import opened Transfer
  import opened Events
  import opened Network
  import S = SenderMachine
  import SC = SenderContent
  import R = ReceiverMachine
  import RC = ReceiverContent

  // ------------------------------------------------------------------- runs

  /** Some run leads from `sys0` to `sys`; if `calm`, one in which no old RR slides the window. */
  ghost predicate Reaches(sys0: System, sys: System, calm: bool)
    requires Wf(sys0)
  {
    exists actions :: PossibleRun(sys0, actions) && Run(sys0, actions) == sys && (calm ==> RecentRun(sys0, actions))
  }

  lemma {:induction false} OneMore(sys0: System, actions: seq<Action>, a: Action)
    requires Wf(sys0) && PossibleRun(sys0, actions) && Possible(Run(sys0, actions), a)
    ensures PossibleRun(sys0, actions + [a]) && Run(sys0, actions + [a]) == Do(Run(sys0, actions), a)
    ensures RecentRun(sys0, actions) && Recent(Run(sys0, actions), a) ==> RecentRun(sys0, actions + [a])
    decreases |actions|
  {
    if actions == [] {
      assert [a][1..] == [] && [] + [a] == [a];
    } else {
      assert (actions + [a])[1..] == actions[1..] + [a];
      OneMore(Do(sys0, actions[0]), actions[1..], a);
    }
  }

  /** Reached from `sys0` with nothing gone wrong. */
  ghost predicate On(sys0: System, sys: System, job: Job, calm: bool)
    requires Wf(sys0)
  {
    Reaches(sys0, sys, calm) && Joined(sys, job)
  }

  lemma Further(sys0: System, sys: System, a: Action, calm: bool)
    requires Wf(sys0) && Wf(sys) && Reaches(sys0, sys, calm) && Possible(sys, a) && (calm ==> Recent(sys, a))
    ensures Reaches(sys0, Do(sys, a), calm)
  {
    var actions :| PossibleRun(sys0, actions) && Run(sys0, actions) == sys && (calm ==> RecentRun(sys0, actions));
    OneMore(sys0, actions, a);
  }

  lemma Onward(sys0: System, sys: System, job: Job, a: Action, calm: bool) returns (sys': System)
    requires Wf(sys0) && On(sys0, sys, job, calm) && Possible(sys, a) && Allowed(sys, job, a)
    requires calm ==> Recent(sys, a)
    ensures sys' == Do(sys, a) && On(sys0, sys', job, calm)
  {
    sys' := Do(sys, a);
    Further(sys0, sys, a, calm);
    StepJoinedIff(sys, job, a);
  }

  /** Nothing sent or received yet. */
  ghost predicate Fresh(sys: System) {
    && sys.s.phase == S.SendData && !sys.s.finished && sys.s.retry == 0 && sys.s.sent == []
    && sys.s.seqNum == sys.s.ring.lower == sys.s.ring.current == 1 && sys.s.finalSeq == 0 && sys.s.eofRetry == 0
    && sys.r.phase == R.RecvData && sys.r.expected == 1 && sys.r.finalSeq == 0 && sys.r.sent == []
  }

  lemma AtTheStart(file: seq<byte>, size: nat, bufSize: nat, clientSeq: nat) returns (sys0: System)
    requires size >= 1 && 1 <= bufSize <= MAX_PDU - HEADER_LEN && Job(Split(file, bufSize), bufSize).Wf()
    ensures sys0 == Initial(file, size, bufSize, clientSeq)
    ensures On(sys0, sys0, Job(Split(file, bufSize), bufSize), true)
    ensures Fresh(sys0) && sys0.s.ring.size == size
  {
    sys0 := Initial(file, size, bufSize, clientSeq);
    InitialJoined(file, size, bufSize, clientSeq);
    assert PossibleRun(sys0, []) && Run(sys0, []) == sys0 && RecentRun(sys0, []);
  }

  /** A calm run is a run. */
  lemma Forget(sys0: System, sys: System, job: Job)
    requires Wf(sys0) && On(sys0, sys, job, true)
    ensures On(sys0, sys, job, false)
  {
  }

  lemma TwoSteps(sys: System, a: Action, b: Action)
    requires Wf(sys) && Possible(sys, a) && Possible(Do(sys, a), b)
    ensures PossibleRun(sys, [a, b]) && Run(sys, [a, b]) == Do(Do(sys, a), b)
  {
    var sys1 := Do(sys, a);
    assert [a, b][1..] == [b] && [b][1..] == [];
    assert Run(sys1, [b]) == Run(Do(sys1, b), []);
  }

  lemma BothSteps(sys0: System, sys: System, a: Action, b: Action, calm: bool) returns (sys': System)
    requires Wf(sys0) && Wf(sys) && Reaches(sys0, sys, calm) && PossibleRun(sys, [a, b])
    requires calm ==> Recent(sys, a) && !b.ServerPoll?
    ensures sys' == Run(sys, [a, b]) && Reaches(sys0, sys', calm)
  {
    assert [a, b][1..] == [b];
    Further(sys0, sys, a, calm);
    Further(sys0, Do(sys, a), b, calm);
    TwoSteps(sys, a, b);
    sys' := Run(sys, [a, b]);
  }

  // ------------------------------------------------------------------- the server's steps

  lemma ChunkGoesOut(s: S.Sender, job: Job)
    requires SC.Sound(s, job) && s.phase == S.SendData && !s.ring.Full() && s.seqNum <= job.Count()
    ensures var s', d := S.SendDataStep(s, 0), Sealed(s.seqNum, DATA, job.Chunk(s.seqNum));
            && s'.phase == S.SendData && s'.sent == s.sent + [d] && SeqOf(d) == s.seqNum && FlagOf(d) == DATA
            && s'.seqNum == s.seqNum + 1 && s'.ring.current == s.ring.current + 1
            && s'.ring.lower == s.ring.lower && s'.finished == s.finished && s'.retry == s.retry
            && s'.eofRetry == s.eofRetry
            && (s.seqNum < job.Count() ==> s'.finalSeq == s.finalSeq)
  {
    SC.ReadStep(s, job);
    ChunkLength(job, s.seqNum);
    SealedDecodes(s.seqNum, DATA, job.Chunk(s.seqNum));
  }

  lemma SendsChunk(sys0: System, sys: System, job: Job, calm: bool) returns (sys': System, d: seq<byte>)
    requires Wf(sys0) && On(sys0, sys, job, calm) && sys.s.phase == S.SendData && !sys.s.ring.Full()
    requires sys.s.seqNum <= job.Count()
    ensures On(sys0, sys', job, calm) && sys'.r == sys.r && sys'.s.phase == S.SendData
    ensures sys'.s.sent == sys.s.sent + [d]
    ensures |d| >= HEADER_LEN && SeqOf(d) == sys.s.seqNum && FlagOf(d) == DATA
    ensures sys'.s.seqNum == sys.s.seqNum + 1 && sys'.s.ring.current == sys.s.ring.current + 1
    ensures sys'.s.ring.lower == sys.s.ring.lower && sys'.s.ring.size == sys.s.ring.size
    ensures sys'.s.finished == sys.s.finished && sys'.s.retry == sys.s.retry && sys'.s.eofRetry == sys.s.eofRetry
    ensures sys.s.seqNum < job.Count() ==> sys'.s.finalSeq == sys.s.finalSeq
  {
    d := Sealed(sys.s.seqNum, DATA, job.Chunk(sys.s.seqNum));
    ChunkGoesOut(sys.s, job);
    sys' := Onward(sys0, sys, job, ServerTurn(0), calm);
  }

  lemma Waits(sys0: System, sys: System, job: Job, calm: bool) returns (sys': System)
    requires Wf(sys0) && On(sys0, sys, job, calm) && sys.s.phase == S.SendData && sys.s.ring.Full()
    ensures On(sys0, sys', job, calm) && sys' == sys.(s := sys.s.(phase := S.WaitOnAck))
  {
    sys' := Onward(sys0, sys, job, ServerTurn(0), calm);
  }

  /** The last packet that fits into the window, and the wait that follows. */
  lemma SendsAndWaits(sys0: System, sys: System, job: Job, calm: bool) returns (sys': System, d: seq<byte>)
    requires Wf(sys0) && On(sys0, sys, job, calm) && sys.s.phase == S.SendData
    requires sys.s.ring.current + 1 == sys.s.ring.upper && sys.s.seqNum <= job.Count()
    ensures On(sys0, sys', job, calm) && sys'.r == sys.r && sys'.s.phase == S.WaitOnAck
    ensures sys'.s.sent == sys.s.sent + [d]
    ensures |d| >= HEADER_LEN && SeqOf(d) == sys.s.seqNum && FlagOf(d) == DATA
    ensures sys'.s.seqNum == sys.s.seqNum + 1 && sys'.s.ring.current == sys.s.ring.current + 1
    ensures sys'.s.ring.lower == sys.s.ring.lower && sys'.s.ring.size == sys.s.ring.size
    ensures sys'.s.finished == sys.s.finished && sys'.s.retry == sys.s.retry
    ensures sys.s.seqNum < job.Count() ==> sys'.s.finalSeq == sys.s.finalSeq
  {
    var sys1, e := SendsChunk(sys0, sys, job, calm);
    d := e;
    sys' := Waits(sys0, sys1, job, calm);
  }

  lemma SendsEof(sys0: System, sys: System, job: Job, junk: byte, calm: bool) returns (sys': System)
    requires Wf(sys0) && On(sys0, sys, job, calm) && sys.s.phase == S.SendData && !sys.s.ring.Full()
    requires sys.s.seqNum == job.Eof() && !sys.s.finished
    ensures On(sys0, sys', job, calm) && sys'.r == sys.r && sys'.s.phase == S.WaitOnAck && sys'.s.finished
    ensures sys'.s.ring.current == sys.s.ring.current + 1 && sys'.s.ring.lower == sys.s.ring.lower
    ensures sys'.s.ring.size == sys.s.ring.size
    ensures sys'.s.seqNum == sys.s.seqNum && sys'.s.retry == sys.s.retry && sys.s.sent <= sys'.s.sent
  {
    SC.ReadStep(sys.s, job);
    sys' := Onward(sys0, sys, job, ServerTurn(junk), calm);
  }

  lemma TimesOut(sys0: System, sys: System, job: Job, calm: bool) returns (sys': System)
    requires Wf(sys0) && On(sys0, sys, job, calm) && sys.s.phase == S.WaitOnAck && sys.s.retry == 0
    ensures On(sys0, sys', job, calm) && sys' == sys.(s := sys.s.(phase := S.TimeoutOnAck, retry := 1))
  {
    sys' := Onward(sys0, sys, job, ServerPoll(Timeout), calm);
  }

  /** A timeout resends the data packet `t` in the slot of `lower`. */
  lemma Resends(sys0: System, sys: System, job: Job, t: nat, calm: bool) returns (sys': System, d: seq<byte>)
    requires Wf(sys0) && On(sys0, sys, job, calm) && sys.s.phase == S.TimeoutOnAck
    requires sys.s.ring.lower < sys.s.ring.current && SeqOf(sys.s.ring.At(sys.s.ring.lower).packet) == t
    requires 1 <= t <= job.Count()
    ensures On(sys0, sys', job, calm) && sys'.r == sys.r && sys'.s.sent == sys.s.sent + [d]
    ensures |d| >= HEADER_LEN && SeqOf(d) == t && FlagOf(d) == DATA_TIMEOUT
  {
    var len := SC.TimeoutIsResent(sys.s, job);
    SC.ResentSound(sys.s, job, sys.s.ring.lower, len, DATA_TIMEOUT, S.WaitOnAck);
    d := Sealed(t, DATA_TIMEOUT, job.Chunk(t));
    SealedDecodes(t, DATA_TIMEOUT, job.Chunk(t));
    sys' := Onward(sys0, sys, job, ServerTurn(0), calm);
  }

  /** What a control packet of the client says, and that the server may be handed it. */
  lemma OfTheClient(sys: System, job: Job, c: R.Control)
    requires Joined(sys, job) && c in sys.r.sent
    ensures var d := R.Wire(c);
            && |d| == HEADER_LEN + 4 && Verifies(d) && FlagOf(d) == c.flag && ValueOf(d) == c.value
            && FromClient(sys, Arrive(d)) && S.SizedAck(Arrive(d))
  {
    var k :| 0 <= k < |sys.r.sent| && sys.r.sent[k] == c;
    assert ControlOk(sys.r.sent[k], sys.r.expected, sys.s.ring.current);
    ControlDecodes(c.clientSeq, c.flag, c.value);
  }

  lemma ServerSlides(sys0: System, sys: System, job: Job, c: R.Control, calm: bool) returns (sys': System)
    requires Wf(sys0) && On(sys0, sys, job, calm) && sys.s.phase == S.WaitOnAck && sys.s.retry == 0
    requires c in sys.r.sent && c.flag == RR && 1 < c.value < job.Eof()
    requires calm ==> sys.s.ring.current <= c.value + sys.s.ring.size
    ensures On(sys0, sys', job, calm) && sys'.r == sys.r
    ensures sys'.s == sys.s.(phase := S.SendData, ring := sys.s.ring.Slide(c.value).Remove(c.value))
  {
    OfTheClient(sys, job, c);
    sys' := Onward(sys0, sys, job, ServerPoll(Arrive(R.Wire(c))), calm);
  }

  // ------------------------------------------------------------------- the client's steps

  lemma OfTheServer(sys: System, job: Job, d: seq<byte>)
    requires Joined(sys, job) && d in sys.s.sent
    ensures Sized(Arrive(d)) && Verifies(d) && FromServer(sys, Arrive(d)) && Genuine(job, d)
  {
    var k :| 0 <= k < |sys.s.sent| && sys.s.sent[k] == d;
    assert SC.OnTheWire(job, sys.s.sent[k], sys.s.ring.current);
  }

  lemma TakesInOrder(r: R.Receiver, job: Job, d: seq<byte>)
    requires r.Wf() && RC.NotesOk(r, job) && job.Wf() && r.phase == R.RecvData && Sized(Arrive(d)) && Verifies(d)
    requires SeqOf(d) == r.expected && FlagOf(d) == DATA && Genuine(job, d)
    ensures var r' := R.RecvDataStep(r, Arrive(d));
            && r'.phase == R.RecvData && r'.expected == r.expected + 1 && r'.ring == r.ring
            && r'.sent == r.sent + [R.Control(r.clientSeq, RR, r.expected + 1)]
            && (SeqOf(d) < job.Count() ==> r'.finalSeq == r.finalSeq)
  {
    ChunkLength(job, SeqOf(d));
  }

  lemma ClientTakes(sys0: System, sys: System, job: Job, d: seq<byte>, calm: bool) returns (sys': System)
    requires Wf(sys0) && On(sys0, sys, job, calm) && sys.r.phase == R.RecvData
    requires d in sys.s.sent && |d| >= HEADER_LEN && SeqOf(d) == sys.r.expected && FlagOf(d) == DATA
    ensures On(sys0, sys', job, calm) && sys'.s == sys.s && sys'.r.phase == R.RecvData
    ensures sys'.r.expected == sys.r.expected + 1 && sys'.r.ring == sys.r.ring
    ensures sys'.r.sent == sys.r.sent + [R.Control(sys.r.clientSeq, RR, sys.r.expected + 1)]
    ensures SeqOf(d) < job.Count() ==> sys'.r.finalSeq == sys.r.finalSeq
  {
    OfTheServer(sys, job, d);
    TakesInOrder(sys.r, job, d);
    sys' := Onward(sys0, sys, job, ClientPoll(Arrive(d)), calm);
    assert sys'.r == R.RecvDataStep(sys.r, Arrive(d));
  }

  lemma TakesAhead(r: R.Receiver, d: seq<byte>)
    requires r.Wf() && r.phase == R.RecvData && Sized(Arrive(d)) && Verifies(d) && SeqOf(d) > r.expected
    ensures var r', s := R.RecvDataStep(r, Arrive(d)), SeqOf(d);
            && r'.phase == R.Buffer && r'.expected == r.expected && r'.highest == s
            && r'.sent == r.sent + [R.Control(r.clientSeq, SREJ, r.expected)]
            && r'.ring == r.ring.Add(s, d) && r'.ring.At(s).seqNum == s && r'.ring.IsValid(s)
            && (forall t: nat :: t != s && t < s + r.ring.size && s < t + r.ring.size ==> r'.ring.At(t) == r.ring.At(t))
            && (FlagOf(d) != DATA ==> r'.finalSeq == r.finalSeq)
  {
    PutFrame(r.ring, SeqOf(d), Slot(SeqOf(d), true, Overlay(d, r.ring.At(SeqOf(d)).packet)));
  }

  lemma ClientBuffers(sys0: System, sys: System, job: Job, d: seq<byte>, calm: bool) returns (sys': System)
    requires Wf(sys0) && On(sys0, sys, job, calm) && sys.r.phase == R.RecvData
    requires d in sys.s.sent && |d| >= HEADER_LEN && SeqOf(d) > sys.r.expected
    ensures On(sys0, sys', job, calm) && sys'.s == sys.s && Sized(Arrive(d)) && Verifies(d)
    ensures sys'.r == R.RecvDataStep(sys.r, Arrive(d))
  {
    OfTheServer(sys, job, d);
    sys' := Onward(sys0, sys, job, ClientPoll(Arrive(d)), calm);
  }

  /** The packet that closes the hole. */
  lemma TakesHole(r: R.Receiver, d: seq<byte>)
    requires r.Wf() && r.phase == R.Buffer && Sized(Arrive(d)) && Verifies(d) && SeqOf(d) == r.expected
    ensures var r', s := R.BufferStep(r, Arrive(d)), SeqOf(d);
            && r'.phase == R.Flush && r'.expected == s + 1 && r'.highest == r.highest && r'.sent == r.sent
            && r'.ring.size == r.ring.size
            && (forall t: nat :: t != s && t < s + r.ring.size && s < t + r.ring.size ==> r'.ring.At(t) == r.ring.At(t))
  {
    PutFrame(r.ring, SeqOf(d), r.ring.At(SeqOf(d)).(valid := false));
  }

  lemma ClientCloses(sys0: System, sys: System, job: Job, d: seq<byte>, calm: bool) returns (sys': System)
    requires Wf(sys0) && On(sys0, sys, job, calm) && sys.r.phase == R.Buffer
    requires d in sys.s.sent && |d| >= HEADER_LEN && SeqOf(d) == sys.r.expected
    ensures On(sys0, sys', job, calm) && sys'.s == sys.s && Sized(Arrive(d)) && Verifies(d) && Genuine(job, d)
    ensures sys'.r == R.BufferStep(sys.r, Arrive(d))
  {
    OfTheServer(sys, job, d);
    sys' := Onward(sys0, sys, job, ClientPoll(Arrive(d)), calm);
  }

  /** A repeated packet makes the client leave BUFFER with its slots still in use. */
  lemma ClientFallsBack(sys0: System, sys: System, job: Job, d: seq<byte>, calm: bool) returns (sys': System)
    requires Wf(sys0) && On(sys0, sys, job, calm) && sys.r.phase == R.Buffer
    requires d in sys.s.sent && |d| >= HEADER_LEN && SeqOf(d) < sys.r.expected
    ensures On(sys0, sys', job, calm) && sys'.s == sys.s && sys'.r.phase == R.RecvData
    ensures sys'.r.expected == sys.r.expected && sys'.r.ring == sys.r.ring
  {
    OfTheServer(sys, job, d);
    sys' := Onward(sys0, sys, job, ClientPoll(Arrive(d)), calm);
  }
}
