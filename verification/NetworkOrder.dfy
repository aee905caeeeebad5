/** The joined system while no old RR slides the window: the server then guarantees what the
    client's ring needs, and of the client's troubles only disordered arrivals remain. */
module NetworkOrder {
  import opened Checksum
  import opened Pdu
  import opened Ring
  import opened Segmentation
  import opened Transfer
  import opened Events
  import opened Network
  import S = SenderMachine
  import SC = SenderContent
  import R = ReceiverMachine
  import RO = ReceiverOrder
  import RC = ReceiverContent
  import ReceiverRing

  // ------------------------------------------------------------------- the short last packet

  /** The packets from the n-th on that carry the number of the last one have the DATA flag. */
  ghost predicate LastPlain(sent: seq<seq<byte>>, n: nat, job: Job) {
    forall k :: n <= k < |sent| && |sent[k]| >= HEADER_LEN && SeqOf(sent[k]) == job.Count() ==> FlagOf(sent[k]) == DATA
  }

  /** The window is in order; a short last packet has been sent only under the DATA flag as long as
      the client expects an earlier one, and the client has noted its length before storing it. */
  ghost predicate Timely(sys: System, job: Job) {
    && Joined(sys, job) && SC.InWindow(sys.s.ring)
    && RC.LastNoted(sys.r, job)
    && (job.EndsShort() && sys.r.expected < job.Count() ==> LastPlain(sys.s.sent, 0, job))
  }

  lemma OneMorePlain(sent: seq<seq<byte>>, d: seq<byte>, job: Job)
    requires |d| >= HEADER_LEN && (SeqOf(d) == job.Count() ==> FlagOf(d) == DATA)
    ensures LastPlain(sent + [d], |sent|, job)
  {
  }

  lemma PlainSoFar(sent: seq<seq<byte>>, sent': seq<seq<byte>>, job: Job)
    requires LastPlain(sent, 0, job) && sent <= sent' && LastPlain(sent', |sent|, job)
    ensures LastPlain(sent', 0, job)
  {
    forall k | 0 <= k < |sent'| && |sent'[k]| >= HEADER_LEN && SeqOf(sent'[k]) == job.Count()
      ensures FlagOf(sent'[k]) == DATA
    {
      if k < |sent| { assert sent'[k] == sent[k]; }
    }
  }

  lemma SendDataPlain(sys: System, job: Job, junk: byte)
    requires Joined(sys, job) && sys.s.phase == S.SendData
    ensures var s' := S.SendDataStep(sys.s, junk); sys.s.sent <= s'.sent && LastPlain(s'.sent, |sys.s.sent|, job)
  {
    var s := sys.s;
    SC.ReadStep(s, job);
    if !s.ring.Full() && s.rest != [] {
      SealedDecodes(s.seqNum, DATA, job.Chunk(s.seqNum));
      OneMorePlain(s.sent, Sealed(s.seqNum, DATA, job.Chunk(s.seqNum)), job);
    } else if !s.ring.Full() && !s.finished {
      SealedDecodes(s.seqNum, END_OF_FILE, [junk]);
      OneMorePlain(s.sent, Sealed(s.seqNum, END_OF_FILE, [junk]), job);
    }
  }

  /** A timeout resends the packet of `lower`, which the client does not expect any later. */
  lemma TimeoutPlain(sys: System, job: Job)
    requires Joined(sys, job) && SC.InWindow(sys.s.ring) && sys.s.phase == S.TimeoutOnAck
    requires sys.r.expected < job.Count()
    ensures var s' := S.TimeoutStep(sys.s); sys.s.sent <= s'.sent && LastPlain(s'.sent, |sys.s.sent|, job)
    ensures Allowed(sys, job, ServerTurn(0))
  {
    var q := sys.s.ring.lower;
    assert q < sys.s.ring.current && q < job.Count();
    var t := SC.Occupant(sys.s, job, q);
    SC.TimeoutSound(sys.s, job);
    SealedDecodes(q, DATA_TIMEOUT, job.Chunk(q));
    OneMorePlain(sys.s.sent, Sealed(q, DATA_TIMEOUT, job.Chunk(q)), job);
  }

  lemma EofPlain(sys: System, job: Job)
    requires Joined(sys, job) && sys.s.phase == S.WaitOnEofAck
    ensures var s' := S.EofSendStep(sys.s); sys.s.sent <= s'.sent && LastPlain(s'.sent, |sys.s.sent|, job)
  {
    var s' := S.EofSendStep(sys.s);
    SC.EofSendSound(sys.s, job);
    if |s'.sent| > |sys.s.sent| {
      var d := s'.sent[|sys.s.sent|];
      SC.LastIsGenuine(s', job);
      assert Genuine(job, d) && FlagOf(d) == END_OF_FILE;
      OneMorePlain(sys.s.sent, d, job);
    }
  }

  /** An SREJ names a packet the client has asked for, whose slot, if it may be resent at all, does
      not hold a short last packet. */
  lemma SrejPlain(sys: System, job: Job, srej: nat)
    requires Joined(sys, job) && sys.s.phase == S.WaitOnAck && job.EndsShort() && sys.r.expected < job.Count()
    requires 1 <= srej <= sys.r.expected && srej + 1 < sys.s.ring.current
    requires SC.RewriteOk(sys.s, job, srej, sys.s.LenOf(srej))
    ensures var s' := S.SrejStep(sys.s.(retry := 0), srej);
            sys.s.sent <= s'.sent && LastPlain(s'.sent, |sys.s.sent|, job)
  {
    var s := sys.s.(retry := 0);
    SC.StaysSound(sys.s, job, s);
    SC.SrejIsResent(s, job, srej);
    ChunkLength(job, srej);
    ChunkLength(job, job.Count());
    var d := S.Rewritten(s.ring.At(srej).packet, SREJ_RETRAN, s.LenOf(srej))[..s.LenOf(srej)];
    SC.RewrittenNumber(s.ring.At(srej).packet, SREJ_RETRAN, s.LenOf(srej));
    OneMorePlain(s.sent, d, job);
  }

  lemma WaitPlain(sys: System, job: Job, e: Event)
    requires Joined(sys, job) && sys.s.phase == S.WaitOnAck && job.EndsShort() && sys.r.expected < job.Count()
    requires Possible(sys, ServerPoll(e)) && Allowed(sys, job, ServerPoll(e))
    ensures var s' := S.WaitOnAckStep(sys.s, e); sys.s.sent <= s'.sent && LastPlain(s'.sent, |sys.s.sent|, job)
  {
    if e.Arrive? && Verifies(e.datagram) {
      AckDecodes(sys, job, e.datagram);
      if Answers(sys, e) { SrejPlain(sys, job, ValueOf(e.datagram)); }
    }
  }

  /** What a step of the server adds. */
  lemma ServerPlain(sys: System, job: Job, a: Action)
    requires Timely(sys, job) && job.EndsShort() && sys.r.expected < job.Count()
    requires (a.ServerTurn? || a.ServerPoll?) && Possible(sys, a) && Allowed(sys, job, a)
    ensures LastPlain(Do(sys, a).s.sent, 0, job)
  {
    match a
    case ServerTurn(junk) =>
      if sys.s.phase == S.SendData {
        SendDataPlain(sys, job, junk);
      } else if sys.s.phase == S.TimeoutOnAck {
        TimeoutPlain(sys, job);
      } else {
        EofPlain(sys, job);
      }
      PlainSoFar(sys.s.sent, Do(sys, a).s.sent, job);
    case ServerPoll(e) =>
      if sys.s.phase == S.WaitOnAck { WaitPlain(sys, job, e); }
      PlainSoFar(sys.s.sent, Do(sys, a).s.sent, job);
  }

  /** As long as the system is timely, a short last packet comes ahead of its turn only under the
      DATA flag. */
  lemma ArrivesUnderData(sys: System, job: Job, e: Event)
    requires Timely(sys, job) && Possible(sys, ClientPoll(e))
    ensures RC.LastUnderData(sys.r, job, e)
  {
    if e.Arrive? && Verifies(e.datagram) {
      ServerPacketIsGenuine(sys, job, e.datagram);
      HandshakeIsGenuine(job);
    }
  }

  /** All a step needs but the noted length: the server's slots are as expected, and so are the
      numbers in the slots flush reads. */
  ghost predicate AllowedButLength(sys: System, job: Job, a: Action)
    requires Wf(sys) && Possible(sys, a)
  {
    if a.ClientFlush? then RC.FlushNumbersOk(sys.r) else Allowed(sys, job, a)
  }

  /** The invariant is kept, and the length half of the flush condition costs nothing, as long as
      no old RR slides the window. */
  lemma StepTimely(sys: System, job: Job, a: Action)
    requires Timely(sys, job) && Possible(sys, a) && Recent(sys, a) && AllowedButLength(sys, job, a)
    ensures Allowed(sys, job, a) && Timely(Do(sys, a), job)
  {
    match a {
      case ClientPoll(e) =>
        ArrivesUnderData(sys, job, e);
        ClientNotes(sys, job, e);
      case ClientFlush =>
        RC.NumbersSuffice(sys.r, job);
        RC.FlushNotes(sys.r, job);
      case _ =>
        if job.EndsShort() && sys.r.expected < job.Count() { ServerPlain(sys, job, a); }
    }
    StepJoinedIff(sys, job, a);
    StepInWindow(sys, job, a);
    ExpectedGrows(sys, a);
  }

  lemma ExpectedGrows(sys: System, a: Action)
    requires Wf(sys) && RO.Ordered(sys.r) && Possible(sys, a)
    ensures sys.r.expected <= Do(sys, a).r.expected
  {
    match a
    case ClientPoll(e) => RO.StepOrdered(sys.r, e);
    case ClientFlush => RO.FlushOrdered(sys.r);
    case _ =>
  }

  lemma ClientNotes(sys: System, job: Job, e: Event)
    requires Joined(sys, job) && RC.LastNoted(sys.r, job) && Possible(sys, ClientPoll(e))
    requires RC.LastUnderData(sys.r, job, e)
    ensures RC.LastNoted(R.Step(sys.r, e), job)
  {
    FaithfulLater(sys.r, job, sys.s.ring.current, job.Eof() + 1);
    if e.Arrive? && Verifies(e.datagram) { ServerPacketIsGenuine(sys, job, e.datagram); }
    RC.EventNotes(sys.r, job, e);
  }

  lemma InitialTimely(file: seq<byte>, size: nat, bufSize: nat, clientSeq: nat)
    requires size >= 1 && 1 <= bufSize <= MAX_PDU - HEADER_LEN && Job(Split(file, bufSize), bufSize).Wf()
    ensures Timely(Initial(file, size, bufSize, clientSeq), Job(Split(file, bufSize), bufSize))
  {
    InitialJoined(file, size, bufSize, clientSeq);
  }

  ghost predicate AllowedButLengthRun(sys: System, job: Job, actions: seq<Action>)
    requires Wf(sys) && PossibleRun(sys, actions)
    decreases |actions|
  {
    actions != [] ==>
      AllowedButLength(sys, job, actions[0]) && AllowedButLengthRun(Do(sys, actions[0]), job, actions[1..])
  }

  lemma {:induction false} RunTimely(sys: System, job: Job, actions: seq<Action>)
    requires Timely(sys, job) && PossibleRun(sys, actions) && RecentRun(sys, actions)
    requires AllowedButLengthRun(sys, job, actions)
    ensures AllowedRun(sys, job, actions) && Timely(Run(sys, actions), job)
    decreases |actions|
  {
    if actions != [] {
      StepTimely(sys, job, actions[0]);
      RunTimely(Do(sys, actions[0]), job, actions[1..]);
    }
  }

  /** The length of the short last packet can be lost only after an RR older than current - size: in
      a run without one, in which everything but that length is as the programs take it to be, the
      length is too. */
  lemma LengthLostOnlyAfterOldRr(file: seq<byte>, size: nat, bufSize: nat, clientSeq: nat, actions: seq<Action>)
    requires size >= 1 && 1 <= bufSize <= MAX_PDU - HEADER_LEN && Job(Split(file, bufSize), bufSize).Wf()
    requires var job, sys := Job(Split(file, bufSize), bufSize), Initial(file, size, bufSize, clientSeq);
             PossibleRun(sys, actions) && RecentRun(sys, actions) && AllowedButLengthRun(sys, job, actions)
    ensures AllowedRun(Initial(file, size, bufSize, clientSeq), Job(Split(file, bufSize), bufSize), actions)
  {
    InitialTimely(file, size, bufSize, clientSeq);
    RunTimely(Initial(file, size, bufSize, clientSeq), Job(Split(file, bufSize), bufSize), actions);
  }

  // ------------------------------------------------------------------- orderly arrivals

  /** No old RR slides the window, the slots the server rewrites are as it expects, and no arrival
      is disordered: nothing is asked of the windows, the flags or the client's slots. */
  ghost predicate Orderly(sys: System, job: Job, a: Action)
    requires Wf(sys) && Possible(sys, a)
  {
    && Recent(sys, a)
    && (a.ServerTurn? || a.ServerPoll? ==> Allowed(sys, job, a))
    && (a.ClientPoll? && a.e.Arrive? && Verifies(a.e.datagram) ==> !ReceiverRing.Disordered(sys.r, a.e.datagram))
  }

  ghost predicate OrderlyRun(sys: System, job: Job, actions: seq<Action>)
    requires Wf(sys) && PossibleRun(sys, actions)
    decreases |actions|
  {
    actions != [] ==> Orderly(sys, job, actions[0]) && OrderlyRun(Do(sys, actions[0]), job, actions[1..])
  }

  /** The windows overlap, so what arrives is in the client's window. */
  lemma ArrivesInWindow(sys: System, job: Job, e: Event)
    requires Joined(sys, job) && SC.InWindow(sys.s.ring) && Possible(sys, ClientPoll(e))
    requires e.Arrive? && Verifies(e.datagram)
    ensures SeqOf(e.datagram) < sys.r.expected + sys.r.ring.size
  {
    ServerPacketIsGenuine(sys, job, e.datagram);
  }

  lemma StepOrderly(sys: System, m: ReceiverRing.Held, job: Job, a: Action) returns (m': ReceiverRing.Held)
    requires Timely(sys, job) && ReceiverRing.Tidy(sys.r, m) && Possible(sys, a) && Orderly(sys, job, a)
    ensures Allowed(sys, job, a) && Timely(Do(sys, a), job) && ReceiverRing.Tidy(Do(sys, a).r, m')
  {
    m' := m;
    match a {
      case ClientPoll(e) =>
        if e.Arrive? && Verifies(e.datagram) { ArrivesInWindow(sys, job, e); }
        ReceiverRing.StepTidy(sys.r, m, e);
        m' := ReceiverRing.HeldBefore(sys.r, m, e);
      case ClientFlush =>
        RC.TidyNumbersOk(sys.r, m);
        ReceiverRing.FlushTidy(sys.r, m);
        m' := ReceiverRing.Ahead(m, R.FlushStep(sys.r).expected);
      case _ =>
    }
    StepTimely(sys, job, a);
  }

  lemma {:induction false} RunOrderly(sys: System, m: ReceiverRing.Held, job: Job, actions: seq<Action>)
    requires Timely(sys, job) && ReceiverRing.Tidy(sys.r, m)
    requires PossibleRun(sys, actions) && OrderlyRun(sys, job, actions)
    ensures AllowedRun(sys, job, actions) && RecentRun(sys, actions)
    decreases |actions|
  {
    if actions != [] {
      var m' := StepOrderly(sys, m, job, actions[0]);
      RunOrderly(Do(sys, actions[0]), m', job, actions[1..]);
    }
  }

  /** End-to-end safety from what the network does to the arrivals: in every run without an old RR
      or a disordered arrival, in which the server's rewrites are good, every read of flush is good
      too, the client's file is a prefix of the server's, equal to it when finished, and the two
      windows overlap. */
  lemma OrderlyEndToEnd(file: seq<byte>, size: nat, bufSize: nat, clientSeq: nat, actions: seq<Action>)
    requires size >= 1 && 1 <= bufSize <= MAX_PDU - HEADER_LEN && Job(Split(file, bufSize), bufSize).Wf()
    requires var job, sys := Job(Split(file, bufSize), bufSize), Initial(file, size, bufSize, clientSeq);
             PossibleRun(sys, actions) && OrderlyRun(sys, job, actions)
    ensures var job, sys := Job(Split(file, bufSize), bufSize), Initial(file, size, bufSize, clientSeq);
            var sys' := Run(sys, actions);
            && AllowedRun(sys, job, actions) && Safe(sys', job, file)
            && sys'.s.ring.current <= sys'.s.ring.lower + sys'.s.ring.size
  {
    var job, sys := Job(Split(file, bufSize), bufSize), Initial(file, size, bufSize, clientSeq);
    InitialTimely(file, size, bufSize, clientSeq);
    ReceiverRing.StartTidy(size, bufSize, clientSeq);
    RunOrderly(sys, map[], job, actions);
    EndToEndSafety(file, size, bufSize, clientSeq, actions);
    WindowsOverlap(file, size, bufSize, clientSeq, actions);
  }
}
