/** What the sender keeps: its window, the packets in its slots, and what it puts on the wire. */
module SenderContent {
  import opened Checksum
  import opened Pdu
  import opened Modular
  import opened Ring
  import opened Segmentation
  import opened Transfer
  import opened Events
  import opened SenderMachine

  // ------------------------------------------------------------------- every trace

  /** Holds on every trace, whatever the acknowledgements say: `current` is the number of the
      next packet, and the sender waits only with the window full or the end of file sent. */
  ghost predicate Steady(s: Sender) {
    && s.Wf()
    && s.ring.upper == s.ring.lower + s.ring.size
    && s.ring.current == s.seqNum + (if s.finished then 1 else 0)
    && (s.phase == WaitOnAck || s.phase == TimeoutOnAck ==> s.ring.Full() || s.finished)
    && (s.finished ==> s.rest == [])
    && s.retry <= MAX_RETRANS + 1 && s.eofRetry <= MAX_RETRANS
    && (!Over(s) ==> s.retry <= MAX_RETRANS)
    && (s.phase == EofPoll ==> s.eofRetry < MAX_RETRANS)
  }

  /** processSelect polls without waiting only when the window is open and the file unfinished. */
  predicate ZeroWait(s: Sender) {
    s.phase == WaitOnAck && !s.ring.Full() && !s.finished
  }

  lemma SendDataSteady(s: Sender, junk: byte)
    requires Steady(s) && s.phase == SendData
    ensures Steady(SendDataStep(s, junk))
  {
  }

  lemma InnerSteady(s: Sender, junk: byte)
    requires Steady(s) && !Waiting(s)
    ensures Steady(Inner(s, junk))
  {
    if s.phase == SendData { SendDataSteady(s, junk); }
  }

  lemma SrejSteady(s: Sender, srej: nat)
    requires Steady(s) && !Over(s)
    ensures Steady(SrejStep(s, srej))
  {
  }

  /** No step makes the sender poll without waiting. */
  lemma OuterSteady(s: Sender, e: Event)
    requires Steady(s) && Waiting(s) && SizedAck(e)
    ensures Steady(Outer(s, e)) && !ZeroWait(s) && !ZeroWait(Outer(s, e))
  {
    if s.phase == WaitOnAck && s.retry < MAX_RETRANS
       && e.Arrive? && Verifies(e.datagram) && FlagOf(e.datagram) == SREJ {
      SrejSteady(s.(retry := 0), ValueOf(e.datagram));
    }
  }

  // ------------------------------------------------------------------- contents

  /** The slot that answers for `q` holds packet `q`, under one of the flags it may carry. */
  ghost predicate Holds(w: Ring, job: Job, q: nat)
    requires w.Wf()
  {
    var p := w.At(q).packet;
    && 1 <= q <= job.Eof()
    && (q <= job.Count() ==>
          && HEADER_LEN + |job.Chunk(q)| <= MAX_PDU
          && IsDataFlag(FlagOf(p)) && p[..HEADER_LEN + |job.Chunk(q)|] == Sealed(q, FlagOf(p), job.Chunk(q)))
    && (q == job.Eof() ==> p[..HEADER_LEN + 1] == Sealed(q, END_OF_FILE, p[HEADER_LEN..HEADER_LEN + 1]))
  }

  /** The last `size` packets sent are still in their slots. */
  ghost predicate Own(w: Ring, job: Job)
    requires w.Wf()
  {
    forall q: nat :: 1 <= q < w.current <= q + w.size ==> Holds(w, job, q)
  }

  ghost predicate InWindow(w: Ring) {
    1 <= w.lower <= w.current <= w.upper == w.lower + w.size
  }

  /** The short last packet's length is known as soon as it has been read. */
  ghost predicate LengthsOk(s: Sender, job: Job) {
    && (s.finalSeq == 0 || (job.EndsShort() && s.finalSeq == job.Count()
                            && s.finalLen == HEADER_LEN + |job.Chunk(job.Count())|))
    && (s.seqNum == job.Eof() && job.EndsShort() ==> s.finalSeq == job.Count())
  }

  /** Packet `d` belongs to the transfer and has been numbered below `cap`. */
  ghost predicate OnTheWire(job: Job, d: seq<byte>, cap: nat) {
    Genuine(job, d) && 1 <= SeqOf(d) < cap
  }

  /** The sender invariant: the unread rest of the file is chunks seqNum, seqNum+1, ..., the
      last `size` packets are in their slots, and all that was ever sent is genuine. It says
      nothing about the upper bound of the window, which an old RR can move below `current`. */
  ghost predicate Sound(s: Sender, job: Job) {
    && Steady(s) && job.Wf() && s.bufSize == job.bufSize
    && 1 <= s.seqNum <= job.Eof()
    && Split(s.rest, s.bufSize) == job.chunks[s.seqNum - 1..]
    && (if s.finished then s.lastSeq == job.Eof() == s.seqNum && s.eofLen == HEADER_LEN + 1 else s.eofLen == 0)
    && LengthsOk(s, job)
    && 1 <= s.ring.lower <= s.ring.current
    && Own(s.ring, job)
    && forall k :: 0 <= k < |s.sent| ==> OnTheWire(job, s.sent[k], s.ring.current)
  }

  /** Changes of state and retry counts alone keep the invariant. */
  lemma StaysSound(s: Sender, job: Job, s': Sender)
    requires Sound(s, job) && Steady(s')
    requires s' == s.(phase := s'.phase, retry := s'.retry, eofRetry := s'.eofRetry)
    ensures Sound(s', job)
  {
  }

  // ------------------------------------------------------------------- send_data

  lemma SealedIsGenuine(job: Job, q: nat, flag: byte)
    requires job.Wf() && 1 <= q <= job.Count() && IsDataFlag(flag)
    ensures OnTheWire(job, Sealed(q, flag, job.Chunk(q)), q + 1)
  {
    SealedDecodes(q, flag, job.Chunk(q));
    ChunkLength(job, q);
  }

  lemma EofIsGenuine(job: Job, junk: byte)
    requires job.Wf()
    ensures OnTheWire(job, Sealed(job.Eof(), END_OF_FILE, [junk]), job.Eof() + 1)
  {
    SealedDecodes(job.Eof(), END_OF_FILE, [junk]);
  }

  /** Adding packet `current` and advancing keeps the older packets in their slots. */
  lemma AddKeepsOwn(w: Ring, job: Job, packet: seq<byte>)
    requires w.Wf() && Own(w, job) && |packet| <= MAX_PDU
    requires Holds(w.Add(w.current, packet), job, w.current)
    ensures Own(w.Add(w.current, packet).CurUpdate(), job)
  {
    var w' := w.Add(w.current, packet).CurUpdate();
    PutFrame(w, w.current, Slot(w.current, true, Overlay(packet, w.At(w.current).packet)));
    forall q: nat | 1 <= q < w'.current <= q + w'.size
      ensures Holds(w', job, q)
    {
      if q == w.current {
        assert w'.At(q) == w.Add(w.current, packet).At(q);
      } else {
        assert Holds(w, job, q) && w'.At(q) == w.At(q);
      }
    }
  }

  lemma AddedHolds(w: Ring, job: Job, q: nat, flag: byte)
    requires w.Wf() && job.Wf() && 1 <= q <= job.Count() && IsDataFlag(flag)
    ensures |Sealed(q, flag, job.Chunk(q))| <= MAX_PDU && Holds(w.Add(q, Sealed(q, flag, job.Chunk(q))), job, q)
  {
    ChunkLength(job, q);
    var p := Sealed(q, flag, job.Chunk(q));
    SealedDecodes(q, flag, job.Chunk(q));
    PutFrame(w, q, Slot(q, true, Overlay(p, w.At(q).packet)));
    var stored := w.Add(q, p).At(q).packet;
    assert stored[..|p|] == p && FlagOf(stored) == FlagOf(p);
  }

  lemma AddedEofHolds(w: Ring, job: Job, junk: byte)
    requires w.Wf() && job.Wf()
    ensures Holds(w.Add(job.Eof(), Sealed(job.Eof(), END_OF_FILE, [junk])), job, job.Eof())
  {
    var q, p := job.Eof(), Sealed(job.Eof(), END_OF_FILE, [junk]);
    SealedDecodes(q, END_OF_FILE, [junk]);
    PutFrame(w, q, Slot(q, true, Overlay(p, w.At(q).packet)));
    var stored := w.Add(q, p).At(q).packet;
    assert stored[..|p|] == p;
    assert stored[HEADER_LEN..HEADER_LEN + 1] == p[HEADER_LEN..] == [junk];
  }

  /** Reading one more chunk. */
  lemma ReadStep(s: Sender, job: Job)
    requires Sound(s, job)
    ensures s.rest == [] <==> s.seqNum == job.Eof()
    ensures s.rest != [] ==>
              var k := ReadLen(s.rest, s.bufSize);
              && k > 0 && s.seqNum <= job.Count() && s.rest[..k] == job.Chunk(s.seqNum)
              && Split(s.rest[k..], s.bufSize) == job.chunks[s.seqNum..]
  {
    if s.rest != [] { SplitStep(s.rest, s.bufSize); }
  }

  lemma SendChunkSound(s: Sender, job: Job, junk: byte)
    requires Sound(s, job) && s.phase == SendData && !s.ring.Full() && s.rest != []
    ensures Sound(SendDataStep(s, junk), job)
  {
    var s' := SendDataStep(s, junk);
    ReadStep(s, job);
    ChunkLength(job, s.seqNum);
    AddedHolds(s.ring, job, s.seqNum, DATA);
    AddKeepsOwn(s.ring, job, Sealed(s.seqNum, DATA, job.Chunk(s.seqNum)));
    SealedIsGenuine(job, s.seqNum, DATA);
    assert s'.ring == s.ring.Add(s.seqNum, Sealed(s.seqNum, DATA, job.Chunk(s.seqNum))).CurUpdate();
    AppendOnTheWire(job, s.sent, Sealed(s.seqNum, DATA, job.Chunk(s.seqNum)), s.ring.current + 1);
  }

  lemma SendEofSound(s: Sender, job: Job, junk: byte)
    requires Sound(s, job) && s.phase == SendData && !s.ring.Full() && s.rest == [] && !s.finished
    ensures Sound(SendDataStep(s, junk), job)
  {
    var s' := SendDataStep(s, junk);
    var packet := Sealed(s.seqNum, END_OF_FILE, [junk]);
    ReadStep(s, job);
    AddedEofHolds(s.ring, job, junk);
    AddKeepsOwn(s.ring, job, packet);
    EofIsGenuine(job, junk);
    assert s'.ring == s.ring.Add(s.seqNum, packet).CurUpdate();
    AppendOnTheWire(job, s.sent, packet, s.ring.current + 1);
  }

  lemma SendDataSound(s: Sender, job: Job, junk: byte)
    requires Sound(s, job) && s.phase == SendData
    ensures Sound(SendDataStep(s, junk), job)
  {
    if !s.ring.Full() && s.rest != [] {
      SendChunkSound(s, job, junk);
    } else if !s.ring.Full() && !s.finished {
      SendEofSound(s, job, junk);
    }
  }

  // ------------------------------------------------------------------- retransmission

  /** Over any length that covers the header, a rewrite reseals that much of the slot. */
  lemma RewrittenReseals(p: seq<byte>, flag: byte, len: nat)
    requires |p| == MAX_PDU && HEADER_LEN <= len <= MAX_PDU
    ensures Rewritten(p, flag, len)[..len] == Reseal(p[..len], flag)
  {
    var front := p[..len][6 := flag];
    var cleared := PutChecksum(p[6 := flag], 0);
    assert cleared[..len] == PutChecksum(front, 0);
    assert Rewritten(p, flag, len)[..len] == PutChecksum(front, Cksum(PutChecksum(front, 0)));
  }

  /** Rewriting a stored packet over its true length keeps the packet. */
  lemma RewrittenSealed(p: seq<byte>, q: nat, flag: byte, payload: seq<byte>, newFlag: byte)
    requires |p| == MAX_PDU && HEADER_LEN + |payload| <= MAX_PDU
    requires p[..HEADER_LEN + |payload|] == Sealed(q, flag, payload)
    ensures var r := Rewritten(p, newFlag, HEADER_LEN + |payload|);
            r[..HEADER_LEN + |payload|] == Sealed(q, newFlag, payload) && FlagOf(r) == newFlag
  {
    RewrittenReseals(p, newFlag, HEADER_LEN + |payload|);
    ResealSealed(q, flag, payload, newFlag);
  }

  /** The length kept for a data packet is its true length on every retransmission. */
  lemma LengthRecovered(s: Sender, job: Job, q: nat)
    requires Sound(s, job) && 1 <= q < s.seqNum
    ensures q <= job.Count() && s.LenOf(q) == HEADER_LEN + |job.Chunk(q)|
  {
    ChunkLength(job, q);
  }

  /** The stored header names the packet. */
  lemma HeldNumber(w: Ring, job: Job, q: nat)
    requires w.Wf() && job.Wf() && Holds(w, job, q)
    ensures SeqOf(w.At(q).packet) == q
    ensures q == job.Eof() ==> FlagOf(w.At(q).packet) == END_OF_FILE
  {
    var p := w.At(q).packet;
    if q <= job.Count() {
      SealedDecodes(q, FlagOf(p), job.Chunk(q));
      assert SeqOf(p) == SeqOf(p[..HEADER_LEN + |job.Chunk(q)|]);
    } else {
      SealedDecodes(q, END_OF_FILE, p[HEADER_LEN..HEADER_LEN + 1]);
      assert SeqOf(p) == SeqOf(p[..HEADER_LEN + 1]);
      assert FlagOf(p) == FlagOf(p[..HEADER_LEN + 1]);
    }
  }

  /** The slot a number is looked up in holds the newest packet sent that shares it. */
  lemma Occupant(s: Sender, job: Job, at: nat) returns (t: nat)
    requires Sound(s, job) && 1 <= at < s.ring.current
    ensures at <= t < s.ring.current <= t + s.ring.size && Holds(s.ring, job, t)
    ensures t % s.ring.size == at % s.ring.size && SeqOf(s.ring.At(at).packet) == t
    ensures s.ring.current <= at + s.ring.size ==> t == at
  {
    t := at;
    if at + s.ring.size < s.ring.current { t := Lift(at, s.ring.current - s.ring.size, s.ring.size); }
    assert Holds(s.ring, job, t);
    HeldNumber(s.ring, job, t);
  }

  /** A rewrite of the slot of `at` over `len` bytes is harmless: the slot does not hold the end
      of file, and the length is that of the packet it does hold. */
  predicate RewriteOk(s: Sender, job: Job, at: nat, len: nat)
    requires s.ring.size >= 1 && |s.ring.slots| == s.ring.size
    requires |s.ring.slots[at % s.ring.size].packet| >= 4
  {
    var t := SeqOf(s.ring.slots[at % s.ring.size].packet);
    1 <= t <= job.Count() && len == HEADER_LEN + |job.Chunk(t)|
  }

  /** Resending from a slot sends the packet the slot holds and keeps every slot. */
  lemma ResendKeepsOwn(s: Sender, job: Job, at: nat, len: nat, flag: byte)
    requires Sound(s, job) && IsDataFlag(flag) && 1 <= at < s.ring.current && RewriteOk(s, job, at, len)
    ensures len <= MAX_PDU
    ensures var t, p := SeqOf(s.ring.At(at).packet), Rewritten(s.ring.At(at).packet, flag, len);
            && p[..len] == Sealed(t, flag, job.Chunk(t))
            && Own(s.ring.Rewrite(at, p), job)
  {
    var w, was := s.ring, s.ring.At(at).packet;
    var q := Occupant(s, job, at);
    ChunkLength(job, q);
    RewrittenSealed(was, q, FlagOf(was), job.Chunk(q), flag);
    var p := Rewritten(was, flag, len);
    PutFrame(w, q, w.At(q).(packet := p));
    forall t: nat | 1 <= t < w.current <= t + w.size
      ensures Holds(w.Rewrite(at, p), job, t)
    {
      assert Holds(w, job, t);
      assert w.Rewrite(at, p) == w.Rewrite(q, p);
      if t != q { assert w.Rewrite(q, p).At(t) == w.At(t); }
    }
  }

  /** The packet a resend sends is genuine if and only if the rewrite is harmless. */
  lemma ResendGenuineIff(s: Sender, job: Job, at: nat, len: nat, flag: byte)
    requires Sound(s, job) && IsDataFlag(flag) && 1 <= at < s.ring.current && HEADER_LEN <= len <= MAX_PDU
    ensures Genuine(job, Rewritten(s.ring.At(at).packet, flag, len)[..len]) <==> RewriteOk(s, job, at, len)
  {
    var d := Rewritten(s.ring.At(at).packet, flag, len)[..len];
    var t := Occupant(s, job, at);
    RewrittenNumber(s.ring.At(at).packet, flag, len);
    assert FlagOf(d) == flag;
    if RewriteOk(s, job, at, len) {
      ResendKeepsOwn(s, job, at, len, flag);
      SealedIsGenuine(job, t, flag);
    }
  }

  lemma AppendOnTheWire(job: Job, sent: seq<seq<byte>>, d: seq<byte>, cap: nat)
    requires forall k :: 0 <= k < |sent| ==> OnTheWire(job, sent[k], cap)
    requires OnTheWire(job, d, cap)
    ensures forall k :: 0 <= k < |sent + [d]| ==> OnTheWire(job, (sent + [d])[k], cap)
  {
  }

  /** The sender after it resent `len` bytes from the slot of `at`. */
  function Resent(s: Sender, at: nat, len: nat, flag: byte, phase: Phase): (s': Sender)
    requires s.Wf() && len <= MAX_PDU
  {
    var p := Rewritten(s.ring.At(at).packet, flag, len);
    s.(phase := phase, ring := s.ring.Rewrite(at, p), sent := s.sent + [p[..len]])
  }

  lemma ResentSound(s: Sender, job: Job, at: nat, len: nat, flag: byte, phase: Phase)
    requires Sound(s, job) && IsDataFlag(flag) && 1 <= at < s.ring.current && RewriteOk(s, job, at, len)
    requires phase == SendData || (phase == WaitOnAck && s.phase == TimeoutOnAck)
    requires !Over(s)
    ensures len <= MAX_PDU && Sound(Resent(s, at, len, flag, phase), job)
    ensures var t := SeqOf(s.ring.At(at).packet);
            1 <= t <= job.Count() && Resent(s, at, len, flag, phase).sent == s.sent + [Sealed(t, flag, job.Chunk(t))]
  {
    var t := Occupant(s, job, at);
    ResendKeepsOwn(s, job, at, len, flag);
    SealedIsGenuine(job, t, flag);
    AppendOnTheWire(job, s.sent, Sealed(t, flag, job.Chunk(t)), s.ring.current);
  }

  lemma LastIsGenuine(s: Sender, job: Job)
    requires s.sent != []
    ensures Sound(s, job) ==> Genuine(job, s.sent[|s.sent| - 1])
  {
    assert Sound(s, job) ==> OnTheWire(job, s.sent[|s.sent| - 1], s.ring.current);
  }

  /** A retransmission has the sequence number that is stored in the slot. */
  lemma RewrittenNumber(p: seq<byte>, flag: byte, len: nat)
    requires |p| == MAX_PDU && HEADER_LEN <= len <= MAX_PDU
    ensures SeqOf(Rewritten(p, flag, len)[..len]) == SeqOf(p)
  {
    var q := Rewritten(p, flag, len);
    assert q[0] == p[0] && q[1] == p[1] && q[2] == p[2] && q[3] == p[3];
  }

  /** What an SREJ for a packet that was sent does. */
  lemma SrejIsResent(s: Sender, job: Job, srej: nat)
    requires Sound(s, job) && 1 <= srej < s.seqNum
    ensures s.LenOf(srej) == HEADER_LEN + |job.Chunk(srej)| && HEADER_LEN <= s.LenOf(srej) <= MAX_PDU
    ensures SrejStep(s, srej) == Resent(s, srej, s.LenOf(srej), SREJ_RETRAN, SendData)
  {
    LengthRecovered(s, job, srej);
    ChunkLength(job, srej);
  }

  /** An SREJ for a packet that is still in the ring is answered with exactly that packet,
      whatever rewrites it went through before. */
  lemma SrejSound(s: Sender, job: Job, srej: nat)
    requires Sound(s, job) && !Over(s)
    requires 1 <= srej < s.seqNum && s.ring.current <= srej + s.ring.size
    ensures RewriteOk(s, job, srej, s.LenOf(srej))
    ensures Sound(SrejStep(s, srej), job)
    ensures SrejStep(s, srej).sent == s.sent + [Sealed(srej, SREJ_RETRAN, job.Chunk(srej))]
  {
    var t := Occupant(s, job, srej);
    SrejIsResent(s, job, srej);
    ResentSound(s, job, srej, s.LenOf(srej), SREJ_RETRAN, SendData);
  }

  /** An SREJ is answered with the packet it names if and only if that packet is still in the ring. */
  lemma SrejAnsweredIff(s: Sender, job: Job, srej: nat)
    requires Sound(s, job) && !Over(s) && 1 <= srej < s.seqNum
    ensures var s' := SrejStep(s, srej);
            && |s'.sent| == |s.sent| + 1
            && (SeqOf(s'.sent[|s.sent|]) == srej <==> s.ring.current <= srej + s.ring.size)
  {
    var t := Occupant(s, job, srej);
    SrejIsResent(s, job, srej);
    RewrittenNumber(s.ring.At(srej).packet, SREJ_RETRAN, s.LenOf(srej));
  }

  /** An SREJ of any age is answered with a genuine packet, and the invariant kept, if and only if
      its slot holds neither the end of file nor a packet of another length than the one named. */
  lemma SrejGenuineIff(s: Sender, job: Job, srej: nat)
    requires Sound(s, job) && !Over(s) && 1 <= srej < s.seqNum
    ensures var s', ok := SrejStep(s, srej), RewriteOk(s, job, srej, s.LenOf(srej));
            && |s'.sent| == |s.sent| + 1
            && (Genuine(job, s'.sent[|s.sent|]) <==> ok)
            && (Sound(s', job) <==> ok)
  {
    SrejIsResent(s, job, srej);
    LastIsGenuine(SrejStep(s, srej), job);
    ResendGenuineIff(s, job, srej, s.LenOf(srej), SREJ_RETRAN);
    if RewriteOk(s, job, srej, s.LenOf(srej)) {
      ResentSound(s, job, srej, s.LenOf(srej), SREJ_RETRAN, SendData);
    }
  }

  /** What a timeout does: the length is that of the packet in the slot. */
  lemma TimeoutIsResent(s: Sender, job: Job) returns (len: nat)
    requires Sound(s, job) && s.phase == TimeoutOnAck && s.ring.lower < s.ring.current
    ensures len == s.LenOf(SeqOf(s.ring.At(s.ring.lower).packet)) && HEADER_LEN <= len <= MAX_PDU
    ensures TimeoutStep(s) == Resent(s, s.ring.lower, len, DATA_TIMEOUT, WaitOnAck)
    ensures RewriteOk(s, job, s.ring.lower, len) <==> SeqOf(s.ring.At(s.ring.lower).packet) != job.Eof()
  {
    var t := Occupant(s, job, s.ring.lower);
    len := s.LenOf(t);
    if t < job.Eof() { LengthRecovered(s, job, t); }
  }

  /** A timeout with the packet of `lower` in the ring resends exactly that packet. */
  lemma TimeoutSound(s: Sender, job: Job)
    requires Sound(s, job) && s.phase == TimeoutOnAck && s.ring.lower < s.seqNum && InWindow(s.ring)
    ensures Sound(TimeoutStep(s), job)
    ensures TimeoutStep(s).sent == s.sent + [Sealed(s.ring.lower, DATA_TIMEOUT, job.Chunk(s.ring.lower))]
  {
    var t := Occupant(s, job, s.ring.lower);
    var len := TimeoutIsResent(s, job);
    ResentSound(s, job, s.ring.lower, len, DATA_TIMEOUT, WaitOnAck);
  }

  /** A timeout resends a genuine packet, and the invariant is kept, if and only if the slot of
      `lower` does not hold the end of file. */
  lemma TimeoutGenuineIff(s: Sender, job: Job)
    requires Sound(s, job) && s.phase == TimeoutOnAck && s.ring.lower < s.ring.current
    ensures var s', ok := TimeoutStep(s), SeqOf(s.ring.At(s.ring.lower).packet) != job.Eof();
            && |s'.sent| == |s.sent| + 1
            && (Genuine(job, s'.sent[|s.sent|]) <==> ok)
            && (Sound(s', job) <==> ok)
  {
    var len := TimeoutIsResent(s, job);
    LastIsGenuine(TimeoutStep(s), job);
    ResendGenuineIff(s, job, s.ring.lower, len, DATA_TIMEOUT);
    if RewriteOk(s, job, s.ring.lower, len) {
      ResentSound(s, job, s.ring.lower, len, DATA_TIMEOUT, WaitOnAck);
    }
  }

  // ------------------------------------------------------------------- acknowledgements

  lemma SlideKeepsOwn(w: Ring, job: Job, rr: nat)
    requires w.Wf() && Own(w, job)
    ensures Own(w.Slide(rr).Remove(rr), job)
  {
    var w' := w.Slide(rr).Remove(rr);
    forall q: nat | 1 <= q < w'.current <= q + w'.size
      ensures Holds(w', job, q)
    {
      assert Holds(w, job, q) && w'.At(q).packet == w.At(q).packet;
    }
  }

  /** window_slide is unconditional. An RR that does not end the data phase keeps the slots
      whatever its age; the bounds of the window stay in order if and only if it lies between
      current - size and current. */
  lemma RrWindowIff(s: Sender, job: Job, d: seq<byte>)
    requires Sound(s, job) && s.phase == WaitOnAck && s.retry < MAX_RETRANS
    requires SizedAck(Arrive(d)) && Verifies(d) && FlagOf(d) == RR && ValueOf(d) != s.finalSeq + 1
    ensures var s' := WaitOnAckStep(s, Arrive(d));
            && (Sound(s', job) <==> 1 <= ValueOf(d) <= s.ring.current)
            && (InWindow(s'.ring) <==> 1 <= ValueOf(d) <= s.ring.current <= ValueOf(d) + s.ring.size)
            && s'.sent == s.sent
  {
    SlideKeepsOwn(s.ring, job, ValueOf(d));
  }

  /** Sending keeps the window's bounds in order: a packet goes out only into an open window. */
  lemma SendDataInWindow(s: Sender, junk: byte)
    requires s.Wf() && s.phase == SendData && InWindow(s.ring)
    ensures InWindow(SendDataStep(s, junk).ring)
  {
  }

  // ------------------------------------------------------------------- end of file

  /** The end-of-file loop sends the end-of-file packet, or nothing at all if it was entered
      before the end of file was reached. */
  lemma EofSendSound(s: Sender, job: Job)
    requires Sound(s, job) && s.phase == WaitOnEofAck
    ensures Sound(EofSendStep(s), job)
    ensures s.eofRetry < MAX_RETRANS ==>
              if s.finished then |EofSendStep(s).sent| == |s.sent| + 1 && EofSendStep(s).phase == EofPoll
                                 && FlagOf(EofSendStep(s).sent[|s.sent|]) == END_OF_FILE
              else EofSendStep(s) == s.(phase := Aborted)
  {
    if s.finished && s.eofRetry < MAX_RETRANS {
      var q, p := job.Eof(), s.ring.At(job.Eof()).packet;
      assert Holds(s.ring, job, q);
      EofIsGenuine(job, p[HEADER_LEN]);
      assert p[HEADER_LEN..HEADER_LEN + 1] == [p[HEADER_LEN]];
      SealedDecodes(q, END_OF_FILE, [p[HEADER_LEN]]);
    }
  }

  lemma StartSound(file: seq<byte>, size: nat, bufSize: nat)
    requires size >= 1 && 1 <= bufSize <= MAX_PDU - HEADER_LEN && Job(Split(file, bufSize), bufSize).Wf()
    ensures Sound(SenderMachine.Start(file, size, bufSize), Job(Split(file, bufSize), bufSize))
  {
  }
}
