/** End-to-end safety of the receiver: what it writes is the file, exactly when each read of
    flush finds what it takes it for. */
module ReceiverContent {
  import opened Checksum
  import opened Pdu
  import opened Ring
  import opened Segmentation
  import opened Transfer
  import opened Events
  import opened ReceiverMachine
  import opened ReceiverOrder
  import ReceiverRing

  /** Write k took its data from packet k + 1 and is that packet's chunk, for every write. */
  ghost predicate Truthful(r: Receiver, job: Job) {
    && |r.writes| == |r.sources| <= job.Count()
    && forall k :: 0 <= k < |r.writes| ==> r.sources[k] == k + 1 && r.writes[k] == job.chunks[k]
  }

  /** The slot holds the packet whose number it stores, whether that is the number it is asked
      for or not. Packets are numbered below `cap` so far. */
  ghost predicate SlotGenuine(slot: Slot, job: Job, cap: nat, eofSeq: nat)
    requires |slot.packet| == MAX_PDU
  {
    && slot.seqNum < cap
    && (1 <= slot.seqNum <= job.Count() ==>
          && |job.Chunk(slot.seqNum)| <= MAX_PDU - HEADER_LEN
          && slot.packet[HEADER_LEN..HEADER_LEN + |job.Chunk(slot.seqNum)|] == job.Chunk(slot.seqNum))
    && (slot.seqNum == job.Eof() ==> eofSeq == job.Eof())
  }

  ghost predicate SlotsGenuine(w: Ring, job: Job, cap: nat, eofSeq: nat)
    requires w.Wf()
  {
    forall i :: 0 <= i < w.size ==> SlotGenuine(w.slots[i], job, cap, eofSeq)
  }

  /** What has been noted about lengths and the end of file is true. */
  ghost predicate NotesOk(r: Receiver, job: Job) {
    && r.dataLen == HEADER_LEN + job.bufSize
    && (r.eofSeq == 0 || r.eofSeq == job.Eof())
    && (r.finalSeq == 0 || (job.EndsShort() && r.finalSeq == job.Count()
                            && r.finalLen == HEADER_LEN + |job.Chunk(job.Count())|))
  }

  /** The receiver is faithful to `job`: what it wrote is true, and so is what it stored. */
  ghost predicate Faithful(r: Receiver, job: Job, cap: nat) {
    && job.Wf() && Ordered(r)
    && r.expected <= cap <= job.Eof() + 1 && r.expected <= job.Eof()
    && Truthful(r, job)
    && NotesOk(r, job)
    && SlotsGenuine(r.ring, job, cap, r.eofSeq)
    && (r.phase == Buffer || r.phase == Flush ==> r.highest < cap)
    && (r.phase == Finished ==> r.expected == job.Eof())
  }

  // ------------------------------------------------------------------- one arrival

  lemma NoteKeeps(r: Receiver, job: Job, cap: nat, d: seq<byte>)
    requires Faithful(r, job, cap) && Genuine(job, d)
    ensures var n := r.Note(d);
            && NotesOk(n, job) && SlotsGenuine(n.ring, job, cap, n.eofSeq)
            && (FlagOf(d) == END_OF_FILE ==> n.eofSeq == job.Eof())
            && (SeqOf(d) == job.Count() && job.EndsShort() && FlagOf(d) == DATA ==> n.finalSeq == job.Count())
            && (r.finalSeq == job.Count() && job.EndsShort() ==> n.finalSeq == job.Count())
  {
    var s, n := SeqOf(d), r.Note(d);
    if 1 <= s <= job.Count() { ChunkLength(job, s); }
    forall i | 0 <= i < n.ring.size
      ensures SlotGenuine(n.ring.slots[i], job, cap, n.eofSeq)
    {
      assert SlotGenuine(r.ring.slots[i], job, cap, r.eofSeq);
    }
  }

  /** A genuine packet goes into its slot whole. */
  lemma AddKeeps(w: Ring, job: Job, cap: nat, eofSeq: nat, d: seq<byte>)
    requires w.Wf() && job.Wf() && SlotsGenuine(w, job, cap, eofSeq) && Genuine(job, d) && SeqOf(d) < cap
    requires SeqOf(d) == job.Eof() ==> eofSeq == job.Eof()
    ensures SlotsGenuine(w.Add(SeqOf(d), d), job, cap, eofSeq)
  {
    var s := SeqOf(d);
    var stored := Overlay(d, w.At(s).packet);
    assert stored[..|d|] == d;
    assert stored[HEADER_LEN..|d|] == d[HEADER_LEN..];
    assert SlotGenuine(Slot(s, true, stored), job, cap, eofSeq);
  }

  lemma RemoveKeeps(w: Ring, job: Job, cap: nat, eofSeq: nat, s: nat)
    requires w.Wf() && SlotsGenuine(w, job, cap, eofSeq)
    ensures SlotsGenuine(w.Remove(s), job, cap, eofSeq)
  {
    assert SlotGenuine(w.At(s), job, cap, eofSeq);
  }

  lemma RecvDataFaithful(r: Receiver, job: Job, cap: nat, d: seq<byte>)
    requires Faithful(r, job, cap) && Genuine(job, d) && r.phase == RecvData && SeqOf(d) < cap
    ensures Faithful(RecvDataStep(r, Arrive(d)), job, cap)
  {
    NoteKeeps(r, job, cap, d);
    RecvDataOrdered(r, d);
    if SeqOf(d) > r.expected { AddKeeps(r.ring, job, cap, r.Note(d).eofSeq, d); }
  }

  lemma BufferFaithful(r: Receiver, job: Job, cap: nat, d: seq<byte>)
    requires Faithful(r, job, cap) && Genuine(job, d) && r.phase == Buffer && SeqOf(d) < cap
    ensures Faithful(BufferStep(r, Arrive(d)), job, cap)
  {
    NoteKeeps(r, job, cap, d);
    BufferOrdered(r, d);
    if SeqOf(d) > r.expected {
      AddKeeps(r.ring, job, cap, r.Note(d).eofSeq, d);
    } else if SeqOf(d) == r.expected {
      RemoveKeeps(r.ring, job, cap, r.Note(d).eofSeq, r.expected);
    }
  }

  /** Every genuine packet leaves the receiver faithful: in or out of the window, in any order,
      under any of the data flags, over a free slot or a stale one. */
  lemma EventFaithful(r: Receiver, job: Job, cap: nat, e: Event)
    requires Faithful(r, job, cap) && r.phase != Flush && Sized(e)
    requires e.Arrive? && Verifies(e.datagram) ==> Genuine(job, e.datagram) && SeqOf(e.datagram) < cap
    ensures Faithful(Step(r, e), job, cap)
  {
    if e.Arrive? && Verifies(e.datagram) {
      if r.phase == RecvData {
        RecvDataFaithful(r, job, cap, e.datagram);
      } else if r.phase == Buffer {
        BufferFaithful(r, job, cap, e.datagram);
      }
    }
  }

  // ------------------------------------------------------------------- flushing

  /** The slot of `expected` was stored for that number. */
  predicate NumberOk(r: Receiver)
    requires r.ring.size >= 1 && |r.ring.slots| == r.ring.size
  {
    r.ring.slots[r.expected % r.ring.size].seqNum == r.expected
  }

  /** What a read of flush takes for granted: the slot of `expected` was stored for that number,
      and if it is the short last packet, its length has been noted. */
  predicate ReadOk(r: Receiver, job: Job)
    requires r.ring.size >= 1 && |r.ring.slots| == r.ring.size
  {
    && NumberOk(r)
    && (r.expected == job.Count() && job.EndsShort() ==> r.finalSeq == r.expected)
  }

  ghost predicate LoopReadsOk(r: Receiver, job: Job)
    requires r.Wf()
    decreases r.highest - r.expected
  {
    r.ring.IsValid(r.expected) && r.expected < r.highest && r.expected != r.eofSeq ==>
      ReadOk(r, job) && LoopReadsOk(r.WriteSlot(), job)
  }

  ghost predicate TailReadOk(l: Receiver, job: Job)
    requires l.Wf()
  {
    l.phase != Finished && l.expected >= l.highest && l.expected != l.eofSeq ==> ReadOk(l, job)
  }

  /** Every read of one flush, its unguarded last one included. */
  ghost predicate FlushReadsOk(r: Receiver, job: Job)
    requires r.Wf()
  {
    LoopReadsOk(r, job) && TailReadOk(FlushLoop(r), job)
  }

  /** Packet `s`, read back from a slot that holds it, gives its chunk if and only if it is not
      the short last packet or its length has been noted. */
  lemma SlotYieldsChunkIff(r: Receiver, job: Job, s: nat)
    requires r.Wf() && job.Wf() && NotesOk(r, job) && 1 <= s <= job.Count()
    requires r.ring.At(s).packet[HEADER_LEN..][..|job.Chunk(s)|] == job.Chunk(s)
    ensures r.ring.At(s).packet[HEADER_LEN..r.LenOf(s)] == job.Chunk(s)
            <==> (s == job.Count() && job.EndsShort() ==> r.finalSeq == s)
  {
    ChunkLength(job, s);
    assert r.LenOf(s) == HEADER_LEN + |job.Chunk(s)| <==> (s == job.Count() && job.EndsShort() ==> r.finalSeq == s);
  }

  /** One more write, true or not. */
  lemma TruthfulNext(r: Receiver, job: Job, r': Receiver, source: nat, data: seq<byte>)
    requires Truthful(r, job) && |r.writes| == r.expected - 1
    requires r'.writes == r.writes + [data] && r'.sources == r.sources + [source]
    ensures Truthful(r', job) <==> source == r.expected <= job.Count() && data == job.Chunk(r.expected)
  {
    var k := r.expected - 1;
    assert r'.sources[k] == source && r'.writes[k] == data;
  }

  /** A write of flush is the chunk of packet `expected`, taken from packet `expected`, if and
      only if its read was as it should be. */
  lemma ReadTruthfulIff(r: Receiver, job: Job, cap: nat)
    requires Faithful(r, job, cap) && r.phase == Flush && r.expected != r.eofSeq
    ensures Truthful(r.WriteSlot(), job) <==> ReadOk(r, job)
  {
    var s, slot := r.expected, r.ring.At(r.expected);
    assert SlotGenuine(slot, job, cap, r.eofSeq);
    TruthfulNext(r, job, r.WriteSlot(), slot.seqNum, slot.packet[HEADER_LEN..r.LenOf(s)]);
    if slot.seqNum == s <= job.Count() {
      assert slot.packet[HEADER_LEN..][..|job.Chunk(s)|] == slot.packet[HEADER_LEN..HEADER_LEN + |job.Chunk(s)|];
      SlotYieldsChunkIff(r, job, s);
    }
  }

  /** After a good read the receiver is faithful still. */
  lemma WriteSlotFaithful(r: Receiver, job: Job, cap: nat)
    requires Faithful(r, job, cap) && r.phase == Flush && r.expected != r.eofSeq && ReadOk(r, job)
    ensures var w := r.WriteSlot();
            && w.expected <= cap && w.expected <= job.Eof()
            && Faithful(w.(phase := RecvData), job, cap)
            && (r.expected < r.highest ==> Faithful(w, job, cap))
  {
    assert SlotGenuine(r.ring.At(r.expected), job, cap, r.eofSeq);
    ReadTruthfulIff(r, job, cap);
    RemoveKeeps(r.ring, job, cap, r.eofSeq, r.expected);
  }

  /** What has been written stays written, so a false write is never mended. */
  lemma NeverMended(r: Receiver, r': Receiver, job: Job)
    requires |r.writes| == |r.sources| && r.writes <= r'.writes && r.sources <= r'.sources
    requires Truthful(r', job)
    ensures Truthful(r, job)
  {
    forall k | 0 <= k < |r.writes|
      ensures r.sources[k] == k + 1 && r.writes[k] == job.chunks[k]
    {
      assert r'.sources[k] == r.sources[k] && r'.writes[k] == r.writes[k];
    }
  }

  lemma {:induction false} FlushLoopTruthfulIff(r: Receiver, job: Job, cap: nat)
    requires Faithful(r, job, cap) && r.phase == Flush
    ensures var l := FlushLoop(r);
            (Truthful(l, job) <==> LoopReadsOk(r, job)) && (LoopReadsOk(r, job) ==> Faithful(l, job, cap))
    decreases r.highest - r.expected
  {
    if r.ring.IsValid(r.expected) && r.expected < r.highest && r.expected != r.eofSeq {
      var w := r.WriteSlot();
      ReadTruthfulIff(r, job, cap);
      if ReadOk(r, job) {
        WriteSlotFaithful(r, job, cap);
        FlushLoopTruthfulIff(w, job, cap);
      } else {
        FlushLoopOrdered(w);
        if Truthful(FlushLoop(w), job) { NeverMended(w, FlushLoop(w), job); }
      }
    }
  }

  lemma FlushTailTruthfulIff(l: Receiver, job: Job, cap: nat)
    requires Faithful(l, job, cap) && l.phase == Flush
    ensures Truthful(FlushTail(l), job) <==> TailReadOk(l, job)
    ensures TailReadOk(l, job) && l.expected <= l.highest ==> Faithful(FlushTail(l), job, cap)
  {
    if l.expected >= l.highest && l.expected != l.eofSeq {
      ReadTruthfulIff(l, job, cap);
      if ReadOk(l, job) { WriteSlotFaithful(l, job, cap); }
    }
  }

  /** What flush has written by its end is true if and only if every read was as it should be,
      and then the receiver is faithful still. */
  lemma FlushTruthfulIff(r: Receiver, job: Job, cap: nat)
    requires Faithful(r, job, cap) && r.phase == Flush
    ensures Truthful(FlushStep(r), job) <==> FlushReadsOk(r, job)
    ensures FlushReadsOk(r, job) ==> Faithful(FlushStep(r), job, cap)
  {
    var l := FlushLoop(r);
    FlushLoopOrdered(r);
    FlushLoopTruthfulIff(r, job, cap);
    if !LoopReadsOk(r, job) {
      if Truthful(FlushStep(r), job) { NeverMended(l, FlushStep(r), job); }
    } else if l.phase == Flush {
      FlushTailTruthfulIff(l, job, cap);
    }
  }

  // ------------------------------------------------------------------- whole runs

  /** An accepted packet is one the server legitimately sends. */
  ghost predicate GenuineEvent(job: Job, e: Event) {
    e.Arrive? && Verifies(e.datagram) ==> Genuine(job, e.datagram)
  }

  ghost predicate AllGenuine(job: Job, events: seq<Event>) {
    forall i :: 0 <= i < |events| ==> GenuineEvent(job, events[i])
  }

  /** If the event makes the client flush, every read of that flush is good. */
  ghost predicate EventReadsOk(r: Receiver, job: Job, e: Event)
    requires r.Wf() && Sized(e)
  {
    Step(r, e).phase == Flush ==> FlushReadsOk(Step(r, e), job)
  }

  /** Every read of every flush in the run is as it should be. */
  ghost predicate ReadsOkRun(r: Receiver, job: Job, events: seq<Event>)
    requires r.Wf() && r.phase != Flush && AllSized(events)
    decreases |events|
  {
    events != [] ==>
      EventReadsOk(r, job, events[0]) && ReadsOkRun(Settle(Step(r, events[0])), job, events[1..])
  }

  /** One event and a pending flush: all is true still if and only if the flush read what it
      should. */
  lemma EventTruthfulIff(r: Receiver, job: Job, e: Event)
    requires Faithful(r, job, job.Eof() + 1) && r.phase != Flush && Sized(e) && GenuineEvent(job, e)
    ensures var r2 := Settle(Step(r, e));
            && Ordered(r2)
            && (Truthful(r2, job) <==> EventReadsOk(r, job, e))
            && (EventReadsOk(r, job, e) ==> Faithful(r2, job, job.Eof() + 1))
  {
    EventFaithful(r, job, job.Eof() + 1, e);
    SettleOrdered(Step(r, e));
    if Step(r, e).phase == Flush { FlushTruthfulIff(Step(r, e), job, job.Eof() + 1); }
  }

  lemma RunNeverMended(r: Receiver, job: Job, events: seq<Event>)
    requires Ordered(r) && r.phase != Flush && AllSized(events) && !Truthful(r, job)
    ensures !Truthful(Run(r, events), job)
  {
    EveryTraceOrdered(r, events);
    if Truthful(Run(r, events), job) {
      NeverMended(r, Run(r, events), job);
      assert false;
    }
  }

  /** Over whole runs of genuine packets, lost, repeated, delayed and reordered at will: every
      write is the right chunk from the right packet if and only if every read of flush was as it
      should be. */
  lemma {:induction false} RunTruthfulIff(r: Receiver, job: Job, events: seq<Event>)
    requires Faithful(r, job, job.Eof() + 1) && r.phase != Flush && AllSized(events) && AllGenuine(job, events)
    ensures Truthful(Run(r, events), job) <==> ReadsOkRun(r, job, events)
    ensures ReadsOkRun(r, job, events) ==> Faithful(Run(r, events), job, job.Eof() + 1)
    decreases |events|
  {
    if events != [] {
      var r2 := Settle(Step(r, events[0]));
      EventTruthfulIff(r, job, events[0]);
      if EventReadsOk(r, job, events[0]) {
        RunTruthfulIff(r2, job, events[1..]);
      } else {
        RunNeverMended(r2, job, events[1..]);
      }
    }
  }

  lemma StartFaithful(job: Job, size: nat, clientSeq: nat, cap: nat)
    requires job.Wf() && size >= 1 && 1 <= cap <= job.Eof() + 1
    ensures Faithful(Start(size, job.bufSize, clientSeq), job, cap)
  {
  }

  lemma FaithfulIsPrefix(r: Receiver, file: seq<byte>, bufSize: nat, cap: nat)
    requires bufSize >= 1 && Faithful(r, Job(Split(file, bufSize), bufSize), cap)
    ensures Flatten(r.writes) <= file && (r.phase == Finished ==> Flatten(r.writes) == file)
  {
    assert r.writes == Split(file, bufSize)[..r.expected - 1];
    PrefixOfFile(file, bufSize, r.expected - 1);
  }

  /** A run of genuine packets from a faithful state in which every read of flush is good. */
  ghost predicate GoodRun(r: Receiver, job: Job, events: seq<Event>)
    requires r.Wf() && r.phase != Flush && AllSized(events)
  {
    Faithful(r, job, job.Eof() + 1) && AllGenuine(job, events) && ReadsOkRun(r, job, events)
  }

  lemma GoodRunIsPrefix(r: Receiver, file: seq<byte>, bufSize: nat, events: seq<Event>)
    requires r.Wf() && r.phase != Flush && AllSized(events) && bufSize >= 1
    requires GoodRun(r, Job(Split(file, bufSize), bufSize), events)
    ensures var r' := Run(r, events);
            Flatten(r'.writes) <= file && (r'.phase == Finished ==> Flatten(r'.writes) == file)
  {
    var job := Job(Split(file, bufSize), bufSize);
    RunTruthfulIff(r, job, events);
    FaithfulIsPrefix(Run(r, events), file, bufSize, job.Eof() + 1);
  }

  /** End-to-end safety of the receiver: whatever is lost, corrupted, repeated, delayed or
      reordered, as long as flush reads what it takes it for, the bytes on disk are a prefix of the
      source file, and a receiver that reports a finished transmission has written all of it. */
  lemma WritesAreAPrefix(file: seq<byte>, bufSize: nat, size: nat, clientSeq: nat, events: seq<Event>)
    requires size >= 1 && bufSize >= 1 && Job(Split(file, bufSize), bufSize).Wf()
    requires AllSized(events) && AllGenuine(Job(Split(file, bufSize), bufSize), events)
    requires ReadsOkRun(Start(size, bufSize, clientSeq), Job(Split(file, bufSize), bufSize), events)
    ensures var r := Run(Start(size, bufSize, clientSeq), events);
            Flatten(r.writes) <= file && (r.phase == Finished ==> Flatten(r.writes) == file)
  {
    var job := Job(Split(file, bufSize), bufSize);
    StartFaithful(job, size, clientSeq, job.Eof() + 1);
    GoodRunIsPrefix(Start(size, bufSize, clientSeq), file, bufSize, events);
  }

  // ------------------------------------------------------------------- orderly runs

  /** Once the short last packet is in a slot, its length has been noted. */
  ghost predicate LastNoted(r: Receiver, job: Job)
    requires r.Wf()
  {
    forall i :: 0 <= i < r.ring.size && r.ring.slots[i].seqNum == job.Count() && job.EndsShort()
                ==> r.finalSeq == job.Count()
  }

  /** The short last packet arrives ahead of its turn only under the DATA flag. */
  ghost predicate LastUnderData(r: Receiver, job: Job, e: Event)
    requires Sized(e)
  {
    e.Arrive? && Verifies(e.datagram) && r.expected < SeqOf(e.datagram) == job.Count() && job.EndsShort()
    ==> FlagOf(e.datagram) == DATA
  }

  ghost predicate LastUnderDataRun(r: Receiver, job: Job, events: seq<Event>)
    requires r.Wf() && r.phase != Flush && AllSized(events)
    decreases |events|
  {
    events != [] ==>
      LastUnderData(r, job, events[0]) && LastUnderDataRun(Settle(Step(r, events[0])), job, events[1..])
  }

  lemma EventNotes(r: Receiver, job: Job, e: Event)
    requires Faithful(r, job, job.Eof() + 1) && LastNoted(r, job) && r.phase != Flush && Sized(e)
    requires e.Arrive? && Verifies(e.datagram) ==> Genuine(job, e.datagram)
    requires LastUnderData(r, job, e)
    ensures LastNoted(Step(r, e), job)
  {
    if e.Arrive? && Verifies(e.datagram) { NoteKeeps(r, job, job.Eof() + 1, e.datagram); }
  }

  lemma FlushNotes(r: Receiver, job: Job)
    requires r.Wf() && LastNoted(r, job)
    ensures LastNoted(FlushStep(r), job)
  {
    FlushLoopNotes(r, job);
  }

  lemma {:induction false} FlushLoopNotes(r: Receiver, job: Job)
    requires r.Wf() && LastNoted(r, job)
    ensures LastNoted(FlushLoop(r), job)
    decreases r.highest - r.expected
  {
    if r.ring.IsValid(r.expected) && r.expected < r.highest && r.expected != r.eofSeq {
      FlushLoopNotes(r.WriteSlot(), job);
    }
  }

  ghost predicate LoopNumbersOk(r: Receiver)
    requires r.Wf()
    decreases r.highest - r.expected
  {
    r.ring.IsValid(r.expected) && r.expected < r.highest && r.expected != r.eofSeq ==>
      NumberOk(r) && LoopNumbersOk(r.WriteSlot())
  }

  /** Every slot that one flush reads was stored for the number it is read for. */
  ghost predicate FlushNumbersOk(r: Receiver)
    requires r.Wf()
  {
    && LoopNumbersOk(r)
    && var l := FlushLoop(r);
       l.phase != Finished && l.expected >= l.highest && l.expected != l.eofSeq ==> NumberOk(l)
  }

  lemma {:induction false} LoopNumbersSuffice(r: Receiver, job: Job)
    requires r.Wf() && LastNoted(r, job) && LoopNumbersOk(r)
    ensures LoopReadsOk(r, job)
    decreases r.highest - r.expected
  {
    if r.ring.IsValid(r.expected) && r.expected < r.highest && r.expected != r.eofSeq {
      LoopNumbersSuffice(r.WriteSlot(), job);
    }
  }

  /** Then the reads are good, once the length of the short last packet is noted before it is
      stored. */
  lemma NumbersSuffice(r: Receiver, job: Job)
    requires r.Wf() && LastNoted(r, job) && FlushNumbersOk(r)
    ensures FlushReadsOk(r, job)
  {
    LoopNumbersSuffice(r, job);
    FlushLoopNotes(r, job);
  }

  /** In a ring that holds exactly what was buffered every slot in use is the right one. */
  lemma {:induction false} TidyLoopNumbersOk(r: Receiver, m: ReceiverRing.Held)
    requires ReceiverRing.Tidy(r, m) && Ordered(r) && r.phase == Flush
    ensures LoopNumbersOk(r)
    decreases r.highest - r.expected
  {
    if r.ring.IsValid(r.expected) && r.expected < r.highest && r.expected != r.eofSeq {
      ReceiverRing.WriteSlotTidy(r, m);
      TidyLoopNumbersOk(r.WriteSlot(), ReceiverRing.Ahead(m, r.expected + 1));
    }
  }

  lemma TidyNumbersOk(r: Receiver, m: ReceiverRing.Held)
    requires ReceiverRing.Tidy(r, m) && Ordered(r) && r.phase == Flush
    ensures FlushNumbersOk(r)
  {
    var l := FlushLoop(r);
    TidyLoopNumbersOk(r, m);
    ReceiverRing.FlushLoopTidy(r, m);
    FlushLoopOrdered(r);
    if l.phase == Flush && l.expected >= l.highest {
      ReceiverRing.WriteSlotTidy(l, ReceiverRing.Ahead(m, l.expected));
    }
  }

  /** Faithful, tidy, and the last length noted. */
  ghost predicate Exact(r: Receiver, m: ReceiverRing.Held, job: Job) {
    Faithful(r, job, job.Eof() + 1) && ReceiverRing.Tidy(r, m) && LastNoted(r, job)
  }

  lemma EventExact(r: Receiver, m: ReceiverRing.Held, job: Job, e: Event)
    requires Exact(r, m, job) && r.phase != Flush && Sized(e) && GenuineEvent(job, e)
    requires ReceiverRing.Orderly(r, e) && LastUnderData(r, job, e)
    ensures EventReadsOk(r, job, e)
    ensures Exact(Settle(Step(r, e)), ReceiverRing.HeldAfter(r, m, e), job)
  {
    var r1 := Step(r, e);
    EventFaithful(r, job, job.Eof() + 1, e);
    EventNotes(r, job, e);
    ReceiverRing.StepTidy(r, m, e);
    ReceiverRing.EventTidy(r, m, e);
    if r1.phase == Flush {
      TidyNumbersOk(r1, ReceiverRing.HeldBefore(r, m, e));
      NumbersSuffice(r1, job);
      FlushTruthfulIff(r1, job, job.Eof() + 1);
      FlushNotes(r1, job);
    }
  }

  lemma {:induction false} OrderlyReadsOk(r: Receiver, m: ReceiverRing.Held, job: Job, events: seq<Event>)
    requires Exact(r, m, job) && r.phase != Flush && AllSized(events) && AllGenuine(job, events)
    requires ReceiverRing.OrderlyRun(r, events) && LastUnderDataRun(r, job, events)
    ensures ReadsOkRun(r, job, events)
    decreases |events|
  {
    if events != [] {
      EventExact(r, m, job, events[0]);
      OrderlyReadsOk(Settle(Step(r, events[0])), ReceiverRing.HeldAfter(r, m, events[0]), job, events[1..]);
    }
  }

  /** The same from conditions on the arrivals alone: every one is in the window, none is old or
      below the highest one while in BUFFER, and the short last packet comes ahead of its turn only
      under the DATA flag. */
  lemma OrderlyWritesAreAPrefix(file: seq<byte>, bufSize: nat, size: nat, clientSeq: nat, events: seq<Event>)
    requires size >= 1 && bufSize >= 1 && Job(Split(file, bufSize), bufSize).Wf()
    requires AllSized(events) && AllGenuine(Job(Split(file, bufSize), bufSize), events)
    requires ReceiverRing.OrderlyRun(Start(size, bufSize, clientSeq), events)
    requires LastUnderDataRun(Start(size, bufSize, clientSeq), Job(Split(file, bufSize), bufSize), events)
    ensures var r := Run(Start(size, bufSize, clientSeq), events);
            Flatten(r.writes) <= file && (r.phase == Finished ==> Flatten(r.writes) == file)
  {
    var job, r0 := Job(Split(file, bufSize), bufSize), Start(size, bufSize, clientSeq);
    StartFaithful(job, size, clientSeq, job.Eof() + 1);
    ReceiverRing.StartTidy(size, bufSize, clientSeq);
    OrderlyReadsOk(r0, map[], job, events);
    WritesAreAPrefix(file, bufSize, size, clientSeq, events);
  }
}
