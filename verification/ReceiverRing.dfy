/** What the receiver's ring holds: exactly the packets buffered and not yet written, as long as
    arrivals in BUFFER are neither old nor below the highest one. The packets buffered are a map,
    and the ring refines it. */
module ReceiverRing {
  import opened Checksum
  import opened Pdu
  import opened Ring
  import opened Events
  import opened ReceiverMachine
  import opened ReceiverOrder

  type Held = map<nat, seq<byte>>

  /** The ring holds exactly the packets of `m`, byte for byte: none in RECV_DATA, in BUFFER
      some in (expected, highest], in FLUSH some in [expected, highest], `highest` always among
      them. */
  ghost predicate Tidy(r: Receiver, m: Held) {
    && r.Wf()
    && Refines(r.ring, r.expected, m) && Whole(m)
    && (r.phase == RecvData ==> m == map[])
    && (r.phase == Buffer ==> UpTo(m, r.expected + 1, r.highest))
    && (r.phase == Flush ==> UpTo(m, r.expected, r.highest))
  }

  /** A packet has a header. */
  ghost predicate Whole(m: Held) {
    forall s :: s in m ==> |m[s]| >= HEADER_LEN
  }

  ghost predicate UpTo(m: Held, lo: nat, hi: nat) {
    hi in m && forall s :: s in m ==> lo <= s <= hi
  }

  /** The packets buffered once `d` has been accepted: it joins them if it is ahead. */
  function With(r: Receiver, m: Held, d: seq<byte>): Held
    requires |d| >= HEADER_LEN
  {
    if SeqOf(d) > r.expected then m[SeqOf(d) := d] else m
  }

  /** The packets still to be written when `expected` is next. */
  function Ahead(m: Held, expected: nat): Held {
    map s | s in m && expected <= s :: m[s]
  }

  lemma StartTidy(size: nat, bufSize: nat, clientSeq: nat)
    requires size >= 1 && bufSize <= MAX_PDU - HEADER_LEN
    ensures Tidy(Start(size, bufSize, clientSeq), map[])
  {
    CreatedRefines(size, 1);
  }

  // ------------------------------------------------------------------- one arrival

  /** The two disorders: an old packet while in BUFFER, and a packet below the highest one
      buffered. */
  predicate Disordered(r: Receiver, d: seq<byte>)
    requires |d| >= HEADER_LEN
  {
    r.phase == Buffer && (SeqOf(d) < r.expected || r.expected < SeqOf(d) < r.highest)
  }

  /** Moving past `expected` when its packet is not held. */
  lemma AdvanceRefines(w: Ring, expected: nat, m: Held)
    requires Refines(w, expected, m) && expected !in m
    ensures Refines(w, expected + 1, m)
  {
    forall s | s in m ensures expected + 1 <= s { assert expected <= s; }
    ShiftRefines(w, expected, m, expected + 1);
  }

  lemma BufferInOrderTidy(r: Receiver, m: Held, d: seq<byte>)
    requires Tidy(r, m) && r.phase == Buffer && Sized(Arrive(d)) && Verifies(d) && SeqOf(d) == r.expected
    ensures Tidy(BufferStep(r, Arrive(d)), m)
  {
    var s := SeqOf(d);
    RemoveRefines(r.ring, s, m, s);
    assert m - {s} == m;
    AdvanceRefines(r.ring.Remove(s), s, m);
  }

  lemma BufferAheadTidyIff(r: Receiver, m: Held, d: seq<byte>)
    requires Tidy(r, m) && r.phase == Buffer && Sized(Arrive(d)) && Verifies(d)
    requires r.expected < SeqOf(d) < r.expected + r.ring.size
    ensures Tidy(BufferStep(r, Arrive(d)), m[SeqOf(d) := d]) <==> SeqOf(d) >= r.highest
  {
    AddRefines(r.ring, r.expected, m, SeqOf(d), d);
    assert r.highest in m[SeqOf(d) := d];
  }

  lemma BufferTidyIff(r: Receiver, m: Held, d: seq<byte>)
    requires Tidy(r, m) && r.phase == Buffer && Sized(Arrive(d)) && Verifies(d)
    requires SeqOf(d) < r.expected + r.ring.size
    ensures Tidy(BufferStep(r, Arrive(d)), With(r, m, d)) <==> !Disordered(r, d)
  {
    if SeqOf(d) == r.expected {
      BufferInOrderTidy(r, m, d);
    } else if SeqOf(d) > r.expected {
      BufferAheadTidyIff(r, m, d);
    }
  }

  lemma RecvDataTidy(r: Receiver, d: seq<byte>)
    requires Tidy(r, map[]) && r.phase == RecvData && Sized(Arrive(d)) && Verifies(d)
    requires SeqOf(d) < r.expected + r.ring.size
    ensures Tidy(RecvDataStep(r, Arrive(d)), With(r, map[], d))
  {
    if SeqOf(d) > r.expected {
      AddRefines(r.ring, r.expected, map[], SeqOf(d), d);
    } else {
      AdvanceRefines(r.ring, r.expected, map[]);
    }
  }

  /** For a packet inside the window the ring holds exactly the packets buffered, this one
      included, if and only if it is neither old nor below the highest while in BUFFER. */
  lemma TidyIff(r: Receiver, m: Held, d: seq<byte>)
    requires Tidy(r, m) && r.phase in {RecvData, Buffer} && Sized(Arrive(d)) && Verifies(d)
    requires SeqOf(d) < r.expected + r.ring.size
    ensures Tidy(Step(r, Arrive(d)), With(r, m, d)) <==> !Disordered(r, d)
  {
    if r.phase == Buffer { BufferTidyIff(r, m, d); } else { RecvDataTidy(r, d); }
  }

  // ------------------------------------------------------------------- flush

  /** What flush does to one packet: the slot it reads was stored for that number with those
      bytes, and the rest stays as it was. */
  lemma WriteSlotTidy(r: Receiver, m: Held)
    requires r.Wf() && Refines(r.ring, r.expected, m) && r.expected in m
    ensures r.ring.At(r.expected).seqNum == r.expected
    ensures r.ring.At(r.expected).packet[..|m[r.expected]|] == m[r.expected]
    ensures Refines(r.WriteSlot().ring, r.expected + 1, Ahead(m, r.expected + 1))
  {
    var s := r.expected;
    RemoveRefines(r.ring, s, m, s);
    AdvanceRefines(r.ring.Remove(s), s, m - {s});
    assert m - {s} == Ahead(m, s + 1);
  }

  /** The writes of `r'` beyond those of `r` are the held packets in order: write k took its data
      from packet k + 1, and the data is that packet's payload if and only if the length taken for
      it is its own. */
  ghost predicate WroteHeld(r: Receiver, m: Held, r': Receiver) {
    && |r.writes| <= |r'.writes| == |r'.sources| == r'.expected - 1
    && forall k :: |r.writes| <= k < |r'.writes| ==>
         && k + 1 in m && r'.sources[k] == k + 1
         && |m[k + 1]| >= HEADER_LEN
         && (r'.writes[k] == m[k + 1][HEADER_LEN..] <==> r.LenOf(k + 1) == |m[k + 1]|)
  }

  lemma WriteSlotWrites(r: Receiver, m: Held)
    requires Ordered(r) && Refines(r.ring, r.expected, m) && Whole(m) && r.expected in m
    ensures WroteHeld(r, m, r.WriteSlot())
  {
    var s, k := r.expected, r.expected - 1;
    WriteSlotTidy(r, m);
    assert r.WriteSlot().writes[k] == r.ring.At(s).packet[HEADER_LEN..r.LenOf(s)];
    if r.LenOf(s) == |m[s]| {
      assert r.ring.At(s).packet[HEADER_LEN..|m[s]|] == r.ring.At(s).packet[..|m[s]|][HEADER_LEN..];
    }
  }

  predicate SameNotes(r: Receiver, r': Receiver) {
    r.finalSeq == r'.finalSeq && r.finalLen == r'.finalLen && r.dataLen == r'.dataLen
  }

  /** Writes before and after `r1` together. */
  lemma WroteOn(r: Receiver, m: Held, r1: Receiver, r2: Receiver)
    requires WroteHeld(r, m, r1) && WroteHeld(r1, Ahead(m, r1.expected), r2)
    requires r1.writes <= r2.writes && r1.sources <= r2.sources
    requires SameNotes(r, r1)
    ensures WroteHeld(r, m, r2)
  {
    forall k | |r.writes| <= k < |r2.writes|
      ensures k + 1 in m && r2.sources[k] == k + 1 && |m[k + 1]| >= HEADER_LEN
      ensures r2.writes[k] == m[k + 1][HEADER_LEN..] <==> r.LenOf(k + 1) == |m[k + 1]|
    {
      if k < |r1.writes| {
        assert r2.sources[k] == r1.sources[k] && r2.writes[k] == r1.writes[k];
      } else {
        assert r2.sources[k] == k + 1 && k + 1 in Ahead(m, r1.expected) && r.LenOf(k + 1) == r1.LenOf(k + 1);
      }
    }
  }

  /** Where the loop of flush stops. */
  ghost predicate Stops(l: Receiver)
    requires l.Wf()
  {
    l.phase == Finished || (l.phase == Flush && (l.expected == l.highest || !l.ring.IsValid(l.expected)))
  }

  lemma {:induction false} FlushLoopTidy(r: Receiver, m: Held)
    requires Tidy(r, m) && Ordered(r) && r.phase == Flush
    ensures var l := FlushLoop(r);
            Tidy(l, Ahead(m, l.expected)) && WroteHeld(r, m, l) && SameNotes(r, l) && Stops(l)
    decreases r.highest - r.expected
  {
    if r.ring.IsValid(r.expected) && r.expected < r.highest && r.expected != r.eofSeq {
      var w := r.WriteSlot();
      WriteSlotTidy(r, m);
      WriteSlotWrites(r, m);
      FlushLoopTidy(w, Ahead(m, w.expected));
      var l := FlushLoop(w);
      FlushLoopOrdered(w);
      WroteOn(r, m, w, l);
      AheadAhead(m, w.expected, l.expected);
    } else {
      AheadAll(r, m);
    }
  }

  lemma AheadAhead(m: Held, a: nat, b: nat)
    requires a <= b
    ensures Ahead(Ahead(m, a), b) == Ahead(m, b)
  {
  }

  lemma AheadAll(r: Receiver, m: Held)
    requires Tidy(r, m)
    ensures Ahead(m, r.expected) == m
  {
  }

  lemma FlushTailTidy(l: Receiver, n: Held)
    requires Tidy(l, n) && Ordered(l) && l.phase == Flush && (l.expected == l.highest || !l.ring.IsValid(l.expected))
    ensures var r' := FlushTail(l);
            Tidy(r', Ahead(n, r'.expected)) && WroteHeld(l, n, r') && l.writes <= r'.writes && l.sources <= r'.sources
  {
    AheadAll(l, n);
    if l.expected == l.highest && l.expected != l.eofSeq {
      WriteSlotTidy(l, n);
      WriteSlotWrites(l, n);
    }
  }

  /** flush keeps the ring exact, writes the held packets in order, its unguarded last read
      included, and leaves RECV_DATA with an empty ring. */
  lemma FlushTidy(r: Receiver, m: Held)
    requires Tidy(r, m) && Ordered(r) && r.phase == Flush
    ensures var r' := FlushStep(r); Tidy(r', Ahead(m, r'.expected)) && WroteHeld(r, m, r')
  {
    FlushLoopTidy(r, m);
    FlushLoopOrdered(r);
    var l, r' := FlushLoop(r), FlushStep(r);
    if l.phase == Flush {
      FlushTailTidy(l, Ahead(m, l.expected));
      WroteOn(r, m, l, r');
      AheadAhead(m, l.expected, r'.expected);
    }
  }

  // ------------------------------------------------------------------- whole runs

  /** An accepted packet is in the window and not disordered. */
  ghost predicate Orderly(r: Receiver, e: Event)
    requires Sized(e)
  {
    e.Arrive? && Verifies(e.datagram) ==>
      SeqOf(e.datagram) < r.expected + r.ring.size && !Disordered(r, e.datagram)
  }

  /** A run in which every arrival is orderly. */
  ghost predicate OrderlyRun(r: Receiver, events: seq<Event>)
    requires r.Wf() && AllSized(events)
    requires r.phase != Flush
    decreases |events|
  {
    events != [] ==>
      && Orderly(r, events[0])
      && OrderlyRun(Settle(Step(r, events[0])), events[1..])
  }

  /** The packets held after one event, and after a pending flush. */
  function HeldBefore(r: Receiver, m: Held, e: Event): Held
    requires Sized(e)
  {
    if e.Arrive? && Verifies(e.datagram) && r.phase in {RecvData, Buffer} then With(r, m, e.datagram) else m
  }

  ghost function HeldAfter(r: Receiver, m: Held, e: Event): Held
    requires r.Wf() && Sized(e)
  {
    Ahead(HeldBefore(r, m, e), Settle(Step(r, e)).expected)
  }

  /** The packets buffered and not yet written, over a run. */
  ghost function HeldRun(r: Receiver, m: Held, events: seq<Event>): Held
    requires r.Wf() && r.phase != Flush && AllSized(events)
    decreases |events|
  {
    if events == [] then m else HeldRun(Settle(Step(r, events[0])), HeldAfter(r, m, events[0]), events[1..])
  }

  lemma StepTidy(r: Receiver, m: Held, e: Event)
    requires Tidy(r, m) && Ordered(r) && r.phase != Flush && Sized(e) && Orderly(r, e)
    ensures Tidy(Step(r, e), HeldBefore(r, m, e)) && Ordered(Step(r, e))
  {
    StepOrdered(r, e);
    if e.Arrive? && Verifies(e.datagram) && r.phase in {RecvData, Buffer} { TidyIff(r, m, e.datagram); }
  }

  lemma EventTidy(r: Receiver, m: Held, e: Event)
    requires Tidy(r, m) && Ordered(r) && r.phase != Flush && Sized(e) && Orderly(r, e)
    ensures Tidy(Settle(Step(r, e)), HeldAfter(r, m, e)) && Ordered(Settle(Step(r, e)))
  {
    var r1, m1 := Step(r, e), HeldBefore(r, m, e);
    StepTidy(r, m, e);
    SettleOrdered(r1);
    if r1.phase == Flush { FlushTidy(r1, m1); } else { AheadAll(r1, m1); }
  }

  /** The receiver buffer invariant over every orderly run. */
  lemma {:induction false} OrderlyRunTidy(r: Receiver, m: Held, events: seq<Event>)
    requires Tidy(r, m) && Ordered(r) && r.phase != Flush && AllSized(events)
    requires OrderlyRun(r, events)
    ensures Tidy(Run(r, events), HeldRun(r, m, events))
    decreases |events|
  {
    if events != [] {
      EventTidy(r, m, events[0]);
      OrderlyRunTidy(Settle(Step(r, events[0])), HeldAfter(r, m, events[0]), events[1..]);
    }
  }
}
