/** What the receiver does for its side of the protocol: which control packets each arrival and each
    flush adds, that the packet it waits for has been asked for, that a rejected datagram is as good
    as lost, and when it leaves. */
module ReceiverAnswers {
  import opened Checksum
  import opened Pdu
  import opened Ring
  import opened Events
  import opened ReceiverMachine
  import opened ReceiverOrder

  /** The control packets `r'` has sent beyond those of `r`, all under the number `clientSeq`. */
  ghost predicate Adds(r: Receiver, r': Receiver, answers: seq<(byte, nat)>) {
    && |r'.sent| == |r.sent| + |answers| && r.sent <= r'.sent
    && forall k :: 0 <= k < |answers| ==>
         r'.sent[|r.sent| + k] == Control(r.clientSeq, answers[k].0, answers[k].1)
  }

  // ------------------------------------------------------------------- one arrival

  /** recv_data answers every accepted packet with exactly one control packet and moves its own
      number on by one, except that it exits on the end of file: an acknowledgement of the packet,
      or, ahead of its turn, a request for the one expected. */
  lemma RecvDataAnswers(r: Receiver, d: seq<byte>)
    requires r.Wf() && r.phase == RecvData && Sized(Arrive(d)) && Verifies(d)
    ensures var r', s := RecvDataStep(r, Arrive(d)), SeqOf(d);
            && (s > r.expected ==> Adds(r, r', [(SREJ, r.expected)]) && r'.phase == Buffer)
            && (s <= r.expected ==> Adds(r, r', [(if r'.phase == Finished then EOF_ACK else RR, s + 1)]))
            && (r'.phase == Finished <==> s == r.expected && FlagOf(d) == END_OF_FILE)
            && (r'.phase == RecvData <==> s < r.expected || (s == r.expected && FlagOf(d) != END_OF_FILE))
            && r'.clientSeq == r.clientSeq + (if r'.phase == Finished then 0 else 1)
            && r'.highest == (if s >= r.expected && r'.phase != Finished then s else r.highest)
  {
  }

  /** buffer answers only an old packet: it asks for the expected one and acknowledges the old one,
      and falls back to RECV_DATA. It goes to flush exactly when the expected packet arrives. */
  lemma BufferAnswers(r: Receiver, d: seq<byte>)
    requires r.Wf() && r.phase == Buffer && Sized(Arrive(d)) && Verifies(d)
    ensures var r', s := BufferStep(r, Arrive(d)), SeqOf(d);
            && Adds(r, r', if s < r.expected then [(SREJ, r.expected), (RR, s + 1)] else [])
            && (r'.phase == RecvData <==> s < r.expected)
            && (r'.phase == Flush <==> s == r.expected)
            && (r'.phase == Buffer <==> s > r.expected)
            && r'.clientSeq == r.clientSeq
            && r'.highest == (if s > r.expected then s else r.highest)
  {
  }

  /** The packet that closes the hole frees its slot, whatever was in it, and touches no other; in
      RECV_DATA the slot of a packet taken in order is left as it is. */
  lemma InOrderSlot(r: Receiver, d: seq<byte>)
    requires r.Wf() && r.phase in {RecvData, Buffer} && Sized(Arrive(d)) && Verifies(d) && SeqOf(d) == r.expected
    ensures var r' := Step(r, Arrive(d));
            && (r.phase == RecvData ==> r'.ring == r.ring)
            && (r.phase == Buffer ==>
                  && !r'.ring.IsValid(r.expected)
                  && forall t: nat :: r.expected < t < r.expected + r.ring.size ==> r'.ring.At(t) == r.ring.At(t))
  {
    PutFrame(r.ring, r.expected, r.ring.At(r.expected).(valid := false));
  }

  /** An accepted DATA packet will be read back over exactly its own length, shorter or longer than
      the usual one, unless it has the usual length and another was noted for its number before. No
      other packet changes a length. */
  lemma NoteKeepsLength(r: Receiver, d: seq<byte>)
    requires r.Wf() && Sized(Arrive(d))
    ensures FlagOf(d) == DATA ==>
              (r.Note(d).LenOf(SeqOf(d)) == |d| <==> |d| != r.dataLen || r.finalSeq != SeqOf(d) || r.finalLen == |d|)
    ensures FlagOf(d) != DATA || |d| == r.dataLen ==> forall s :: r.Note(d).LenOf(s) == r.LenOf(s)
    ensures r.Note(d).eofSeq == (if FlagOf(d) == END_OF_FILE then SeqOf(d) else r.eofSeq)
  {
  }

  /** In RECV_DATA every accepted packet is noted, in BUFFER every one that is not old. */
  lemma ArrivalNoted(r: Receiver, d: seq<byte>)
    requires r.Wf() && r.phase in {RecvData, Buffer} && Sized(Arrive(d)) && Verifies(d)
    ensures var r', n := Step(r, Arrive(d)), if r.phase == RecvData || SeqOf(d) >= r.expected then r.Note(d) else r;
            r'.finalLen == n.finalLen && r'.finalSeq == n.finalSeq && r'.eofSeq == n.eofSeq
  {
  }

  // ------------------------------------------------------------------- flush

  lemma {:induction false} FlushLoopAnswers(r: Receiver)
    requires Ordered(r) && r.phase == Flush
    ensures var l := FlushLoop(r);
            && l.clientSeq == r.clientSeq && l.eofSeq == r.eofSeq && l.highest == r.highest
            && (l.phase == Finished ==> l.expected == r.eofSeq < r.highest && Adds(r, l, [(EOF_ACK, l.expected)]))
            && (l.phase == Flush ==> l.sent == r.sent)
            && (l.phase == Flush && l.expected < l.highest ==> !l.ring.IsValid(l.expected))
    decreases r.highest - r.expected
  {
    if r.ring.IsValid(r.expected) && r.expected < r.highest && r.expected != r.eofSeq {
      FlushLoopAnswers(r.WriteSlot());
    }
  }

  /** What flush says when it leaves. For BUFFER: a request for the hole it stopped at, and the
      acknowledgement of everything before it. For RECV_DATA: the acknowledgement of what came before
      its last write. When it ends: the acknowledgement of the end of file. */
  lemma FlushAnswers(r: Receiver)
    requires Ordered(r) && r.phase == Flush
    ensures var r' := FlushStep(r);
            && (r'.phase == Buffer ==> Adds(r, r', [(SREJ, r'.expected), (RR, r'.expected)]))
            && (r'.phase == RecvData ==> Adds(r, r', [(RR, r'.expected - 1)]))
            && (r'.phase == Finished ==>
                  && r'.expected == r.eofSeq
                  && Adds(r, r', if r'.expected < r.highest then [(EOF_ACK, r'.expected)]
                                 else [(RR, r'.expected), (EOF_ACK, r'.expected)]))
            && r'.phase in {Buffer, RecvData, Finished} && r'.clientSeq == r.clientSeq
  {
    FlushLoopOrdered(r);
    FlushLoopAnswers(r);
  }

  // ------------------------------------------------------------------- the hole has been asked for

  /** The packet that BUFFER waits for has been requested. */
  ghost predicate Asked(r: Receiver) {
    r.phase == Buffer ==> exists k :: 0 <= k < |r.sent| && r.sent[k].flag == SREJ && r.sent[k].value == r.expected
  }

  lemma AddsAsks(r: Receiver, r': Receiver, answers: seq<(byte, nat)>)
    requires Adds(r, r', answers) && |answers| > 0 && answers[0] == (SREJ, r'.expected)
    ensures Asked(r')
  {
    assert r'.sent[|r.sent| + 0] == Control(r.clientSeq, SREJ, r'.expected);
  }

  /** A request that was sent stays sent. */
  lemma StillAsked(r: Receiver, r': Receiver)
    requires Asked(r) && r.phase == Buffer && r.sent <= r'.sent && r'.expected == r.expected
    ensures Asked(r')
  {
    var k :| 0 <= k < |r.sent| && r.sent[k].flag == SREJ && r.sent[k].value == r.expected;
    assert r'.sent[k] == r.sent[k];
  }

  lemma EventAsked(r: Receiver, e: Event)
    requires Ordered(r) && Asked(r) && r.phase != Flush && Sized(e)
    ensures Asked(Settle(Step(r, e))) && Ordered(Settle(Step(r, e)))
  {
    var r1 := Step(r, e);
    StepOrdered(r, e);
    SettleOrdered(r1);
    if r1.phase == Flush {
      FlushAnswers(r1);
      if Settle(r1).phase == Buffer {
        AddsAsks(r1, Settle(r1), [(SREJ, Settle(r1).expected), (RR, Settle(r1).expected)]);
      }
    } else if r1.phase == Buffer && r.phase == RecvData {
      RecvDataAnswers(r, e.datagram);
      AddsAsks(r, r1, [(SREJ, r.expected)]);
    } else if r1.phase == Buffer {
      StillAsked(r, r1);
    }
  }

  /** Over every trace: whenever the receiver waits in BUFFER, an SREJ for exactly the packet it
      waits for has been sent. */
  lemma {:induction false} EveryHoleAsked(r: Receiver, events: seq<Event>)
    requires Ordered(r) && Asked(r) && r.phase != Flush && AllSized(events)
    ensures Asked(Run(r, events))
    decreases |events|
  {
    if events != [] {
      EventAsked(r, events[0]);
      EveryHoleAsked(Settle(Step(r, events[0])), events[1..]);
    }
  }

  // ------------------------------------------------------------------- rejected is lost

  predicate Rejected(e: Event) {
    e.Arrive? && !Verifies(e.datagram)
  }

  /** The events without the datagrams that do not verify. */
  ghost function Accepted(events: seq<Event>): (r: seq<Event>)
    requires AllSized(events)
    ensures AllSized(r)
    decreases |events|
  {
    if events == [] then []
    else if Rejected(events[0]) then Accepted(events[1..])
    else [events[0]] + Accepted(events[1..])
  }

  /** Corruption equals loss for the receiver: over every trace it ends up as if the datagrams that
      do not verify had never arrived. */
  lemma {:induction false} RejectedIsLost(r: Receiver, events: seq<Event>)
    requires r.Wf() && r.phase != Flush && AllSized(events)
    ensures Run(r, events) == Run(r, Accepted(events))
    decreases |events|
  {
    if events != [] {
      var rest := Accepted(events[1..]);
      RejectedIsLost(Settle(Step(r, events[0])), events[1..]);
      if !Rejected(events[0]) {
        assert ([events[0]] + rest)[0] == events[0] && ([events[0]] + rest)[1..] == rest;
      }
    }
  }

  // ------------------------------------------------------------------- leaving

  /** A client that waits leaves for good on a timeout, with nothing sent or written. */
  lemma TimeoutLeaves(r: Receiver)
    requires r.Wf() && r.phase in {RecvData, Buffer}
    ensures Step(r, Timeout) == r.(phase := TimedOut)
  {
  }

  /** A client that is still at work has heard no timeout, and one that has heard none has not left
      on one. */
  lemma {:induction false} LeavesOnTimeoutIff(r: Receiver, events: seq<Event>)
    requires Ordered(r) && r.phase in {RecvData, Buffer} && AllSized(events)
    ensures var r' := Run(r, events);
            && (r'.phase in {RecvData, Buffer} ==> Timeout !in events)
            && (Timeout !in events ==> r'.phase != TimedOut)
    decreases |events|
  {
    if events != [] {
      var r1 := Step(r, events[0]);
      StepOrdered(r, events[0]);
      SettleOrdered(r1);
      if r1.phase == Flush { FlushAnswers(r1); }
      var r2 := Settle(r1);
      if r2.phase in {RecvData, Buffer} {
        LeavesOnTimeoutIff(r2, events[1..]);
      } else {
        GoneForGood(r2, events[1..]);
      }
    }
  }

  lemma {:induction false} GoneForGood(r: Receiver, events: seq<Event>)
    requires r.Wf() && r.phase in {TimedOut, Finished} && AllSized(events)
    ensures Run(r, events) == r
    decreases |events|
  {
    if events != [] { GoneForGood(r, events[1..]); }
  }
}
