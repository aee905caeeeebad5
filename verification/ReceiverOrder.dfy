/** What the receiver keeps on every trace, whatever arrives: the order of `expected` and
    `highest`, the soundness of its acknowledgements, and one write per packet. */
module ReceiverOrder {
  import opened Checksum
  import opened Pdu
  import opened Ring
  import opened Events
  import opened ReceiverMachine

  /** Every RR and SREJ ever sent names a packet up to `expected`, which is one more than the
      number of packets written: no acknowledgement runs ahead of the disk. */
  ghost predicate AcksSound(r: Receiver) {
    && |r.writes| == |r.sources| == r.expected - 1
    && forall k :: 0 <= k < |r.sent| && (r.sent[k].flag == RR || r.sent[k].flag == SREJ)
                   ==> r.sent[k].value <= r.expected
  }

  ghost predicate Ordered(r: Receiver) {
    && r.Wf()
    && AcksSound(r)
    && (r.phase == Buffer ==> r.expected < r.highest)
    && (r.phase == Flush ==> r.expected <= r.highest)
  }

  /** Nothing already written or sent changes, `expected` never goes back, and an SREJ names
      exactly the packet that is expected after the step. */
  ghost predicate Grows(r: Receiver, r': Receiver) {
    && r.expected <= r'.expected
    && r.writes <= r'.writes && r.sources <= r'.sources
    && r.sent <= r'.sent
    && forall k :: |r.sent| <= k < |r'.sent| && r'.sent[k].flag == SREJ ==> r'.sent[k].value == r'.expected
  }

  /** The loop of flush stops at `highest` or at a hole, never beyond. */
  lemma {:induction false} FlushLoopOrdered(r: Receiver)
    requires Ordered(r) && r.phase == Flush
    ensures var l := FlushLoop(r);
            && Ordered(l) && Grows(r, l) && l.expected <= l.highest
            && (l.phase == Finished || (l.phase == Flush && (l.expected == l.highest || !l.ring.IsValid(l.expected))))
            && (l.phase == Finished || l.sent == r.sent)
    decreases r.highest - r.expected
  {
    if !(!r.ring.IsValid(r.expected) || r.expected >= r.highest) && r.expected != r.eofSeq {
      FlushLoopOrdered(r.WriteSlot());
    }
  }

  /** flush's last write happens only at equality, and it goes back to BUFFER only with a hole
      at `expected`. */
  lemma FlushOrdered(r: Receiver)
    requires Ordered(r) && r.phase == Flush
    ensures var r' := FlushStep(r);
            && Ordered(r') && Grows(r, r') && r'.phase in {RecvData, Buffer, Finished}
            && (r'.phase == Buffer ==> r'.expected < r'.highest && !r'.ring.IsValid(r'.expected))
            && (r'.phase == RecvData ==> r'.expected == r'.highest + 1)
  {
    FlushLoopOrdered(r);
  }

  lemma RecvDataOrdered(r: Receiver, d: seq<byte>)
    requires Ordered(r) && Sized(Arrive(d)) && r.phase == RecvData && Verifies(d)
    ensures var r' := RecvDataStep(r, Arrive(d)); Ordered(r') && Grows(r, r')
  {
  }

  lemma BufferOrdered(r: Receiver, d: seq<byte>)
    requires Ordered(r) && Sized(Arrive(d)) && r.phase == Buffer && Verifies(d)
    ensures var r' := BufferStep(r, Arrive(d)); Ordered(r') && Grows(r, r')
  {
  }

  lemma StepOrdered(r: Receiver, e: Event)
    requires Ordered(r) && Sized(e)
    ensures Ordered(Step(r, e)) && Grows(r, Step(r, e))
  {
    if r.phase == Flush {
      FlushOrdered(r);
    } else if e.Arrive? && Verifies(e.datagram) && r.phase == RecvData {
      RecvDataOrdered(r, e.datagram);
    } else if e.Arrive? && Verifies(e.datagram) && r.phase == Buffer {
      BufferOrdered(r, e.datagram);
    }
  }

  lemma SettleOrdered(r: Receiver)
    requires Ordered(r)
    ensures Ordered(Settle(r)) && Grows(r, Settle(r))
  {
    if r.phase == Flush { FlushOrdered(r); }
  }

  /** Acknowledgement soundness, exactly-once writing and the order of the two counters, over
      every finite sequence of datagrams and timeouts. */
  lemma {:induction false} EveryTraceOrdered(r: Receiver, events: seq<Event>)
    requires Ordered(r) && r.phase != Flush && AllSized(events)
    ensures var r' := Run(r, events);
            && Ordered(r') && r.expected <= r'.expected
            && r.writes <= r'.writes && r.sources <= r'.sources && r.sent <= r'.sent
    decreases |events|
  {
    if events != [] {
      StepOrdered(r, events[0]);
      SettleOrdered(Step(r, events[0]));
      EveryTraceOrdered(Settle(Step(r, events[0])), events[1..]);
    }
  }

  lemma StartOrdered(size: nat, bufSize: nat, clientSeq: nat)
    requires size >= 1 && bufSize <= MAX_PDU - HEADER_LEN
    ensures Ordered(Start(size, bufSize, clientSeq))
  {
  }
}
