/** The server always comes to an end: whatever datagrams arrive, once the network falls silent
    process_client terminates, after a bounded number of packets. */
module SenderTermination {
  import opened Checksum
  import opened Pdu
  import opened Ring
  import opened Segmentation
  import opened Events
  import opened SenderMachine
  import opened SenderContent

  ghost predicate AllSizedAcks(events: seq<Event>) {
    forall i :: 0 <= i < |events| ==> SizedAck(events[i])
  }

  /** Packets left to send for the first time, the end of file included. */
  function Left(s: Sender): nat
    requires s.bufSize >= 1
  {
    |Split(s.rest, s.bufSize)| + (if s.finished then 0 else 1)
  }

  /** A turn of SEND_DATA sends one of them or waits. */
  lemma LeftShrinks(s: Sender, junk: byte)
    requires Steady(s) && s.phase == SendData
    ensures var s' := SendDataStep(s, junk);
            (Left(s') == Left(s) - 1 && |s'.sent| == |s.sent| + 1)
            || (Left(s') == Left(s) && s'.sent == s.sent && s'.phase == WaitOnAck)
  {
    if s.rest != [] { SplitStep(s.rest, s.bufSize); }
  }

  /** Timeouts the server will still sit through, in both loops. */
  function Patience(s: Sender): int {
    2 * MAX_RETRANS + 1 - s.retry - s.eofRetry
  }

  function Rank(s: Sender): nat {
    if Waiting(s) || Over(s) then 0 else 1
  }

  /** The measure (poll results left, file left to send, timeouts left, state) goes down. */
  ghost predicate Closer(s: Sender, events: seq<Event>, s': Sender, events': seq<Event>)
    requires s.bufSize >= 1 && s'.bufSize >= 1
  {
    || |events'| < |events|
    || (|events'| == |events| && Left(s') < Left(s))
    || (|events'| == |events| && Left(s') == Left(s) && Patience(s') < Patience(s) && Patience(s) > 0)
    || (|events'| == |events| && Left(s') == Left(s) && Patience(s') == Patience(s) && Rank(s') < Rank(s))
  }

  /** process_client, server.c:123-159, on a finite sequence of poll results followed by silence.
      That this function is well defined is the termination of the server: the measure is
      (poll results left, file left to send, timeouts left, state). */
  ghost function ServerRun(s: Sender, events: seq<Event>, junk: byte): Sender
    requires Steady(s) && AllSizedAcks(events)
    decreases |events|, Left(s), Patience(s), Rank(s)
  {
    if Over(s) then s
    else if Waiting(s) then
      OuterSteady(s, NextEvent(events));
      ServerRun(Outer(s, NextEvent(events)), Later(events), junk)
    else
      InnerSteady(s, junk);
      ServerRun(Inner(s, junk), events, junk)
  }

  lemma RunInner(s: Sender, events: seq<Event>, junk: byte)
    requires Steady(s) && AllSizedAcks(events) && !Waiting(s) && !Over(s)
    ensures Steady(Inner(s, junk)) && ServerRun(s, events, junk) == ServerRun(Inner(s, junk), events, junk)
    ensures Closer(s, events, Inner(s, junk), events)
  {
    InnerSteady(s, junk);
  }

  /** What the next poll yields, and what is left after it. */
  function NextEvent(events: seq<Event>): Event {
    if events == [] then Timeout else events[0]
  }

  function Later(events: seq<Event>): seq<Event> {
    if events == [] then [] else events[1..]
  }

  lemma RunOuter(s: Sender, events: seq<Event>, junk: byte)
    requires Steady(s) && AllSizedAcks(events) && Waiting(s)
    ensures SizedAck(NextEvent(events)) && AllSizedAcks(Later(events))
    ensures Steady(Outer(s, NextEvent(events)))
    ensures ServerRun(s, events, junk) == ServerRun(Outer(s, NextEvent(events)), Later(events), junk)
    ensures Closer(s, events, Outer(s, NextEvent(events)), Later(events))
  {
    OuterSteady(s, NextEvent(events));
  }

  /** The packets a run can still send when `n` poll results are left: the unread chunks and the
      end of file, ten resends after every datagram and once at the end, one answer per SREJ, and
      ten copies of the end of file, as long as that loop has been or can still be entered. */
  function Budget(s: Sender, n: nat): int
    requires s.bufSize >= 1
  {
    Left(s) + (MAX_RETRANS + 1) * n
    + (match s.phase
       case WaitOnAck => MAX_RETRANS - s.retry
       case TimeoutOnAck => MAX_RETRANS + 1 - s.retry
       case SendData => MAX_RETRANS
       case _ => 0)
    + (if n > 0 || s.phase in {WaitOnEofAck, EofPoll} then MAX_RETRANS - s.eofRetry else 0)
    - (if s.phase == EofPoll then 1 else 0)
  }

  lemma InnerBudget(s: Sender, junk: byte, n: nat)
    requires Steady(s) && !Waiting(s) && !Over(s)
    ensures var s' := Inner(s, junk);
            !Over(s') ==> |s'.sent| + Budget(s', n) <= |s.sent| + Budget(s, n)
    ensures var s' := Inner(s, junk);
            Over(s') ==> |s'.sent| <= |s.sent| + Budget(s, n)
  {
    if s.phase == SendData { LeftShrinks(s, junk); }
  }

  lemma OuterBudget(s: Sender, e: Event, n: nat)
    requires Steady(s) && Waiting(s) && SizedAck(e) && (n > 0 || e == Timeout)
    ensures var s', n' := Outer(s, e), if n > 0 then n - 1 else 0;
            && (!Over(s') ==> |s'.sent| + Budget(s', n') <= |s.sent| + Budget(s, n))
            && (Over(s') ==> |s'.sent| <= |s.sent| + Budget(s, n))
  {
  }

  /** Every run ends, with no more packets sent than the budget allows. */
  lemma {:induction false} ServerTerminates(s: Sender, events: seq<Event>, junk: byte)
    requires Steady(s) && AllSizedAcks(events)
    ensures Over(ServerRun(s, events, junk))
    ensures !Over(s) ==> |ServerRun(s, events, junk).sent| <= |s.sent| + Budget(s, |events|)
    decreases |events|, Left(s), Patience(s), Rank(s)
  {
    if Over(s) {
    } else if Waiting(s) {
      RunOuter(s, events, junk);
      OuterBudget(s, NextEvent(events), |events|);
      ServerTerminates(Outer(s, NextEvent(events)), Later(events), junk);
    } else {
      RunInner(s, events, junk);
      InnerBudget(s, junk, |events|);
      ServerTerminates(Inner(s, junk), events, junk);
    }
  }

  ghost predicate Silent(events: seq<Event>) {
    forall i :: 0 <= i < |events| ==> events[i] == Timeout
  }

  /** Consecutive silent retransmissions number at most ten: a server that waits for an
      acknowledgement and hears nothing, for however many polls, resends at most ten times, less
      the timeouts it has sat through already, and gives up. */
  lemma {:induction false} SilentResends(s: Sender, events: seq<Event>, junk: byte)
    requires Steady(s) && Silent(events) && s.phase in {WaitOnAck, TimeoutOnAck}
    ensures AllSizedAcks(events)
    ensures var s' := ServerRun(s, events, junk);
            && Over(s') && s.sent <= s'.sent
            && |s'.sent| <= |s.sent| + (MAX_RETRANS - s.retry) + (if s.phase == TimeoutOnAck then 1 else 0)
    decreases MAX_RETRANS - s.retry, Rank(s)
  {
    if s.phase == WaitOnAck {
      RunOuter(s, events, junk);
      var s' := Outer(s, Timeout);
      if !Over(s') { SilentResends(s', Later(events), junk); }
    } else {
      RunInner(s, events, junk);
      var s' := Inner(s, junk);
      if !Over(s') { SilentResends(s', events, junk); }
    }
  }

  /** Datagrams that make the end-of-file loop go round without counting as a failure. */
  function Strays(events: seq<Event>): nat {
    if events == [] then 0
    else
      (match events[0]
       case Timeout => 0
       case Arrive(d) => if |d| >= HEADER_LEN && Verifies(d) && FlagOf(d) != EOF_ACK then 1 else 0)
      + Strays(events[1..])
  }

  /** The end-of-file loop sends at most ten copies plus one per valid datagram that is not an
      EOF_ACK, and nothing else. */
  lemma {:induction false} EofCopiesBounded(s: Sender, events: seq<Event>, junk: byte)
    requires Steady(s) && AllSizedAcks(events) && s.phase in {WaitOnEofAck, EofPoll}
    ensures var r := ServerRun(s, events, junk);
            && s.sent <= r.sent
            && |r.sent| <= |s.sent| + (MAX_RETRANS - s.eofRetry) + Strays(events)
                           - (if s.phase == EofPoll then 1 else 0)
            && forall k :: |s.sent| <= k < |r.sent| ==> r.sent[k] == s.ring.At(s.lastSeq).packet[..s.eofLen]
    decreases |events|, MAX_RETRANS + 1 - s.eofRetry, Rank(s)
  {
    if s.phase == EofPoll {
      RunOuter(s, events, junk);
      var s' := Outer(s, NextEvent(events));
      if !Over(s') { EofCopiesBounded(s', Later(events), junk); }
    } else {
      RunInner(s, events, junk);
      var s' := Inner(s, junk);
      if !Over(s') { EofCopiesBounded(s', events, junk); }
    }
  }

  // ------------------------------------------------------------------- bursts

  /** The turns of SEND_DATA up to the next wait. */
  ghost function Burst(s: Sender, junk: byte): (s': Sender)
    requires Steady(s)
    ensures Steady(s')
    decreases Left(s), s.phase == SendData
  {
    if s.phase != SendData then s
    else
      SendDataSteady(s, junk);
      Burst(SendDataStep(s, junk), junk)
  }

  /** A burst is as long as the window is open, or as what is left; but with `current` above
      `upper` the window never fills, and everything left goes out. */
  lemma {:induction false} BurstLength(s: Sender, junk: byte)
    requires Steady(s) && s.phase == SendData
    ensures var s', room := Burst(s, junk), s.ring.upper - s.ring.current;
            && s'.phase == WaitOnAck
            && |s'.sent| == |s.sent| + (if 0 <= room < Left(s) then room else Left(s))
            && (s'.finished <==> s.finished || !(0 <= room < Left(s)))
    decreases Left(s)
  {
    SendDataSteady(s, junk);
    LeftShrinks(s, junk);
    var t := SendDataStep(s, junk);
    if t.phase == SendData { BurstLength(t, junk); }
  }

  /** What an RR older than current - size does to a server with packets left: they all go out at
      once, the end of file included, with no window to hold them back. */
  lemma OldRrFloods(s: Sender, d: seq<byte>, junk: byte)
    requires Steady(s) && s.phase == WaitOnAck && s.retry < MAX_RETRANS
    requires SizedAck(Arrive(d)) && Verifies(d) && FlagOf(d) == RR && ValueOf(d) != s.finalSeq + 1
    requires ValueOf(d) + s.ring.size < s.ring.current
    ensures var s1 := WaitOnAckStep(s, Arrive(d));
            && Steady(s1) && s1.phase == SendData && s1.ring.upper < s1.ring.current && s1.sent == s.sent
            && Burst(s1, junk).finished && |Burst(s1, junk).sent| == |s.sent| + Left(s)
  {
    OuterSteady(s, Arrive(d));
    BurstLength(WaitOnAckStep(s, Arrive(d)), junk);
  }
}
