/** What the sender does for its side of the protocol: where each acknowledgement takes it, how
    patient it is, and that it sends again what is not answered. */
module SenderAnswers {
  import opened Checksum
  import opened Pdu
  import opened Ring
  import opened Transfer
  import opened Events
  import opened SenderMachine
  import opened SenderContent
  import opened SenderTermination

  // ------------------------------------------------------------------- wait_on_ack

  /** Any datagram that wait_on_ack polls, good or bad, gives the server its patience back; only a
      timeout costs some, and is followed by a resend. */
  lemma DatagramResets(s: Sender, e: Event)
    requires s.Wf() && s.phase == WaitOnAck && s.retry < MAX_RETRANS && SizedAck(e)
    ensures e.Arrive? ==> WaitOnAckStep(s, e).retry == 0
    ensures e.Timeout? ==> WaitOnAckStep(s, e) == s.(retry := s.retry + 1, phase := TimeoutOnAck)
  {
  }

  /** Where a datagram takes it: a rejected one nowhere, an SREJ or an RR back to SEND_DATA, the RR
      after the short last packet to the end-of-file wait, and anything else, EOF_ACK included, to
      the end. Only an SREJ makes it send. */
  lemma AckLeadsTo(s: Sender, d: seq<byte>)
    requires s.Wf() && s.phase == WaitOnAck && s.retry < MAX_RETRANS && SizedAck(Arrive(d))
    ensures var s', rr, srej := WaitOnAckStep(s, Arrive(d)), FlagOf(d) == RR, FlagOf(d) == SREJ;
            && (s'.phase == WaitOnAck <==> !Verifies(d))
            && (!Verifies(d) ==> s' == s.(retry := 0))
            && (s'.phase == WaitOnEofAck <==> Verifies(d) && rr && ValueOf(d) == s.finalSeq + 1)
            && (s'.phase == Done <==> Verifies(d) && !rr && !srej)
            && (Verifies(d) && rr && ValueOf(d) != s.finalSeq + 1 ==>
                  && s'.phase == SendData && !s'.ring.IsValid(ValueOf(d))
                  && s'.ring.lower == ValueOf(d) && s'.ring.upper == ValueOf(d) + s.ring.size)
            && (!(Verifies(d) && srej) ==> s'.sent == s.sent)
            && (s'.phase in {WaitOnEofAck, Done} ==> s'.ring == s.ring)
  {
  }

  /** An SREJ for the packet that is next to be sent is not answered. */
  lemma UnsentSrej(s: Sender, srej: nat)
    requires s.Wf()
    ensures srej == s.seqNum ==> SrejStep(s, srej).sent == s.sent
    ensures srej != s.seqNum && s.LenOf(srej) > 0 ==> |SrejStep(s, srej).sent| == |s.sent| + 1
    ensures SrejStep(s, srej).phase == SendData || (srej != s.seqNum && s.LenOf(srej) == 0)
  {
  }

  // ------------------------------------------------------------------- patience

  /** A server out of patience ends without another poll. */
  predicate Polls(s: Sender) {
    s.phase == EofPoll || (s.phase == WaitOnAck && s.retry < MAX_RETRANS)
  }

  /** process_client as far as a finite sequence of poll results takes it, silence not implied: it
      stops where the next poll would be. */
  ghost function SoFar(s: Sender, events: seq<Event>, junk: byte): (s': Sender)
    requires Steady(s) && AllSizedAcks(events)
    ensures Steady(s')
    decreases |events|, Left(s), Patience(s), Rank(s)
  {
    if Over(s) || (Polls(s) && events == []) then s
    else if Polls(s) then
      OuterSteady(s, events[0]);
      SoFar(Outer(s, events[0]), events[1..], junk)
    else if s.phase == WaitOnAck then
      OuterSteady(s, Timeout);
      SoFar(Outer(s, Timeout), events, junk)
    else
      RunInner(s, events, junk);
      SoFar(Inner(s, junk), events, junk)
  }

  /** Never ten timeouts in a row, `quiet` of them before the first event. */
  predicate Chatty(events: seq<Event>, quiet: nat) {
    events == [] ||
    var q := if events[0].Timeout? then quiet + 1 else 0;
    q < MAX_RETRANS && Chatty(events[1..], q)
  }

  predicate AtEof(s: Sender) {
    s.phase in {WaitOnEofAck, EofPoll}
  }

  /** How often the server can have timed out: no more than the last polls in a row were silent. */
  predicate Heard(s: Sender, quiet: nat) {
    s.retry < MAX_RETRANS && (AtEof(s) || Over(s) || s.retry <= quiet)
  }

  lemma PollHeard(s: Sender, e: Event, quiet: nat)
    requires Steady(s) && Polls(s) && Heard(s, quiet) && SizedAck(e)
    requires e.Timeout? ==> quiet + 1 < MAX_RETRANS
    ensures Heard(Outer(s, e), if e.Timeout? then quiet + 1 else 0)
  {
    if s.phase == WaitOnAck { DatagramResets(s, e); }
  }

  lemma InnerHeard(s: Sender, quiet: nat, junk: byte)
    requires Steady(s) && !Waiting(s) && !Over(s) && Heard(s, quiet)
    ensures Heard(Inner(s, junk), quiet)
  {
  }

  /** The server gives up in WAIT_ON_ACK only after ten silent polls in a row: over every trace that
      has no ten in a row it never does. */
  lemma {:induction false} GivesUpOnlyAfterSilence(s: Sender, events: seq<Event>, quiet: nat, junk: byte)
    requires Steady(s) && AllSizedAcks(events) && Heard(s, quiet) && Chatty(events, quiet)
    ensures SoFar(s, events, junk).retry < MAX_RETRANS
    decreases |events|, Left(s), Patience(s), Rank(s)
  {
    if Over(s) || (Polls(s) && events == []) {
    } else if Polls(s) {
      OuterSteady(s, events[0]);
      PollHeard(s, events[0], quiet);
      GivesUpOnlyAfterSilence(Outer(s, events[0]), events[1..], if events[0].Timeout? then quiet + 1 else 0, junk);
    } else {
      RunInner(s, events, junk);
      InnerHeard(s, quiet, junk);
      GivesUpOnlyAfterSilence(Inner(s, junk), events, quiet, junk);
    }
  }

  // ------------------------------------------------------------------- silence

  /** The slot of `lower` holds a packet with a length, so a resend from it is not empty. */
  predicate HasLower(s: Sender)
    requires s.Wf()
  {
    s.LenOf(SeqOf(s.ring.At(s.ring.lower).packet)) >= HEADER_LEN
  }

  lemma SoundHasLower(s: Sender, job: Job)
    requires Sound(s, job) && s.ring.lower < s.ring.current
    ensures HasLower(s)
  {
    var t := Occupant(s, job, s.ring.lower);
  }

  /** A timeout sends one packet, the one in the slot of `lower`, and leaves its number there. */
  lemma TimeoutSendsLower(s: Sender)
    requires s.Wf() && s.phase == TimeoutOnAck && HasLower(s)
    ensures var s', t := TimeoutStep(s), SeqOf(s.ring.At(s.ring.lower).packet);
            && s'.phase == WaitOnAck && s'.retry == s.retry && HasLower(s')
            && |s'.sent| == |s.sent| + 1 && s.sent <= s'.sent
            && |s'.sent[|s.sent|]| >= HEADER_LEN && SeqOf(s'.sent[|s.sent|]) == t
            && FlagOf(s'.sent[|s.sent|]) == DATA_TIMEOUT
            && SeqOf(s'.ring.At(s'.ring.lower).packet) == t
  {
    var p := s.ring.At(s.ring.lower).packet;
    var len := s.LenOf(SeqOf(p));
    RewrittenNumber(p, DATA_TIMEOUT, len);
    RewrittenNumber(p, DATA_TIMEOUT, MAX_PDU);
    var q := Rewritten(p, DATA_TIMEOUT, len);
    assert q[0] == p[0] && q[1] == p[1] && q[2] == p[2] && q[3] == p[3];
    PutFrame(s.ring, s.ring.lower, s.ring.At(s.ring.lower).(packet := q));
  }

  /** The packets beyond the first `n` are timeout resends of packet `t`. */
  ghost predicate ResendsOf(sent: seq<seq<byte>>, n: nat, t: nat) {
    forall k :: n <= k < |sent| ==> |sent[k]| >= HEADER_LEN && SeqOf(sent[k]) == t && FlagOf(sent[k]) == DATA_TIMEOUT
  }

  /** How many resends are left to a server that hears nothing. */
  function ResendsLeft(s: Sender): int {
    MAX_RETRANS - s.retry + (if s.phase == TimeoutOnAck then 1 else 0)
  }

  /** In silence, however long, the server resends packet `lower` once for each poll it has patience
      left for, ten from a fresh wait, and then ends. */
  lemma {:induction false} SilenceExact(s: Sender, events: seq<Event>, junk: byte)
    requires Steady(s) && Silent(events) && s.phase in {WaitOnAck, TimeoutOnAck} && HasLower(s)
    ensures AllSizedAcks(events)
    ensures var s', t := ServerRun(s, events, junk), SeqOf(s.ring.At(s.ring.lower).packet);
            && s'.phase == Done && s.sent <= s'.sent && |s'.sent| == |s.sent| + ResendsLeft(s)
            && ResendsOf(s'.sent, |s.sent|, t)
    decreases MAX_RETRANS - s.retry, Rank(s)
  {
    if s.phase == TimeoutOnAck {
      RunInner(s, events, junk);
      TimeoutSendsLower(s);
      SilenceExact(TimeoutStep(s), events, junk);
    } else {
      RunOuter(s, events, junk);
      var s1 := Outer(s, Timeout);
      if s.retry < MAX_RETRANS {
        SilenceExact(s1, Later(events), junk);
      }
    }
  }

  // ------------------------------------------------------------------- wait_on_eof_ack

  predicate IsEofAck(e: Event) {
    e.Arrive? && |e.datagram| >= HEADER_LEN && Verifies(e.datagram) && FlagOf(e.datagram) == EOF_ACK
  }

  /** A poll that counts as a failure: silence, or a datagram that does not verify. */
  predicate Fails(e: Event) {
    e.Arrive? ==> !Verifies(e.datagram)
  }

  /** In the end-of-file loop a rejected datagram is exactly a timeout, which costs one try and is
      followed by another copy; an EOF_ACK ends the loop, and nothing else does. */
  lemma EofPollLeadsTo(s: Sender, e: Event)
    requires s.Wf() && s.phase == EofPoll && Sized(e)
    ensures var s' := EofPollStep(s, e);
            && (Fails(e) ==> s' == EofPollStep(s, Timeout))
            && (s'.phase == Done <==> IsEofAck(e))
            && (s'.phase == WaitOnEofAck <==> !IsEofAck(e))
            && s'.eofRetry == s.eofRetry + (if Fails(e) then 1 else 0)
            && s'.sent == s.sent && s'.ring == s.ring && s'.eofLen == s.eofLen && s'.lastSeq == s.lastSeq
  {
  }

  /** With tries left and an end of file to send, one more copy goes out. */
  lemma EofCopySent(s: Sender)
    requires s.Wf() && s.phase == WaitOnEofAck && s.eofRetry < MAX_RETRANS && s.eofLen > 0
    ensures var s' := EofSendStep(s);
            s' == s.(phase := EofPoll, sent := s.sent + [s.ring.At(s.lastSeq).packet[..s.eofLen]])
  {
  }

  /** Whether the loop is answered, with `tries` left: an EOF_ACK comes before that many failures. */
  predicate Answered(events: seq<Event>, tries: nat) {
    tries > 0 && events != [] &&
    (IsEofAck(events[0]) || Answered(events[1..], if Fails(events[0]) then tries - 1 else tries))
  }

  /** How many copies of the end of file the loop sends, silence after the last event implied. */
  function Copies(events: seq<Event>, tries: nat): nat
    decreases |events|, tries
  {
    if tries == 0 then 0
    else if IsEofAck(NextEvent(events)) then 1
    else 1 + Copies(Later(events), if Fails(NextEvent(events)) then tries - 1 else tries)
  }

  /** A loop that is not answered sends a copy for every try it has. */
  lemma {:induction false} CopiesForEveryTry(events: seq<Event>, tries: nat)
    ensures !Answered(events, tries) ==> Copies(events, tries) >= tries
    ensures Silent(events) ==> !Answered(events, tries) && Copies(events, tries) == tries
    decreases |events|, tries
  {
    if tries > 0 && !IsEofAck(NextEvent(events)) {
      CopiesForEveryTry(Later(events), if Fails(NextEvent(events)) then tries - 1 else tries);
    }
  }

  /** One round of the loop. */
  lemma RoundOfEof(s: Sender, events: seq<Event>, junk: byte)
    requires Steady(s) && AllSizedAcks(events) && s.phase == WaitOnEofAck && s.eofLen > 0 && s.eofRetry < MAX_RETRANS
    ensures AllSizedAcks(Later(events)) && SizedAck(NextEvent(events))
    ensures var s' := EofPollStep(EofSendStep(s), NextEvent(events));
            && Steady(s') && ServerRun(s, events, junk) == ServerRun(s', Later(events), junk)
            && s'.eofRetry == s.eofRetry + (if Fails(NextEvent(events)) then 1 else 0)
            && s'.phase == (if IsEofAck(NextEvent(events)) then Done else WaitOnEofAck)
            && |s'.sent| == |s.sent| + 1 && s'.eofLen == s.eofLen
  {
    RunInner(s, events, junk);
    EofCopySent(s);
    RunOuter(EofSendStep(s), events, junk);
    EofPollLeadsTo(EofSendStep(s), NextEvent(events));
  }

  /** The end-of-file loop, exactly: it ends well if and only if an EOF_ACK that verifies comes before
      its tries are used up, and gives up otherwise, whatever else arrives; and it sends a copy of the
      end of file in every round. */
  lemma {:induction false} EofLoopExact(s: Sender, events: seq<Event>, junk: byte)
    requires Steady(s) && AllSizedAcks(events) && s.phase == WaitOnEofAck && s.eofLen > 0
    ensures var s', tries := ServerRun(s, events, junk), MAX_RETRANS - s.eofRetry;
            && s'.phase == (if Answered(events, tries) then Done else GaveUp)
            && |s'.sent| == |s.sent| + Copies(events, tries)
    decreases |events|, MAX_RETRANS - s.eofRetry
  {
    if s.eofRetry < MAX_RETRANS {
      var s1 := EofPollStep(EofSendStep(s), NextEvent(events));
      RoundOfEof(s, events, junk);
      if s1.phase == WaitOnEofAck { EofLoopExact(s1, Later(events), junk); }
    } else {
      RunInner(s, events, junk);
    }
  }

  /** Unanswered, the end of file is sent again for every try left, ten times from a fresh start. */
  lemma EofSilenceExact(s: Sender, events: seq<Event>, junk: byte)
    requires Steady(s) && AllSizedAcks(events) && Silent(events) && s.phase == WaitOnEofAck && s.eofLen > 0
    ensures var s' := ServerRun(s, events, junk);
            s'.phase == GaveUp && |s'.sent| == |s.sent| + MAX_RETRANS - s.eofRetry
  {
    EofLoopExact(s, events, junk);
    CopiesForEveryTry(events, MAX_RETRANS - s.eofRetry);
  }
}
