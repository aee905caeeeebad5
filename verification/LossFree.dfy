/** Sender and receiver over a perfect network: nothing is lost or altered, packets arrive in
    order, and no timer expires. Every interleaving then completes the transfer. */
module LossFree {
  import opened Checksum
  import opened Pdu
  import opened Ring
  import opened Segmentation
  import opened Transfer
  import opened Events
  import opened Network
  import S = SenderMachine
  import SC = SenderContent
  import R = ReceiverMachine

  /** Two FIFO queues, as cursors: the client has taken the first `got` packets the server sent,
      the server the first `acked` packets the client sent. */
  datatype Link = Link(sys: System, got: nat, acked: nat)

  datatype Move = Turn(junk: byte) | ServerTakes | ClientTakes

  /** A move is possible when the state reads nothing, or its queue is not empty. Since timers do
      not expire, a waiting process just waits. */
  predicate Enabled(l: Link, m: Move) {
    match m
    case Turn(_) => !S.Waiting(l.sys.s) && !S.Over(l.sys.s)
    case ServerTakes => S.Waiting(l.sys.s) && l.acked < |l.sys.r.sent|
    case ClientTakes => (l.sys.r.phase == R.RecvData || l.sys.r.phase == R.Buffer) && l.got < |l.sys.s.sent|
  }

  /** The network action a move is. */
  function AsAction(l: Link, m: Move): Action
    requires Enabled(l, m)
  {
    match m
    case Turn(junk) => ServerTurn(junk)
    case ServerTakes => ServerPoll(Arrive(R.Wire(l.sys.r.sent[l.acked])))
    case ClientTakes => ClientPoll(Arrive(l.sys.s.sent[l.got]))
  }

  /** A move; the client's flush does not occur, as it never leaves RECV_DATA. */
  function Next(l: Link, m: Move): Link
    requires Enabled(l, m) && Network.Wf(l.sys) && Possible(l.sys, AsAction(l, m))
  {
    Link(Do(l.sys, AsAction(l, m)),
         l.got + (if m.ClientTakes? then 1 else 0),
         l.acked + (if m.ServerTakes? then 1 else 0))
  }

  /** Both sides are done. */
  predicate Complete(l: Link) {
    l.sys.s.phase == S.Done && l.sys.r.phase == R.Finished
  }

  /** The server sent packets 1, 2, ... in order, and nothing twice before the end-of-file loop. */
  ghost predicate SentInOrder(s: S.Sender) {
    && s.ring.current >= 1 && s.ring.current - 1 <= |s.sent|
    && (!s.finished || s.phase == S.SendData || s.phase == S.WaitOnAck ==> |s.sent| == s.ring.current - 1)
    && forall i :: 0 <= i < s.ring.current - 1 ==> |s.sent[i]| >= 4 && SeqOf(s.sent[i]) == i + 1
  }

  /** The client took them in order, answered each with the next RR, and buffered nothing. */
  ghost predicate TookInOrder(r: R.Receiver, got: nat) {
    && r.Wf()
    && (r.phase == R.RecvData || r.phase == R.Finished)
    && (forall t: nat :: !r.ring.IsValid(t))
    && got == |r.sent| == r.expected - 1 + (if r.phase == R.Finished then 1 else 0)
    && (forall i :: 0 <= i < r.expected - 1 ==> r.sent[i].flag == RR && r.sent[i].value == i + 2)
    && (r.phase == R.Finished ==> r.sent[r.expected - 1].flag == EOF_ACK)
  }

  /** The one case that fails: a window of one packet and a short last packet. The RR for the
      last packet then sends the server into the end-of-file loop before it has read the end of
      file, and the empty packet it sends there ends the process. */
  ghost predicate Blocked(l: Link, job: Job) {
    l.sys.s.ring.size == 1 && job.EndsShort()
  }

  /** Where the server is: each RR moved its window by one, and the end-of-file loop is entered
      only on the RR for the last packet, after the end of file was sent unless blocked. */
  ghost predicate ServerKeepsUp(l: Link, job: Job) {
    var s := l.sys.s;
    && s.retry == 0 && s.eofRetry == 0
    && l.acked <= |l.sys.r.sent|
    && match s.phase
       case SendData => l.acked == s.ring.lower - 1
       case WaitOnAck => l.acked == s.ring.lower - 1
       case WaitOnEofAck => l.acked == job.Count() && l.sys.r.expected == job.Eof() && (s.finished || Blocked(l, job))
       case EofPoll => l.acked == job.Count() && s.finished && l.sys.r.expected == job.Eof()
       case Done => l.sys.r.phase == R.Finished
       case Aborted => Blocked(l, job)
       case _ => false
  }

  ghost predicate Flowing(l: Link, job: Job) {
    && Joined(l.sys, job)
    && SC.InWindow(l.sys.s.ring)
    && SentInOrder(l.sys.s)
    && TookInOrder(l.sys.r, l.got)
    && ServerKeepsUp(l, job)
    && (Blocked(l, job) ==> !l.sys.s.finished && l.sys.r.phase == R.RecvData)
  }

  // ------------------------------------------------------------------- one move

  lemma TurnFlows(l: Link, job: Job, junk: byte)
    requires Flowing(l, job) && Enabled(l, Turn(junk))
    ensures Possible(l.sys, ServerTurn(junk)) && Allowed(l.sys, job, ServerTurn(junk))
    ensures Flowing(Next(l, Turn(junk)), job)
  {
    StepJoinedIff(l.sys, job, ServerTurn(junk));
    TurnInWindow(l.sys.s, junk);
    if l.sys.s.phase == S.SendData {
      SendDataFlows(l, job, junk);
    } else {
      EofSendFlows(l, job);
    }
  }

  lemma SendDataFlows(l: Link, job: Job, junk: byte)
    requires Flowing(l, job) && l.sys.s.phase == S.SendData
    ensures var l' := l.(sys := l.sys.(s := S.SendDataStep(l.sys.s, junk)));
            SentInOrder(l'.sys.s) && ServerKeepsUp(l', job) && (Blocked(l', job) ==> !l'.sys.s.finished)
  {
    SendDataInOrder(l.sys.s, job, junk);
    if Blocked(l, job) { OneSlotStaysFull(l.sys, job); }
  }

  lemma EofSendFlows(l: Link, job: Job)
    requires Flowing(l, job) && l.sys.s.phase == S.WaitOnEofAck
    ensures var l' := l.(sys := l.sys.(s := S.EofSendStep(l.sys.s)));
            SentInOrder(l'.sys.s) && ServerKeepsUp(l', job) && (Blocked(l', job) ==> !l'.sys.s.finished)
  {
    SC.EofSendSound(l.sys.s, job);
  }

  /** With one slot and a short file, the window is full when the file has been read. */
  lemma OneSlotStaysFull(sys: System, job: Job)
    requires Joined(sys, job) && SC.InWindow(sys.s.ring) && sys.s.ring.size == 1
    requires job.EndsShort() && !sys.s.finished
    ensures sys.s.rest == [] ==> sys.s.ring.Full()
  {
    SC.ReadStep(sys.s, job);
  }

  lemma SendDataInOrder(s: S.Sender, job: Job, junk: byte)
    requires SC.Sound(s, job) && s.phase == S.SendData && SentInOrder(s)
    ensures SentInOrder(S.SendDataStep(s, junk))
  {
    if !s.ring.Full() && s.rest != [] {
      SC.ReadStep(s, job);
      SealedDecodes(s.seqNum, DATA, job.Chunk(s.seqNum));
      OneMoreInOrder(s, S.SendDataStep(s, junk), Sealed(s.seqNum, DATA, job.Chunk(s.seqNum)));
    } else if !s.ring.Full() && !s.finished {
      SC.ReadStep(s, job);
      SealedDecodes(s.seqNum, END_OF_FILE, [junk]);
      OneMoreInOrder(s, S.SendDataStep(s, junk), Sealed(s.seqNum, END_OF_FILE, [junk]));
    }
  }

  lemma OneMoreInOrder(s: S.Sender, s': S.Sender, packet: seq<byte>)
    requires SentInOrder(s) && s.phase == S.SendData && |packet| >= 4 && SeqOf(packet) == s.ring.current
    requires s'.sent == s.sent + [packet] && s'.ring.current == s.ring.current + 1
    ensures SentInOrder(s')
  {
  }

  lemma ClientExpectsSent(l: Link, job: Job)
    requires Flowing(l, job) && Enabled(l, ClientTakes)
    ensures l.got == l.sys.r.expected - 1 < l.sys.s.ring.current - 1
  {
  }

  /** The packet the client takes next is the one it expects. */
  lemma ClientTakesExpected(l: Link, job: Job)
    requires Flowing(l, job) && Enabled(l, ClientTakes)
    ensures var d := l.sys.s.sent[l.got];
            && SC.OnTheWire(job, d, l.sys.s.ring.current) && SeqOf(d) == l.sys.r.expected
            && Possible(l.sys, ClientPoll(Arrive(d))) && Allowed(l.sys, job, ClientPoll(Arrive(d)))
  {
    ClientExpectsSent(l, job);
    var d := l.sys.s.sent[l.got];
    assert SC.OnTheWire(job, d, l.sys.s.ring.current);
  }

  lemma ClientTakesFlows(l: Link, job: Job)
    requires Flowing(l, job) && Enabled(l, ClientTakes)
    ensures Possible(l.sys, AsAction(l, ClientTakes)) && Allowed(l.sys, job, AsAction(l, ClientTakes))
    ensures Flowing(Next(l, ClientTakes), job)
  {
    ClientTakesExpected(l, job);
    var d := l.sys.s.sent[l.got];
    StepJoinedIff(l.sys, job, ClientPoll(Arrive(d)));
    TakenInOrder(l.sys.r, l.got, d);
  }

  lemma TakenInOrder(r: R.Receiver, got: nat, d: seq<byte>)
    requires TookInOrder(r, got) && r.phase == R.RecvData
    requires Sized(Arrive(d)) && Verifies(d) && SeqOf(d) == r.expected
    ensures TookInOrder(R.RecvDataStep(r, Arrive(d)), got + 1)
  {
    var r' := R.RecvDataStep(r, Arrive(d));
    assert r'.ring == r.ring;
    assert forall i :: 0 <= i < |r.sent| ==> r'.sent[i] == r.sent[i];
  }

  lemma AckTaken(l: Link, job: Job)
    requires Flowing(l, job) && Enabled(l, ServerTakes)
    ensures var c := l.sys.r.sent[l.acked];
            && ControlOk(c, l.sys.r.expected, l.sys.s.ring.current)
            && (if l.acked < l.sys.r.expected - 1 then c.flag == RR && c.value == l.acked + 2
                else c.flag == EOF_ACK && l.sys.r.phase == R.Finished && l.acked + 1 == |l.sys.r.sent|)
            && l.sys.s.ring.current <= l.acked + 1 + l.sys.s.ring.size
  {
  }

  /** The acknowledgement the server takes next is the RR after `lower`, or the EOF_ACK. */
  lemma ServerTakesNext(l: Link, job: Job)
    requires Flowing(l, job) && Enabled(l, ServerTakes)
    ensures var c := l.sys.r.sent[l.acked];
            var e := Arrive(R.Wire(c));
            && Possible(l.sys, ServerPoll(e)) && Allowed(l.sys, job, ServerPoll(e)) && Recent(l.sys, ServerPoll(e))
            && Verifies(e.datagram) && FlagOf(e.datagram) == c.flag && ValueOf(e.datagram) == c.value
            && (if l.acked < l.sys.r.expected - 1 then c.flag == RR && c.value == l.acked + 2
                else c.flag == EOF_ACK && l.sys.r.phase == R.Finished && l.acked + 1 == |l.sys.r.sent|)
  {
    var c := l.sys.r.sent[l.acked];
    AckTaken(l, job);
    ControlDecodes(c.clientSeq, c.flag, c.value);
    assert c in l.sys.r.sent;
  }

  lemma ServerTakesFlows(l: Link, job: Job)
    requires Flowing(l, job) && Enabled(l, ServerTakes)
    ensures Possible(l.sys, AsAction(l, ServerTakes)) && Allowed(l.sys, job, AsAction(l, ServerTakes))
    ensures Flowing(Next(l, ServerTakes), job)
  {
    ServerTakesNext(l, job);
    StepJoinedIff(l.sys, job, AsAction(l, ServerTakes));
    StepInWindow(l.sys, job, AsAction(l, ServerTakes));
    AckFlows(l, job, R.Wire(l.sys.r.sent[l.acked]));
  }

  lemma AckFlows(l: Link, job: Job, d: seq<byte>)
    requires Flowing(l, job) && Enabled(l, ServerTakes)
    requires Sized(Arrive(d)) && |d| == HEADER_LEN + 4 && Verifies(d)
    requires if l.acked < l.sys.r.expected - 1 then FlagOf(d) == RR && ValueOf(d) == l.acked + 2
             else FlagOf(d) == EOF_ACK && l.sys.r.phase == R.Finished && l.acked + 1 == |l.sys.r.sent|
    ensures var l' := l.(sys := l.sys.(s := S.Outer(l.sys.s, Arrive(d))), acked := l.acked + 1);
            SentInOrder(l'.sys.s) && ServerKeepsUp(l', job) && (Blocked(l', job) ==> !l'.sys.s.finished)
  {
    var s := l.sys.s;
    if s.phase == S.WaitOnAck && l.acked < l.sys.r.expected - 1 && l.acked + 2 == s.finalSeq + 1 {
      // with two slots or more the window was open when the last packet was read, so the
      // end of file has been sent
      assert s.ring.lower == job.Count();
      assert s.finished || Blocked(l, job);
    }
  }

  lemma MoveFlows(l: Link, job: Job, m: Move)
    requires Flowing(l, job) && Enabled(l, m)
    ensures Possible(l.sys, AsAction(l, m)) && Allowed(l.sys, job, AsAction(l, m))
    ensures Flowing(Next(l, m), job)
  {
    match m
    case Turn(junk) => TurnFlows(l, job, junk);
    case ServerTakes => ServerTakesFlows(l, job);
    case ClientTakes => ClientTakesFlows(l, job);
  }

  // ------------------------------------------------------------------- progress

  /** Deadlock freedom: until both sides are done, or the blocked server has exited, some move
      is possible. */
  lemma NeverStuck(l: Link, job: Job)
    requires Flowing(l, job) && !Complete(l) && l.sys.s.phase != S.Aborted
    ensures Enabled(l, Turn(0)) || Enabled(l, ServerTakes) || Enabled(l, ClientTakes)
  {
  }

  /** What the server still has to do by itself. */
  function ServerWork(s: S.Sender): int
    requires s.bufSize >= 1
  {
    8 * (|Split(s.rest, s.bufSize)| + (if s.finished then 0 else 1)) + 4 * |s.sent|
    + match s.phase
      case SendData => 11
      case WaitOnAck => 10
      case WaitOnEofAck => 6
      case EofPoll => 1
      case _ => 0
  }

  /** Work left: chunks to send, packets under way in either direction, and the server's state. */
  function Work(l: Link): int
    requires l.sys.s.bufSize >= 1
  {
    ServerWork(l.sys.s) - 4 * l.got + 3 * (|l.sys.r.sent| - l.acked)
  }

  lemma SendDataWorks(s: S.Sender, junk: byte)
    requires s.Wf() && s.phase == S.SendData
    ensures ServerWork(S.SendDataStep(s, junk)) < ServerWork(s)
  {
    if s.rest != [] { SplitStep(s.rest, s.bufSize); }
  }

  lemma TurnWorks(l: Link, job: Job, junk: byte)
    requires Flowing(l, job) && Enabled(l, Turn(junk)) && Possible(l.sys, ServerTurn(junk))
    ensures Work(Next(l, Turn(junk))) < Work(l)
  {
    if l.sys.s.phase == S.SendData {
      SendDataWorks(l.sys.s, junk);
    } else {
      SC.EofSendSound(l.sys.s, job);
    }
  }

  lemma ClientTakesWorks(l: Link, job: Job)
    requires Flowing(l, job) && Enabled(l, ClientTakes) && Possible(l.sys, AsAction(l, ClientTakes))
    ensures Work(Next(l, ClientTakes)) < Work(l)
  {
    ClientTakesExpected(l, job);
  }

  lemma ServerTakesWorks(l: Link, job: Job)
    requires Flowing(l, job) && Enabled(l, ServerTakes) && Possible(l.sys, AsAction(l, ServerTakes))
    ensures Work(Next(l, ServerTakes)) < Work(l)
  {
    ServerTakesNext(l, job);
  }

  /** Every move leaves less to do. */
  lemma MoveWorks(l: Link, job: Job, m: Move)
    requires Flowing(l, job) && Enabled(l, m) && Possible(l.sys, AsAction(l, m))
    ensures 0 <= Work(Next(l, m)) < Work(l)
  {
    MoveFlows(l, job, m);
    match m
    case Turn(junk) => TurnWorks(l, job, junk);
    case ServerTakes => ServerTakesWorks(l, job);
    case ClientTakes => ClientTakesWorks(l, job);
  }

  // ------------------------------------------------------------------- whole runs

  ghost predicate Interleaving(l: Link, moves: seq<Move>)
    requires Network.Wf(l.sys)
    decreases |moves|
  {
    moves != [] ==>
      && Enabled(l, moves[0]) && Possible(l.sys, AsAction(l, moves[0]))
      && Interleaving(Next(l, moves[0]), moves[1..])
  }

  ghost function After(l: Link, moves: seq<Move>): Link
    requires Network.Wf(l.sys) && Interleaving(l, moves)
    decreases |moves|
  {
    if moves == [] then l else After(Next(l, moves[0]), moves[1..])
  }

  lemma {:induction false} RunFlows(l: Link, job: Job, moves: seq<Move>)
    requires Flowing(l, job) && Interleaving(l, moves)
    ensures Flowing(After(l, moves), job)
    ensures |moves| + Work(After(l, moves)) <= Work(l)
    decreases |moves|
  {
    if moves != [] {
      MoveFlows(l, job, moves[0]);
      MoveWorks(l, job, moves[0]);
      RunFlows(Next(l, moves[0]), job, moves[1..]);
    }
  }

  function Opened(file: seq<byte>, size: nat, bufSize: nat, clientSeq: nat): Link
    requires size >= 1 && 1 <= bufSize <= MAX_PDU - HEADER_LEN
  {
    Link(Initial(file, size, bufSize, clientSeq), 0, 0)
  }

  lemma OpenedFlows(file: seq<byte>, size: nat, bufSize: nat, clientSeq: nat)
    requires size >= 1 && 1 <= bufSize <= MAX_PDU - HEADER_LEN && Job(Split(file, bufSize), bufSize).Wf()
    ensures Flowing(Opened(file, size, bufSize, clientSeq), Job(Split(file, bufSize), bufSize))
  {
    InitialJoined(file, size, bufSize, clientSeq);
    ShortIff(file, bufSize);
    NothingTaken(size, bufSize, clientSeq);
    assert SentInOrder(S.Start(file, size, bufSize));
  }

  lemma NothingTaken(size: nat, bufSize: nat, clientSeq: nat)
    requires size >= 1 && 1 <= bufSize <= MAX_PDU - HEADER_LEN
    ensures TookInOrder(R.Start(size, bufSize, clientSeq), 0)
  {
    forall t: nat ensures !R.Start(size, bufSize, clientSeq).ring.IsValid(t) { assert t % size < size; }
  }

  /** The bound on the number of moves: eight per chunk and nineteen more. */
  lemma OpenedWork(file: seq<byte>, size: nat, bufSize: nat, clientSeq: nat)
    requires size >= 1 && 1 <= bufSize <= MAX_PDU - HEADER_LEN
    ensures Work(Opened(file, size, bufSize, clientSeq)) == 8 * |Split(file, bufSize)| + 19
  {
  }

  lemma WorkNonNegative(l: Link, job: Job)
    requires Flowing(l, job)
    ensures Work(l) >= 0
  {
  }

  ghost predicate Stuck(l: Link) {
    forall m :: !Enabled(l, m)
  }

  /** Loss-free runs are bounded, the client never leaves RECV_DATA until it is finished, the
      end-of-file wait is entered only after the end of file was sent or in the blocked case, and
      when both sides are done the file on the client's disk is the server's file. */
  lemma LossFreeRun(file: seq<byte>, size: nat, bufSize: nat, clientSeq: nat, moves: seq<Move>)
    requires size >= 1 && 1 <= bufSize <= MAX_PDU - HEADER_LEN && Job(Split(file, bufSize), bufSize).Wf()
    requires Interleaving(Opened(file, size, bufSize, clientSeq), moves)
    ensures |moves| <= 8 * |Split(file, bufSize)| + 19
    ensures var job := Job(Split(file, bufSize), bufSize);
            var l := After(Opened(file, size, bufSize, clientSeq), moves);
            && Flowing(l, job) && l.sys.s.ring.size == size
            && (l.sys.r.phase == R.RecvData || l.sys.r.phase == R.Finished)
            && (l.sys.s.phase == S.EofPoll ==> l.sys.s.finished)
            && (Complete(l) ==> Flatten(l.sys.r.writes) == file)
  {
    var job := Job(Split(file, bufSize), bufSize);
    var l0 := Opened(file, size, bufSize, clientSeq);
    OpenedFlows(file, size, bufSize, clientSeq);
    OpenedWork(file, size, bufSize, clientSeq);
    RunFlows(l0, job, moves);
    AfterKeepsSize(l0, moves);
    var l := After(l0, moves);
    WorkNonNegative(l, job);
    JoinedIsSafe(l.sys, file, bufSize);
  }

  lemma {:induction false} AfterKeepsSize(l: Link, moves: seq<Move>)
    requires Network.Wf(l.sys) && Interleaving(l, moves)
    ensures After(l, moves).sys.s.ring.size == l.sys.s.ring.size
    decreases |moves|
  {
    if moves != [] { AfterKeepsSize(Next(l, moves[0]), moves[1..]); }
  }

  /** Loss-free completion, exactly: an interleaving that cannot go on has completed the transfer
      on both sides if and only if the window holds at least two packets or the file is a multiple
      of the packet size. In the other case the server has exited on an empty packet. */
  lemma LossFreeCompletesIff(file: seq<byte>, size: nat, bufSize: nat, clientSeq: nat, moves: seq<Move>)
    requires size >= 1 && 1 <= bufSize <= MAX_PDU - HEADER_LEN && Job(Split(file, bufSize), bufSize).Wf()
    requires Interleaving(Opened(file, size, bufSize, clientSeq), moves)
    requires Stuck(After(Opened(file, size, bufSize, clientSeq), moves))
    ensures var l := After(Opened(file, size, bufSize, clientSeq), moves);
            && (Complete(l) <==> size >= 2 || |file| % bufSize == 0)
            && (!Complete(l) ==> l.sys.s.phase == S.Aborted && l.sys.r.phase == R.RecvData)
  {
    var job := Job(Split(file, bufSize), bufSize);
    var l := After(Opened(file, size, bufSize, clientSeq), moves);
    LossFreeRun(file, size, bufSize, clientSeq, moves);
    ShortIff(file, bufSize);
    assert !Enabled(l, Turn(0)) && !Enabled(l, ServerTakes) && !Enabled(l, ClientTakes);
    if !Complete(l) && l.sys.s.phase != S.Aborted { NeverStuck(l, job); }
  }
}
