/** A run in which probing ends as it should, for every stream that fills the window and all initial
    numbers. A sends 65535 bytes and is told that the window is 0, so it probes with the next byte; B's
    application reads everything, B takes the byte and offers the window again, and A goes on. */
module TcpProbeRun {
  import opened Words
  import opened SegmentHeap
  import opened Sockets
  import opened TcpNetwork
  import opened TcpInvariant
  import opened TcpSenderProofs
  import opened TcpRuns
  import opened TcpScenarios
  import opened TcpProbing

  predicate RoomForProbe(isnA: U32, isnB: U32, d: seq<Byte>) {
    |d| == BURST && isnA + BURST + 3 < TWO_32 && isnB + 3 < TWO_32
  }

  // ---------- The window closes ----------

  // A has sent all of d and handled no acknowledgment of it.
  ghost predicate BurstOut(a: Endpoint, isnA: U32, isnB: U32, d: seq<Byte>) {
    && Cutting(a, BURST) && a.wrote == d && OnlySent(Connected(isnA, isnB).a, a)
  }

  lemma SendWindow(isnA: U32, isnB: U32, d: seq<Byte>) returns (run: Run)
    requires RoomForProbe(isnA, isnB, d)
    ensures var w0 := Connected(isnA, isnB); var x := Exec(w0, run);
      BurstOut(x.a, isnA, isnB, d) && AllCuts(x.a, 0, x.toB) && OthersKept(w0, x, A)
  {
    assert DataInQueue([]) == 0;
    assert [] + d == d;
    run := SendData(Connected(isnA, isnB), A, d);
  }

  // B completes the handshake and accepts all of it.
  lemma FillReader(w: World, isnA: U32, isnB: U32, d: seq<Byte>) returns (run: Run)
    requires RoomForProbe(isnA, isnB, d) && BurstOut(w.a, isnA, isnB, d) && AllCuts(w.a, 0, w.toB)
    requires w.b == Connected(isnA, isnB).b && FinalAck(isnA, isnB) in w.toB
    ensures var x := Exec(w, run);
      x.a == w.a && FullReceived(x, B, isnA, d) && x.b.sock.tx.initSeqNum == isnB
  {
    var ack := Deliver(FinalAck(isnA, isnB));
    HandshakeFinishes(w, isnA, isnB);
    var w1 := Step(w, B, ack);
    assert d[..0] == [];
    assert Receiving(w1.b, isnA, d, 0, []);
    var rest := ReceiveFull(w1, B, w1.a, d);
    ExecOne(w, B, ack);
    ExecJoin(w, [(B, ack)], rest);
    run := [(B, ack)] + rest;
  }

  // Everything is acknowledged and the window is 0.
  ghost predicate Stalled(a: Endpoint, isnA: U32, isnB: U32, d: seq<Byte>) {
    var tx := a.sock.tx;
    && a.phase == Running && a.sock.connState == ESTABLISHED && !a.sock.isClosed && a.wrote == d
    && tx.initSeqNum == isnA && tx.numberBytesSent == BURST && tx.nextSequenceNumber == isnA + BURST + 1
    && tx.remoteWindowSize == 0 && tx.bytesInFlight == 0 && tx.lastSegmentSequenceNumber == 1
    && tx.lastSegmentAckNumber == isnA + BURST + 1 && tx.writer == Idle && tx.writeBuffer == []
    && a.sock.rx == Rx(isnB, 1, [], [])
  }

  function ZeroWindow(isnA: U32, isnB: U32): Packet
    requires isnA + BURST + 3 < TWO_32 && isnB + 3 < TWO_32
  {
    Packet(isnB + 1, isnA + 1 + BURST, {ACK}, 0, [])
  }

  lemma BurstAcked(a: Endpoint, isnA: U32, isnB: U32, d: seq<Byte>, next: int, out: set<Packet>)
    requires RoomForProbe(isnA, isnB, d) && BurstOut(a, isnA, isnB, d) && SenderFlow(a, next, out)
    requires AckOk(SentBy(a), next, isnA + BURST + 1)
    ensures var s := ProcessAck(a.sock, isnA + BURST + 1);
      && s.connState == ESTABLISHED && !s.isClosed && s.tx.bytesInFlight == 0
      && s.tx.largestAck == isnA + BURST + 1
  {
    var ack := isnA + BURST + 1;
    AckFrame(a.sock, ack);
    ProcessAckOk(a.sock, SentBy(a), out, next, ack);
    PruneStaysEstablished(a.sock.(tx := a.sock.tx.(largestAck := ack)));
    NothingQueued(ProcessAck(a.sock, ack), SentBy(a), out);
  }

  lemma WindowCloses(a: Endpoint, isnA: U32, isnB: U32, d: seq<Byte>, next: int, out: set<Packet>)
    requires RoomForProbe(isnA, isnB, d) && BurstOut(a, isnA, isnB, d) && SenderFlow(a, next, out)
    requires AckOk(SentBy(a), next, isnA + BURST + 1)
    ensures Stalled(Perform(a, Deliver(ZeroWindow(isnA, isnB))).0, isnA, isnB, d)
    ensures Perform(a, Deliver(ZeroWindow(isnA, isnB))).1 == []
  {
    BurstAcked(a, isnA, isnB, d, next, out);
    AckFrame(a.sock, isnA + BURST + 1);
  }

  lemma FillBoth(isnA: U32, isnB: U32, d: seq<Byte>) returns (run: Run)
    requires RoomForProbe(isnA, isnB, d)
    ensures var x := Exec(Connected(isnA, isnB), run);
      && BurstOut(x.a, isnA, isnB, d) && FullReceived(x, B, isnA, d) && x.b.sock.tx.initSeqNum == isnB
      && ZeroWindow(isnA, isnB) in x.toA
  {
    run := SendWindow(isnA, isnB, d);
    var more := FillReader(Exec(Connected(isnA, isnB), run), isnA, isnB, d);
    ExecJoin(Connected(isnA, isnB), run, more);
    run := run + more;
  }

  lemma StallStep(isnA: U32, isnB: U32, run: Run, d: seq<Byte>)
    requires RoomForProbe(isnA, isnB, d)
    requires var w := Exec(Connected(isnA, isnB), run);
      NoWrapIn(w) && BurstOut(w.a, isnA, isnB, d) && ZeroWindow(isnA, isnB) in w.toA
    ensures var f := Perform(Exec(Connected(isnA, isnB), run).a, Deliver(ZeroWindow(isnA, isnB)));
      Stalled(f.0, isnA, isnB, d) && f.1 == []
  {
    var w := Exec(Connected(isnA, isnB), run);
    ReachableInv(isnA, isnB, run);
    WindowCloses(w.a, isnA, isnB, d, w.b.sock.rx.nextExpectedByte, w.toB);
  }

  // A has stalled, and B holds all that was sent.
  lemma Stall(isnA: U32, isnB: U32, d: seq<Byte>) returns (run: Run)
    requires RoomForProbe(isnA, isnB, d)
    ensures var x := Exec(Connected(isnA, isnB), run);
      Stalled(x.a, isnA, isnB, d) && FullReceived(x, B, isnA, d) && x.b.sock.tx.initSeqNum == isnB
  {
    var w0 := Connected(isnA, isnB);
    run := FillBoth(isnA, isnB, d);
    var ev := Deliver(ZeroWindow(isnA, isnB));
    StallStep(isnA, isnB, run, d);
    StepTaken(Exec(w0, run), A, ev);
    Append(w0, run, A, ev);
    run := run + [(A, ev)];
  }

  // ---------- A probes and B answers ----------

  function ProbeOfA(isnA: U32, isnB: U32, x: Byte): Packet
    requires isnA + BURST + 3 < TWO_32 && isnB + 3 < TWO_32
  {
    Packet(isnA + 1 + BURST, isnB + 1, {ACK}, 65535, [x])
  }

  // B has taken the byte and offers a window of 65534.
  function WindowOpens(isnA: U32, isnB: U32): Packet
    requires isnA + BURST + 3 < TWO_32 && isnB + 3 < TWO_32
  {
    Packet(isnB + 1, isnA + BURST + 2, {ACK}, 65534, [])
  }

  // A is probing with x after a window of 0, nothing else being in flight.
  ghost predicate ProbesWith(a: Endpoint, isnA: U32, isnB: U32, d: seq<Byte>, x: Byte) {
    var tx := a.sock.tx;
    && isnA + BURST + 3 < TWO_32 && isnB + 3 < TWO_32
    && a.phase == Running && !a.sock.isClosed && a.wrote == d + [x] && tx.initSeqNum == isnA
    && tx.zwpMode && tx.writer == Probing(ProbeOfA(isnA, isnB, x)) && tx.zwpSeq == isnA + BURST + 1
    && tx.remoteWindowSize == 0 && tx.bytesInFlight == 1 && tx.lastSegmentSequenceNumber == 1
    && tx.lastSegmentAckNumber == isnA + BURST + 1 && a.sock.rx.remoteISN == isnB
  }

  lemma StalledProbes(w: World, isnA: U32, isnB: U32, d: seq<Byte>, x: Byte)
    requires RoomForProbe(isnA, isnB, d) && Stalled(w.a, isnA, isnB, d)
    ensures var y := Step(Step(w, A, AppWrite([x])), A, WriterStep);
      ProbesWith(y.a, isnA, isnB, d, x) && ProbeOfA(isnA, isnB, x) in y.toB && y.b == w.b && w.toA == y.toA
  {
    assert [x][..1] == [x] && [] + [x] == [x];
    assert Perform(w.a, AppWrite([x])).0.sock.tx.writeBuffer == [x];
    StepTaken(w, A, AppWrite([x]));
    StepTaken(Step(w, A, AppWrite([x])), A, WriterStep);
  }

  lemma ProbeTaken(w: World, isnA: U32, isnB: U32, x: Byte)
    requires isnA + BURST + 3 < TWO_32 && isnB + 3 < TWO_32 && ProbeOfA(isnA, isnB, x) in w.toB
    requires Quiet(w.b) && w.b.sock.tx.initSeqNum == isnB && w.b.sock.rx == Rx(isnA, BURST + 1, [], [])
    ensures var y := Step(w, B, Deliver(ProbeOfA(isnA, isnB, x)));
      && WindowOpens(isnA, isnB) in y.toA && y.a == w.a && y.b.sock.rx.readBuffer == [x] && y.b.read == w.b.read
      && NoWrap(y.b)
  {
    var p := ProbeOfA(isnA, isnB, x);
    var r := WriteSegment(w.b.sock.rx, [x]);
    assert r == Rx(isnA, BURST + 2, [] + [x], []) && Drain(ESTABLISHED, r) == (ESTABLISHED, r);
    OnlyText(w.b, p);
    StepTaken(w, B, Deliver(p));
  }

  // A is probing with a window of 0, B has read d and taken the probe's byte, and its answer is on the way.
  ghost predicate AnswerComing(w: World, isnA: U32, isnB: U32, d: seq<Byte>, x: Byte) {
    && ProbesWith(w.a, isnA, isnB, d, x) && WindowOpens(isnA, isnB) in w.toA && NoWrapIn(w)
    && w.b.read == d && w.b.sock.rx.readBuffer == [x]
  }

  lemma ReachAnswer(isnA: U32, isnB: U32, d: seq<Byte>, x: Byte) returns (run: Run)
    requires RoomForProbe(isnA, isnB, d)
    ensures AnswerComing(Exec(Connected(isnA, isnB), run), isnA, isnB, d, x)
  {
    var w0 := Connected(isnA, isnB);
    run := Stall(isnA, isnB, d);
    StalledProbes(Exec(w0, run), isnA, isnB, d, x);
    Append(w0, run, A, AppWrite([x]));
    run := run + [(A, AppWrite([x]))];
    Append(w0, run, A, WriterStep);
    run := run + [(A, WriterStep)];
    ReadFull(Exec(w0, run), B, isnA, d);
    Append(w0, run, B, AppRead(BURST));
    run := run + [(B, AppRead(BURST))];
    var ev := Deliver(ProbeOfA(isnA, isnB, x));
    ProbeTaken(Exec(w0, run), isnA, isnB, x);
    Append(w0, run, B, ev);
    run := run + [(B, ev)];
  }

  /** Probing is entered on a window of 0 and ends when the window opens: for every stream of 65535 bytes,
      every byte after it and all initial numbers a run that leads a probing A, with one more step, to the
      top of its loop with nothing in flight and a window of 65534. B has then been given all bytes. */
  lemma ProbingEnds(isnA: U32, isnB: U32, d: seq<Byte>, x: Byte) returns (run: Run, last: Event)
    requires RoomForProbe(isnA, isnB, d)
    ensures var w := Exec(Connected(isnA, isnB), run); var y := Exec(Connected(isnA, isnB), run + [(A, last)]);
      && w.a.sock.tx.zwpMode && w.a.sock.tx.remoteWindowSize == 0 && w.a.sock.tx.bytesInFlight == 1
      && ProbingOver(y.a.sock.tx) && y.a.sock.tx.remoteWindowSize == 65534
      && y.b.read + y.b.sock.rx.readBuffer == y.a.wrote == d + [x]
  {
    var w0 := Connected(isnA, isnB);
    run := ReachAnswer(isnA, isnB, d, x);
    var w := Exec(w0, run);
    var p := WindowOpens(isnA, isnB);
    last := Deliver(p);
    ReachableInv(isnA, isnB, run);
    assert OpensWindow(w.a, p);
    EndsIff(w.a, w.b.sock.rx.nextExpectedByte, w.toB, p);
    OpenedWindow(w.a, p);
    StepTaken(w, A, last);
    PerformGrows(w.a, last);
    Append(w0, run, A, last);
  }

  lemma OpenedWindow(a: Endpoint, p: Packet)
    requires OpensWindow(a, p) && a.sock.tx.zwpMode && ProbingOver(HandleTCPPacket(a.sock, p).0.tx)
    ensures HandleTCPPacket(a.sock, p).0.tx.remoteWindowSize == p.window
  {
    AckFrame(a.sock, p.ackNum);
  }
}
