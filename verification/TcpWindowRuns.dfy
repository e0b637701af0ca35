/** Two runs in which a window is not taken. In the first the accepting side fills the window, probes,
    and goes on probing although everything it sent is acknowledged and the peer offers an open
    window. In the second the ACK of a FIN overtakes a segment sent after it. */
module TcpWindowRuns {
  import opened Words
  import opened SegmentHeap
  import opened Sockets
  import opened TcpNetwork
  import opened TcpInvariant
  import opened TcpSenderProofs
  import opened TcpRuns
  import opened TcpWindow
  import opened TcpSendOrder
  import opened TcpScenarios

  predicate RoomForBurst(isnA: U32, isnB: U32, d: seq<Byte>) {
    |d| == BURST && 2 <= isnA && isnA + 2 < TWO_32 && isnB + BURST + 3 < TWO_32
  }

  // ---------- B fills the window ----------

  // B has sent all of d and A has received `off` bytes of it.
  ghost predicate BurstSent(w: World, isnA: U32, isnB: U32, d: seq<Byte>) {
    && RoomForBurst(isnA, isnB, d) && Cutting(w.b, BURST) && w.b.wrote == d
    && OnlySent(EstablishedB(isnA, isnB), w.b)
    && w.a.sock.tx.initSeqNum == isnA
  }

  lemma FillWindow(isnA: U32, isnB: U32, d: seq<Byte>) returns (run: Run)
    requires RoomForBurst(isnA, isnB, d)
    ensures var w := Exec(Connected(isnA, isnB), run);
      BurstSent(w, isnA, isnB, d) && Receiving(w.a, isnB, d, 0, []) && AllCuts(w.b, 0, w.toA)
  {
    var w0 := Connected(isnA, isnB);
    var ack := Deliver(FinalAck(isnA, isnB));
    HandshakeFinishes(w0, isnA, isnB);
    var w1 := Step(w0, B, ack);
    assert DataInQueue([]) == 0;
    assert [] + d == d && d[..0] == [];
    var rest := SendData(w1, B, d);
    ExecOne(w0, B, ack);
    ExecJoin(w0, [(B, ack)], rest);
    run := [(B, ack)] + rest;
  }

  // A has accepted and read all of d.
  ghost predicate AllRead(w: World, isnA: U32, isnB: U32, d: seq<Byte>) {
    && BurstSent(w, isnA, isnB, d) && Quiet(w.a) && w.a.sock.rx == Rx(isnB, BURST + 1, [], [])
  }

  // A receives and reads what B has sent.
  lemma ReceiveBurst(w: World, isnA: U32, isnB: U32, d: seq<Byte>) returns (run: Run)
    requires BurstSent(w, isnA, isnB, d) && Receiving(w.a, isnB, d, 0, []) && AllCuts(w.b, 0, w.toA)
    ensures AllRead(Exec(w, run), isnA, isnB, d)
  {
    run := ReceiveFull(w, A, w.b, d);
    ReadFull(Exec(w, run), A, isnB, d);
    Append(w, run, A, AppRead(BURST));
    run := run + [(A, AppRead(BURST))];
  }

  // ---------- B probes, and A answers ----------

  function ProbeOf(isnA: U32, isnB: U32, x: Byte): Packet
    requires isnA + 2 < TWO_32 && isnB + BURST + 3 < TWO_32
  {
    Packet(isnB + 1 + BURST, isnA + 1, {ACK}, 65535, [x])
  }

  // A has taken the probe's byte and offers a window of 65534.
  function AckOfProbe(isnA: U32, isnB: U32): Packet
    requires isnA + 2 < TWO_32 && isnB + BURST + 3 < TWO_32
  {
    Packet(isnA + 1, isnB + BURST + 2, {ACK}, 65534, [])
  }

  // B is probing with one byte past the burst and has never taken a window update.
  ghost predicate Probing(b: Endpoint, isnA: U32, isnB: U32) {
    && b.phase == Running && b.sock.connState == ESTABLISHED && !b.sock.isClosed
    && b.sock.tx.initSeqNum == isnB && b.sock.tx.nextSequenceNumber == isnB + BURST + 2
    && b.sock.tx.zwpMode && b.sock.tx.writer.Probing?
    && b.sock.rx.remoteISN == isnA && b.sock.tx.lastSegmentSequenceNumber == isnA
  }

  lemma StartProbing(w: World, isnA: U32, isnB: U32, d: seq<Byte>, x: Byte)
    requires AllRead(w, isnA, isnB, d)
    ensures var y := Step(Step(w, B, AppWrite([x])), B, WriterStep);
      && Probing(y.b, isnA, isnB) && y.b.sock.tx.largestAck == 0 && y.b.wrote == d + [x]
      && ProbeOf(isnA, isnB, x) in y.toA && y.a == w.a
  {
    assert [x][..1] == [x] && [] + [x] == [x];
    var e1 := Perform(w.b, AppWrite([x])).0;
    assert e1.sock.tx.writeBuffer == [x] && e1.sock.tx.bytesInFlight == 65535;
    StepTaken(w, B, AppWrite([x]));
    StepTaken(Step(w, B, AppWrite([x])), B, WriterStep);
  }

  lemma AnswerProbe(w: World, isnA: U32, isnB: U32, x: Byte)
    requires isnA + 2 < TWO_32 && isnB + BURST + 3 < TWO_32 && ProbeOf(isnA, isnB, x) in w.toA
    requires Quiet(w.a) && w.a.sock.tx.initSeqNum == isnA && w.a.sock.rx == Rx(isnB, BURST + 1, [], [])
    ensures var y := Step(w, A, Deliver(ProbeOf(isnA, isnB, x)));
      AckOfProbe(isnA, isnB) in y.toB && y.b == w.b && y.a.wrote == [] && y.a.sock.tx.initSeqNum == isnA
  {
    var p := ProbeOf(isnA, isnB, x);
    var r := WriteSegment(w.a.sock.rx, [x]);
    assert r == Rx(isnB, BURST + 2, [] + [x], []) && Drain(ESTABLISHED, r) == (ESTABLISHED, r);
    OnlyText(w.a, p);
    StepTaken(w, A, Deliver(p));
  }

  // ---------- The answer is not taken ----------

  // Everything is acknowledged, an open window has been offered in time, and B is still probing.
  ghost predicate Stuck(w: World, isnA: U32, isnB: U32) {
    && Probing(w.b, isnA, isnB) && w.b.sock.tx.largestAck == w.b.sock.tx.nextSequenceNumber
    && w.a.wrote == [] && NoWrapIn(w)
  }

  lemma AnswerNotTaken(b: Endpoint, isnA: U32, isnB: U32)
    requires Probing(b, isnA, isnB) && b.sock.tx.largestAck == 0
    requires 2 <= isnA && isnA + 2 < TWO_32 && isnB + BURST + 3 < TWO_32
    ensures var f := Perform(b, Deliver(AckOfProbe(isnA, isnB))).0;
      Acceptable(b.sock, AckOfProbe(isnA, isnB)) && ViewKept(b, f) && Probing(f, isnA, isnB)
      && f.sock.tx.largestAck == f.sock.tx.nextSequenceNumber && f.wrote == b.wrote
  {
    var p := AckOfProbe(isnA, isnB);
    HandleAckView(b, p);
    AckFrame(b.sock, p.ackNum);
    PruneStaysEstablished(b.sock.(tx := b.sock.tx.(largestAck := p.ackNum)));
  }

  // What is handled in the last event of a run is handled in the run.
  lemma {:induction false} HandledLast(w: World, side: Side, run: Run, ev: Event)
    requires HandlesNow(Exec(w, run), side, side, ev)
    ensures ev.packet in Handled(w, side, run + [(side, ev)])
    decreases |run|
  {
    var all := run + [(side, ev)];
    if run == [] {
      assert all[0] == (side, ev);
    } else {
      assert all[1..] == run[1..] + [(side, ev)] && all[0] == run[0];
      HandledLast(Step(w, run[0].0, run[0].1), side, run[1..], ev);
    }
  }

  // From the end of the burst to the probe's answer on its way.
  lemma ProbeAnswered(w: World, isnA: U32, isnB: U32, d: seq<Byte>, x: Byte) returns (run: Run)
    requires AllRead(w, isnA, isnB, d)
    ensures var y := Exec(w, run);
      && Probing(y.b, isnA, isnB) && y.b.sock.tx.largestAck == 0 && y.b.wrote == d + [x]
      && AckOfProbe(isnA, isnB) in y.toB && y.a.wrote == [] && y.a.sock.tx.initSeqNum == isnA
  {
    StartProbing(w, isnA, isnB, d, x);
    ExecOne(w, B, AppWrite([x]));
    run := [(B, AppWrite([x]))];
    Append(w, run, B, WriterStep);
    run := run + [(B, WriterStep)];
    AnswerProbe(Exec(w, run), isnA, isnB, x);
    Append(w, run, A, Deliver(ProbeOf(isnA, isnB, x)));
    run := run + [(A, Deliver(ProbeOf(isnA, isnB, x)))];
  }

  lemma ReachAnswer(isnA: U32, isnB: U32, d: seq<Byte>, x: Byte) returns (run: Run)
    requires RoomForBurst(isnA, isnB, d)
    ensures var y := Exec(Connected(isnA, isnB), run);
      && Probing(y.b, isnA, isnB) && y.b.sock.tx.largestAck == 0 && y.b.wrote == d + [x]
      && AckOfProbe(isnA, isnB) in y.toB && y.a.wrote == [] && y.a.sock.tx.initSeqNum == isnA
  {
    var w0 := Connected(isnA, isnB);
    var run1 := FillWindow(isnA, isnB, d);
    var run2 := ReceiveBurst(Exec(w0, run1), isnA, isnB, d);
    var run3 := ProbeAnswered(Exec(Exec(w0, run1), run2), isnA, isnB, d, x);
    ExecJoin(w0, run1, run2);
    ExecJoin(w0, run1 + run2, run3);
    run := run1 + run2 + run3;
  }

  /** For all initial numbers of the connecting side from 2 on there is a run in which the accepting side
      has handled an acceptable ACK of everything it sent, with an open window, and is still probing. */
  lemma StuckReached(isnA: U32, isnB: U32, d: seq<Byte>, x: Byte) returns (run: Run)
    requires RoomForBurst(isnA, isnB, d)
    ensures Stuck(Exec(Connected(isnA, isnB), run), isnA, isnB)
    ensures AckOfProbe(isnA, isnB) in Handled(Connected(isnA, isnB), B, run)
  {
    var w0 := Connected(isnA, isnB);
    run := ReachAnswer(isnA, isnB, d, x);
    var ev := Deliver(AckOfProbe(isnA, isnB));
    AnswerNotTaken(Exec(w0, run).b, isnA, isnB);
    StepTaken(Exec(w0, run), B, ev);
    HandledLast(w0, B, run, ev);
    Append(w0, run, B, ev);
    run := run + [(B, ev)];
  }

  /** It stays that way in every continuation in which the connecting side writes less than its initial
      number: whatever windows it offers, the accepting side never sends anything but that one probe. */
  lemma StuckForLong(isnA: U32, isnB: U32, run: Run, more: Run)
    requires Stuck(Exec(Connected(isnA, isnB), run), isnA, isnB)
    requires var y := Exec(Exec(Connected(isnA, isnB), run), more); NoWrapIn(y) && |y.a.wrote| + 2 < isnA
    ensures var w := Exec(Connected(isnA, isnB), run); ViewKept(w.b, Exec(w, more).b)
    ensures var y := Exec(Exec(Connected(isnA, isnB), run), more); y.b.sock.tx.zwpMode && y.b.sock.tx.writer.Probing?
  {
    AcceptorIgnoresWindows(isnA, isnB, run, more);
  }

  // ---------- What the ACK of a FIN overtakes ----------

  // A byte that B sends after acknowledging A's FIN.
  function ByteOfB(isnA: U32, isnB: U32, x: Byte): Packet
    requires RoomForFin(isnA, isnB)
  {
    Packet(isnB + 1, isnA + 1, {ACK}, 65535, [x])
  }

  // What one side sends when its application writes one byte on an idle connection.
  lemma WriteOneByte(e: Endpoint, x: Byte)
    requires e.phase == Running && e.sock.tx.writer == Idle && e.sock.tx.writeBuffer == []
    requires e.sock.tx.bytesInFlight == 0 && e.sock.tx.remoteWindowSize > 0
    ensures var e1 := Perform(e, AppWrite([x])).0; var (e2, o2) := Perform(e1, WriterStep);
      e1.phase == Running && e2.phase == Running && o2 == [] && Perform(e1, AppWrite([x])).1 == []
    ensures var e2 := Perform(Perform(e, AppWrite([x])).0, WriterStep).0;
      Perform(e2, WriterStep).1 == [Segment(e.sock, {ACK}, [x])]
  {
    assert [] + [x] == [x] && [x][..1] == [x];
    var e1 := Perform(e, AppWrite([x])).0;
    assert e1.sock.tx.writeBuffer == [x];
    assert Perform(e1, WriterStep).0.sock.tx.writer == Writer.Sending([x]);
  }

  lemma ThreeSteps(w: World, e1: Event, e2: Event, e3: Event, p: Packet) returns (run: Run)
    requires Enabled(w.b, w.toB, e1) && Enabled(Perform(w.b, e1).0, w.toB, e2)
    requires var b2 := Perform(Perform(w.b, e1).0, e2).0; Enabled(b2, w.toB, e3) && p in Perform(b2, e3).1
    ensures p in Exec(w, run).toA && Exec(w, run).a == w.a
  {
    StepTaken(w, B, e1);
    StepTaken(Step(w, B, e1), B, e2);
    StepTaken(Step(Step(w, B, e1), B, e2), B, e3);
    ExecOne(w, B, e1);
    run := [(B, e1)];
    Append(w, run, B, e2);
    run := run + [(B, e2)];
    Append(w, run, B, e3);
    run := run + [(B, e3)];
  }

  lemma ByteFollows(w: World, isnA: U32, isnB: U32, x: Byte) returns (more: Run)
    requires RoomForFin(isnA, isnB) && FinAnswered(w, isnA, isnB)
    ensures ByteOfB(isnA, isnB, x) in Exec(w, more).toA && Exec(w, more).a == w.a
  {
    WriteOneByte(w.b, x);
    more := ThreeSteps(w, AppWrite([x]), WriterStep, WriterStep, ByteOfB(isnA, isnB, x));
  }

  /** Overtaking happens: B acknowledges A's FIN and then sends a byte, with the same sequence number and
      the lower acknowledgment number of what it has accepted. */
  lemma OvertakingReached(isnA: U32, isnB: U32, x: Byte) returns (run: Run, more: Run)
    requires RoomForFin(isnA, isnB)
    ensures var w := Exec(Connected(isnA, isnB), run); var y := Exec(w, more);
      && AckOfFin(isnA, isnB) in w.toA && ByteOfB(isnA, isnB, x) !in w.toA && ByteOfB(isnA, isnB, x) in y.toA
      && Overtakes(SentBy(y.a), AckOfFin(isnA, isnB), ByteOfB(isnA, isnB, x))
  {
    run := FinAnswer(isnA, isnB);
    more := ByteFollows(Exec(Connected(isnA, isnB), run), isnA, isnB, x);
  }
}
