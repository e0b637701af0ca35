/** The FIN that is given up. A run, for every byte and all initial numbers, in which A sends the
    byte and its FIN, handles the acknowledgment of the byte, and is left in FIN_WAIT_2 with nothing
    to retransmit although B has not received the FIN. */
module TcpLostFin {
  import opened Words
  import opened SegmentHeap
  import opened Sockets
  import opened TcpNetwork
  import opened TcpInvariant
  import opened TcpSenderProofs
  import opened TcpRuns
  import opened TcpClosing
  import opened TcpScenarios

  predicate RoomForByte(isnA: U32, isnB: U32) { isnA + 3 < TWO_32 && isnB + 2 < TWO_32 }

  function ByteOfA(isnA: U32, isnB: U32, x: Byte): Packet
    requires RoomForByte(isnA, isnB)
  {
    Packet(isnA + 1, isnB + 1, {ACK}, 65535, [x])
  }

  function AckOfByte(isnA: U32, isnB: U32): Packet
    requires RoomForByte(isnA, isnB)
  {
    Packet(isnB + 1, isnA + 2, {ACK}, 65534, [])
  }

  // The FIN that follows the byte.
  function FinAfterByte(isnA: U32, isnB: U32): Packet
    requires RoomForByte(isnA, isnB)
  {
    Packet(isnA + 2, isnB + 1, {FIN}, 65535, [])
  }

  // A has sent the byte and its FIN, and nothing is acknowledged.
  ghost predicate FinSent(e: Endpoint, isnA: U32, x: Byte) {
    && e.phase == Running && !e.sock.isClosed && e.wrote == [x]
    && e.sock.connState == FIN_WAIT_1 && e.sock.tx.initSeqNum == isnA && e.sock.tx.largestAck == isnA + 1
    && e.sock.tx.writer == Done && !e.sock.tx.zwpMode
    && e.sock.tx.numberBytesSent == 2 && e.sock.tx.nextSequenceNumber == isnA + 3
  }

  lemma CloseSends(e: Endpoint, isnA: U32, isnB: U32, x: Byte)
    requires RoomForByte(isnA, isnB)
    requires Cutting(e, 1) && e.wrote == [x] && e.sock.connState == ESTABLISHED && !e.sock.isClosed
    requires e.sock.tx.initSeqNum == isnA && e.sock.tx.largestAck == isnA + 1 && AckOf(e) == isnB + 1
    ensures var (f, o) := Perform(Perform(e, AppClose).0, WriterStep);
      FinSent(f, isnA, x) && o == [FinAfterByte(isnA, isnB)]
  {
  }

  lemma SendAndClose(isnA: U32, isnB: U32, x: Byte) returns (run: Run)
    requires RoomForByte(isnA, isnB)
    ensures var w := Exec(Connected(isnA, isnB), run);
      && FinSent(w.a, isnA, x) && w.b == Connected(isnA, isnB).b && w.toA == Connected(isnA, isnB).toA
      && FinalAck(isnA, isnB) in w.toB && ByteOfA(isnA, isnB, x) in w.toB && FinAfterByte(isnA, isnB) in w.toB
  {
    var w0 := Connected(isnA, isnB);
    assert DataInQueue([]) == 0;
    run := SendData(w0, A, [x]);
    var w1 := Exec(w0, run);
    assert [] + [x] == [x] == [x][0..1];
    assert Cut(isnA, isnB + 1, [x], 0 + MAX_SEGMENT_SIZE * 0) in w1.toB;
    CloseSends(w1.a, isnA, isnB, x);
    StepTaken(w1, A, AppClose);
    StepTaken(Step(w1, A, AppClose), A, WriterStep);
    Append(w0, run, A, AppClose);
    run := run + [(A, AppClose)];
    Append(w0, run, A, WriterStep);
    run := run + [(A, WriterStep)];
  }

  // B completes the handshake and accepts the byte.
  lemma AcceptByte(w: World, isnA: U32, isnB: U32, x: Byte) returns (more: Run)
    requires RoomForByte(isnA, isnB) && w.b == Connected(isnA, isnB).b
    requires FinalAck(isnA, isnB) in w.toB && ByteOfA(isnA, isnB, x) in w.toB
    ensures var y := Exec(w, more);
      && y.a == w.a && Receiving(y.b, isnA, [x], 1, []) && y.b.sock.tx.initSeqNum == isnB
      && AckOfByte(isnA, isnB) in y.toA
  {
    var ack := Deliver(FinalAck(isnA, isnB));
    HandshakeFinishes(w, isnA, isnB);
    var w1 := Step(w, B, ack);
    assert [x][..0] == [] && [x][0..1] == [x];
    assert Receiving(w1.b, isnA, [x], 0, []);
    ReceiveInOrder(w1, B, isnA, [x], 0, ByteOfA(isnA, isnB, x));
    ExecOne(w, B, ack);
    more := [(B, ack)];
    Append(w, more, B, Deliver(ByteOfA(isnA, isnB, x)));
    more := more + [(B, Deliver(ByteOfA(isnA, isnB, x)))];
  }

  lemma ByteAcked(isnA: U32, isnB: U32, x: Byte) returns (run: Run)
    requires RoomForByte(isnA, isnB)
    ensures var w := Exec(Connected(isnA, isnB), run);
      && FinSent(w.a, isnA, x) && Receiving(w.b, isnA, [x], 1, []) && w.b.sock.tx.initSeqNum == isnB
      && AckOfByte(isnA, isnB) in w.toA
  {
    run := SendAndClose(isnA, isnB, x);
    var more := AcceptByte(Exec(Connected(isnA, isnB), run), isnA, isnB, x);
    ExecJoin(Connected(isnA, isnB), run, more);
    run := run + more;
  }

  // The acknowledgment of the byte takes the FIN off the queue as well.
  lemma AckOfByteHandled(isnA: U32, isnB: U32, run: Run, x: Byte)
    requires RoomForByte(isnA, isnB)
    requires var w := Exec(Connected(isnA, isnB), run); NoWrapIn(w) && FinSent(w.a, isnA, x)
    ensures var f := Perform(Exec(Connected(isnA, isnB), run).a, Deliver(AckOfByte(isnA, isnB))).0;
      && Exhausted(f) && f.sock.connState == FIN_WAIT_2 && f.wrote == [x]
      && f.sock.tx.initSeqNum == isnA && f.sock.tx.numberBytesSent == 2
  {
    var s := Exec(Connected(isnA, isnB), run).a.sock;
    FinWait2Iff(isnA, isnB, run, A, s, isnA + 2);
    AckFrame(s, isnA + 2);
  }

  /** For all initial numbers and every byte there is a run that ends with A in FIN_WAIT_2, nothing
      left to send or to retransmit, and B still ESTABLISHED. From there, by PeerSeesFinIffDelivered,
      B learns that A has closed only if the network delivers the one FIN packet there is. */
  lemma FinWait2WithoutFin(isnA: U32, isnB: U32, x: Byte) returns (run: Run)
    requires RoomForByte(isnA, isnB)
    ensures var w := Exec(Connected(isnA, isnB), run);
      && NoWrapIn(w) && Stranded(w, A)
      && w.a.sock.connState == FIN_WAIT_2 && w.b.sock.connState == ESTABLISHED
  {
    var w0 := Connected(isnA, isnB);
    run := ByteAcked(isnA, isnB, x);
    var w1 := Exec(w0, run);
    var ev := Deliver(AckOfByte(isnA, isnB));
    AckOfByteHandled(isnA, isnB, run, x);
    StepTaken(w1, A, ev);
    Append(w0, run, A, ev);
    run := run + [(A, ev)];
    ReachableInv(isnA, isnB, run);
  }
}
