/** Closing as it should be. A closes first and goes through FIN_WAIT_2 to TIME_WAIT while B, which closes
    second, sends its FIN in LAST_ACK and is closed; and a FIN that overtakes the data before it is kept
    until the data arrives. Both for all initial numbers. */
module TcpOrderlyClose {
  import opened Words
  import opened SegmentHeap
  import opened Sockets
  import opened TcpNetwork
  import opened TcpSenderProofs
  import opened TcpRuns
  import opened TcpClosing
  import opened TcpScenarios
  import opened TcpLostFin

  // ---------- One side after the other ----------

  // A knows that its FIN has arrived.
  ghost predicate HalfClosed(a: Endpoint, isnA: U32, isnB: U32) {
    && a.phase == Running && !a.sock.isClosed && a.sock.connState == FIN_WAIT_2 && a.wrote == []
    && a.sock.tx.initSeqNum == isnA && a.sock.tx.numberBytesSent == 1 && a.sock.rx == Rx(isnB, 1, [], [])
  }

  lemma FinAcked(isnA: U32, isnB: U32, run: Run)
    requires RoomForFin(isnA, isnB) && FinAnswered(Exec(Connected(isnA, isnB), run), isnA, isnB)
    ensures HalfClosed(Perform(Exec(Connected(isnA, isnB), run).a, Deliver(AckOfFin(isnA, isnB))).0, isnA, isnB)
  {
    var s := Exec(Connected(isnA, isnB), run).a.sock;
    FinWait2Iff(isnA, isnB, run, A, s, isnA + 2);
    AckFrame(s, isnA + 2);
  }

  // B has been closed by its application and has sent its FIN.
  ghost predicate LastFinSent(b: Endpoint, isnA: U32, isnB: U32)
    requires RoomForFin(isnA, isnB)
  {
    && b.phase == Running && !b.sock.isClosed && b.sock.connState == LAST_ACK && b.wrote == []
    && b.sock.tx.initSeqNum == isnB && b.sock.tx.nextSequenceNumber == isnB + 2 && b.sock.tx.largestAck == 0
    && b.sock.tx.writer == Done && b.sock.tx.rtQueue == [Entry(isnB + 1, FinOfB(isnA, isnB))]
  }

  lemma ClosesSecond(b: Endpoint, isnA: U32, isnB: U32)
    requires RoomForFin(isnA, isnB)
    requires b == EstablishedB(isnA, isnB).(sock := EstablishedB(isnA, isnB).sock.(connState := CLOSE_WAIT))
    ensures var (f, o) := Perform(Perform(b, AppClose).0, WriterStep);
      LastFinSent(f, isnA, isnB) && o == [FinOfB(isnA, isnB)]
  {
  }

  /** The passive closer's FIN: for all initial numbers a run that ends with A in FIN_WAIT_2, B in LAST_ACK,
      and B's FIN on its way. */
  lemma LastAckSendsFin(isnA: U32, isnB: U32) returns (run: Run)
    requires RoomForFin(isnA, isnB)
    ensures var w := Exec(Connected(isnA, isnB), run);
      HalfClosed(w.a, isnA, isnB) && LastFinSent(w.b, isnA, isnB) && FinOfB(isnA, isnB) in w.toA
  {
    var w0 := Connected(isnA, isnB);
    run := FinAnswer(isnA, isnB);
    var ev := Deliver(AckOfFin(isnA, isnB));
    FinAcked(isnA, isnB, run);
    ClosesSecond(Exec(w0, run).b, isnA, isnB);
    StepTaken(Exec(w0, run), A, ev);
    Append(w0, run, A, ev);
    run := run + [(A, ev)];
    StepTaken(Exec(w0, run), B, AppClose);
    Append(w0, run, B, AppClose);
    run := run + [(B, AppClose)];
    StepTaken(Exec(w0, run), B, WriterStep);
    Append(w0, run, B, WriterStep);
    run := run + [(B, WriterStep)];
  }

  lemma LastFinHandled(a: Endpoint, isnA: U32, isnB: U32)
    requires RoomForFin(isnA, isnB) && HalfClosed(a, isnA, isnB)
    ensures var (f, o) := Perform(a, Deliver(FinOfB(isnA, isnB)));
      f == a.(sock := a.sock.(connState := TIME_WAIT)) && o == [AckOfFinOfB(isnA, isnB)]
  {
  }

  lemma LastFinAcked(b: Endpoint, isnA: U32, isnB: U32)
    requires RoomForFin(isnA, isnB) && LastFinSent(b, isnA, isnB)
    ensures var f := Perform(b, Deliver(AckOfFinOfB(isnA, isnB))).0;
      f.sock.connState == CLOSED && f.sock.isClosed && f.wrote == [] && f.sock.tx.initSeqNum == isnB
  {
  }

  /** An orderly close: for all initial numbers a run in which both sides close, one after the other, that
      ends with A in TIME_WAIT and B closed and removed. */
  lemma OrderlyClose(isnA: U32, isnB: U32) returns (run: Run)
    requires RoomForFin(isnA, isnB)
    ensures var w := Exec(Connected(isnA, isnB), run);
      NoWrapIn(w) && w.a.sock.connState == TIME_WAIT && w.b.sock.connState == CLOSED && w.b.sock.isClosed
  {
    var w0 := Connected(isnA, isnB);
    run := LastAckSendsFin(isnA, isnB);
    var fin, ack := Deliver(FinOfB(isnA, isnB)), Deliver(AckOfFinOfB(isnA, isnB));
    LastFinHandled(Exec(w0, run).a, isnA, isnB);
    LastFinAcked(Exec(w0, run).b, isnA, isnB);
    StepTaken(Exec(w0, run), A, fin);
    Append(w0, run, A, fin);
    run := run + [(A, fin)];
    StepTaken(Exec(w0, run), B, ack);
    Append(w0, run, B, ack);
    run := run + [(B, ack)];
  }

  // ---------- A FIN that arrives early ----------

  // B has parked the FIN and waits for the byte before it.
  ghost predicate FinParked(b: Endpoint, isnA: U32, isnB: U32, x: Byte)
    requires RoomForByte(isnA, isnB)
  {
    Receiving(b, isnA, [x], 0, [Entry(2, FinAfterByte(isnA, isnB))]) && b.sock.tx.initSeqNum == isnB
  }

  lemma FinParks(w: World, isnA: U32, isnB: U32, x: Byte)
    requires RoomForByte(isnA, isnB) && w.b == EstablishedB(isnA, isnB)
    ensures var (f, o) := Perform(w.b, Deliver(FinAfterByte(isnA, isnB))); FinParked(f, isnA, isnB, x) && o == []
  {
    var item := Entry(2, FinAfterByte(isnA, isnB));
    assert [] + [item] == [item] && PushEntry([], item) == [item];
    assert [x][..0] == [];
  }

  // The byte is accepted, and the FIN behind it is taken off the heap: it is not acknowledged yet.
  lemma ByteBeforeFin(b: Endpoint, isnA: U32, isnB: U32, x: Byte)
    requires RoomForByte(isnA, isnB) && FinParked(b, isnA, isnB, x)
    ensures var (f, o) := Perform(b, Deliver(ByteOfA(isnA, isnB, x)));
      && f.sock.connState == CLOSE_WAIT && f.sock.rx == Rx(isnA, 2, [x], []) && o == [AckOfByte(isnA, isnB)]
      && f.wrote == [] && f.sock.tx.initSeqNum == isnB
  {
    var item := Entry(2, FinAfterByte(isnA, isnB));
    assert Swap([item], 0, 0) == [item];
    assert [x][..0] == [] && [] + [x] == [x];
    var rx := WriteSegment(b.sock.rx, [x]);
    assert rx == Rx(isnA, 2, [x], [item]);
    var rest := rx.(earlyArrivals := []);
    assert Drain(ESTABLISHED, rx) == Drain(CLOSE_WAIT, rest) == (CLOSE_WAIT, rest);
  }

  /** For every byte and all initial numbers a run in which the FIN overtakes the byte before it: B keeps
      the FIN, and when the byte arrives accepts both, but acknowledges only the byte. */
  lemma EarlyFinIsKept(isnA: U32, isnB: U32, x: Byte) returns (run: Run)
    requires RoomForByte(isnA, isnB)
    ensures var w := Exec(Connected(isnA, isnB), run);
      var fin, byte := FinAfterByte(isnA, isnB), ByteOfA(isnA, isnB, x);
      var w1 := Step(w, B, Deliver(fin)); var w2 := Step(w1, B, Deliver(byte));
      && fin in w.toB && byte in w.toB && NoWrapIn(w2)
      && w1.b.sock.connState == ESTABLISHED && w1.b.sock.rx.readBuffer == []
      && w2.b.sock.connState == CLOSE_WAIT && w2.b.sock.rx.readBuffer == [x] == w2.a.wrote
      && AckOfByte(isnA, isnB) in w2.toA && (forall p | p in w2.toA && p.flags == {ACK} :: p.ackNum <= isnA + 2)
  {
    var w0 := Connected(isnA, isnB);
    run := SendAndClose(isnA, isnB, x);
    var ack := Deliver(FinalAck(isnA, isnB));
    HandshakeFinishes(Exec(w0, run), isnA, isnB);
    Append(w0, run, B, ack);
    run := run + [(B, ack)];
    var w := Exec(w0, run);
    FinParks(w, isnA, isnB, x);
    StepTaken(w, B, Deliver(FinAfterByte(isnA, isnB)));
    var w1 := Step(w, B, Deliver(FinAfterByte(isnA, isnB)));
    ByteBeforeFin(w1.b, isnA, isnB, x);
    StepTaken(w1, B, Deliver(ByteOfA(isnA, isnB, x)));
  }
}
