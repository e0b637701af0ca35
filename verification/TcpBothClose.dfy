/** Both sides close and neither is ever done. A run, for all initial numbers: A closes; B's writer, which
    looks at the state each time round its loop, finds CLOSE_WAIT and sends its FIN before VClose; and A
    acknowledges it. A is then in CLOSING, and B, once VClose is called, in LAST_ACK with no FIN left to
    be acknowledged. */
module TcpBothClose {
  import opened Words
  import opened SegmentHeap
  import opened Sockets
  import opened TcpNetwork
  import opened TcpSenderProofs
  import opened TcpRuns
  import opened TcpClosing
  import opened TcpScenarios

  // B is in CLOSE_WAIT, has sent its FIN and is waiting for the acknowledgment.
  ghost predicate FinOfBQueued(b: Endpoint, isnA: U32, isnB: U32)
    requires RoomForFin(isnA, isnB)
  {
    && b.phase == Running && !b.sock.isClosed && b.sock.connState == CLOSE_WAIT && b.wrote == []
    && b.sock.tx.initSeqNum == isnB && b.sock.tx.nextSequenceNumber == isnB + 2 && b.sock.tx.largestAck == 0
    && b.sock.tx.writer == Done && !b.sock.tx.zwpMode && b.sock.tx.rtQueue == [Entry(isnB + 1, FinOfB(isnA, isnB))]
  }

  // CLOSE_WAIT is enough for HandleVWrite to send the FIN.
  lemma WriterSendsFin(isnA: U32, isnB: U32)
    requires RoomForFin(isnA, isnB)
    ensures var e := EstablishedB(isnA, isnB).(sock := EstablishedB(isnA, isnB).sock.(connState := CLOSE_WAIT));
      var (f, o) := Perform(e, WriterStep);
      FinOfBQueued(f, isnA, isnB) && o == [FinOfB(isnA, isnB)]
  {
  }

  lemma FinMeetsFin(a: Endpoint, isnA: U32, isnB: U32)
    requires RoomForFin(isnA, isnB) && ClosedAtOnce(a, isnA, isnB)
    ensures var (f, o) := Perform(a, Deliver(FinOfB(isnA, isnB)));
      && f.sock.connState == CLOSING && f.phase == Running && f.wrote == [] && f.sock.tx.initSeqNum == isnA
      && o == [AckOfFinOfB(isnA, isnB)]
  {
  }

  // The FIN is acknowledged before VClose, and only then does B enter LAST_ACK.
  lemma CloseTooLate(b: Endpoint, isnA: U32, isnB: U32)
    requires RoomForFin(isnA, isnB) && FinOfBQueued(b, isnA, isnB)
    ensures var f := Perform(b, Deliver(AckOfFinOfB(isnA, isnB))).0; var g := Perform(f, AppClose).0;
      && NeverCloses(g) && g.sock.tx.largestAck == g.sock.tx.nextSequenceNumber
      && g.wrote == [] && g.sock.tx.initSeqNum == isnB
  {
    var s := b.sock.(tx := b.sock.tx.(largestAck := isnB + 2));
    assert DropHead(s).tx.rtQueue == [];
    assert Prune(s) == Prune(DropHead(s)) == DropHead(s);
  }

  // Each side has sent its FIN, and A has acknowledged that of B.
  lemma FinsCross(isnA: U32, isnB: U32) returns (run: Run)
    requires RoomForFin(isnA, isnB)
    ensures var w := Exec(Connected(isnA, isnB), run);
      && w.a.sock.connState == CLOSING && w.a.phase == Running && w.a.wrote == [] && w.a.sock.tx.initSeqNum == isnA
      && FinOfBQueued(w.b, isnA, isnB) && AckOfFinOfB(isnA, isnB) in w.toB
  {
    var w0 := Connected(isnA, isnB);
    run := FinAnswer(isnA, isnB);
    WriterSendsFin(isnA, isnB);
    StepTaken(Exec(w0, run), B, WriterStep);
    Append(w0, run, B, WriterStep);
    run := run + [(B, WriterStep)];
    var ev := Deliver(FinOfB(isnA, isnB));
    FinMeetsFin(Exec(w0, run).a, isnA, isnB);
    StepTaken(Exec(w0, run), A, ev);
    Append(w0, run, A, ev);
    run := run + [(A, ev)];
  }

  /** For all initial numbers there is a run that ends with one side in CLOSING and the other in LAST_ACK
      with everything acknowledged and nothing queued. From there, by ClosingForever and LastAckForever,
      neither is ever closed. */
  lemma NeitherCloses(isnA: U32, isnB: U32) returns (run: Run)
    requires RoomForFin(isnA, isnB)
    ensures var w := Exec(Connected(isnA, isnB), run);
      && NoWrapIn(w) && w.a.sock.connState == CLOSING && w.a.phase == Running
      && NeverCloses(w.b) && w.b.sock.tx.largestAck == w.b.sock.tx.nextSequenceNumber
  {
    var w0 := Connected(isnA, isnB);
    run := FinsCross(isnA, isnB);
    var ev := Deliver(AckOfFinOfB(isnA, isnB));
    CloseTooLate(Exec(w0, run).b, isnA, isnB);
    StepTaken(Exec(w0, run), B, ev);
    Append(w0, run, B, ev);
    run := run + [(B, ev)];
    StepTaken(Exec(w0, run), B, AppClose);
    Append(w0, run, B, AppClose);
    run := run + [(B, AppClose)];
  }
}
