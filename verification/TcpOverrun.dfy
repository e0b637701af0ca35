/** What a burst that ignores the bytes in flight leads to, for every stream of 65536 bytes. One
    byte is in flight when a burst fills the whole window of 65535, so one byte more is outstanding
    than the 16-bit counter can count and than the read buffer can hold. The last segment arrives
    before the one in front of it, is drained into too little room, and arrives again after the
    application has read: the application is then given more bytes than were ever written. */
module TcpOverrun {
  import opened Words
  import opened SegmentHeap
  import opened Sockets
  import opened TcpNetwork
  import opened TcpInvariant
  import opened TcpRuns
  import opened TcpDelivery
  import opened TcpInFlight
  import opened TcpScenarios

  const STREAM := 65536

  // A stream of this length that neither side's sequence numbers are too large for.
  predicate Streamable(isnA: U32, isnB: U32, d: seq<Byte>) {
    |d| == STREAM && isnA + STREAM + 2 < TWO_32 && isnB + 2 < TWO_32
  }

  // A has sent the first byte, and then the rest in one burst; B has not yet handled anything.
  ghost predicate AllSent(w: World, isnA: U32, isnB: U32, d: seq<Byte>) {
    && Streamable(isnA, isnB, d) && w.b == Connected(isnA, isnB).b && FinalAck(isnA, isnB) in w.toB
    && Cutting(w.a, STREAM) && w.a.wrote == d && w.a.sock.tx.initSeqNum == isnA && AckOf(w.a) == isnB + 1
    && AllCuts(w.a, 1, w.toB) && Packet(isnA + 1, isnB + 1, {ACK}, 65535, [d[0]]) in w.toB
  }

  lemma SendFirst(isnA: U32, isnB: U32, d: seq<Byte>) returns (run: Run)
    requires Streamable(isnA, isnB, d)
    ensures var w0 := Connected(isnA, isnB); var x := Exec(w0, run);
      && Cutting(x.a, 1) && OnlySent(w0.a, x.a) && x.a.wrote == [d[0]] && OthersKept(w0, x, A)
      && Packet(isnA + 1, isnB + 1, {ACK}, 65535, [d[0]]) in x.toB
  {
    var w0 := Connected(isnA, isnB);
    assert DataInQueue([]) == 0;
    run := SendData(w0, A, [d[0]]);
    var x := Exec(w0, run);
    assert [] + [d[0]] == [d[0]] == [d[0]][0..1];
    assert Cut(isnA, isnB + 1, [d[0]], 0 + MAX_SEGMENT_SIZE * 0) in x.toB;
  }

  lemma SendAll(isnA: U32, isnB: U32, d: seq<Byte>) returns (run: Run)
    requires Streamable(isnA, isnB, d)
    ensures AllSent(Exec(Connected(isnA, isnB), run), isnA, isnB, d)
  {
    var w0 := Connected(isnA, isnB);
    var first := SendFirst(isnA, isnB, d);
    var w1 := Exec(w0, first);
    assert [d[0]] + d[1..] == d;
    var rest := SendData(w1, A, d[1..]);
    ExecJoin(w0, first, rest);
    run := first + rest;
  }

  /** For every stream of 65536 bytes there is a run without wrap-around at whose end all of it is
      outstanding and the 16-bit count of bytes in flight says 0. */
  lemma CounterWraps(isnA: U32, isnB: U32, d: seq<Byte>) returns (run: Run)
    requires Streamable(isnA, isnB, d)
    ensures var w := Exec(Connected(isnA, isnB), run);
      NoWrapIn(w) && w.a.wrote == d && w.a.sock.tx.bytesInFlight == 0 && Outstanding(w.a.sock.tx) == 65536
  {
    run := SendAll(isnA, isnB, d);
  }

  // A sends a burst that fills the window of 65535.
  lemma FillWindow(isnA: U32, isnB: U32, d: seq<Byte>) returns (run: Run)
    requires |d| == 65535 && isnA + STREAM + 2 < TWO_32 && isnB + 2 < TWO_32
    ensures var w0 := Connected(isnA, isnB); var x := Exec(w0, run);
      Cutting(x.a, 65535) && OnlySent(w0.a, x.a) && x.a.wrote == d && OthersKept(w0, x, A)
  {
    assert DataInQueue([]) == 0;
    assert [] + d == d;
    run := SendData(Connected(isnA, isnB), A, d);
  }

  lemma ProbeOnTop(e: Endpoint, x: Byte)
    requires Cutting(e, 65535) && |e.wrote| == 65535 && e.sock.tx.remoteWindowSize == 65535
    ensures var e1 := Perform(e, AppWrite([x])).0; var tx := Perform(e1, WriterStep).0.sock.tx;
      && e1.phase == Running && tx.zwpMode && tx.bytesInFlight == 0 && Outstanding(tx) == 65536
      && Perform(e1, WriterStep).0.wrote == e.wrote + [x] && tx.initSeqNum == e.sock.tx.initSeqNum
  {
    assert [x][..1] == [x] && [] + [x] == [x];
    assert Perform(e, AppWrite([x])).0.sock.tx.writeBuffer == [x];
  }

  /** No second burst is needed: a probe on top of a full window wraps the counter to 0 as well, for all
      initial numbers. */
  lemma ProbeWraps(isnA: U32, isnB: U32, d: seq<Byte>, x: Byte) returns (run: Run)
    requires |d| == 65535 && isnA + STREAM + 2 < TWO_32 && isnB + 2 < TWO_32
    ensures var w := Exec(Connected(isnA, isnB), run); var tx := w.a.sock.tx;
      NoWrapIn(w) && w.a.wrote == d + [x] && tx.zwpMode && tx.bytesInFlight == 0 && Outstanding(tx) == 65536
  {
    var w0 := Connected(isnA, isnB);
    run := FillWindow(isnA, isnB, d);
    ProbeOnTop(Exec(w0, run).a, x);
    StepTaken(Exec(w0, run), A, AppWrite([x]));
    Append(w0, run, A, AppWrite([x]));
    run := run + [(A, AppWrite([x]))];
    StepTaken(Exec(w0, run), A, WriterStep);
    Append(w0, run, A, WriterStep);
    run := run + [(A, WriterStep)];
  }

  // ---------- B receives ----------

  // Where the last two cuts start.
  const LAST := 64513
  const BEFORE_LAST := 63489

  // The last two cuts, as long as B may still be given them.
  function LastCut(isnA: U32, isnB: U32, d: seq<Byte>): Packet
    requires Streamable(isnA, isnB, d)
  {
    Cut(isnA, isnB + 1, d, LAST)
  }

  function CutBefore(isnA: U32, isnB: U32, d: seq<Byte>): Packet
    requires Streamable(isnA, isnB, d)
  {
    Cut(isnA, isnB + 1, d, BEFORE_LAST)
  }

  // B is running with nothing of its own, A has sent everything, and the last two cuts are on their way.
  ghost predicate LastCutsComing(w: World, isnA: U32, isnB: U32, d: seq<Byte>) {
    && Streamable(isnA, isnB, d) && w.a.wrote == d && w.a.sock.tx.initSeqNum == isnA
    && Quiet(w.b) && w.b.sock.tx.initSeqNum == isnB
    && LastCut(isnA, isnB, d) in w.toB && CutBefore(isnA, isnB, d) in w.toB
  }

  // B completes the handshake and accepts the first byte.
  lemma AcceptFirst(w: World, isnA: U32, isnB: U32, d: seq<Byte>) returns (run: Run)
    requires AllSent(w, isnA, isnB, d)
    ensures var x := Exec(w, run);
      Receiving(x.b, isnA, d, 1, []) && x.toB == w.toB && x.a == w.a && x.b.sock.tx.initSeqNum == isnB
  {
    HandshakeFinishes(w, isnA, isnB);
    var w1 := Step(w, B, Deliver(FinalAck(isnA, isnB)));
    assert d[..0] == [] && d[0..1] == [d[0]];
    assert Receiving(w1.b, isnA, d, 0, []);
    var p := Packet(isnA + 1, isnB + 1, {ACK}, 65535, [d[0]]);
    ReceiveInOrder(w1, B, isnA, d, 0, p);
    ExecOne(w, B, Deliver(FinalAck(isnA, isnB)));
    run := [(B, Deliver(FinalAck(isnA, isnB)))];
    Append(w, run, B, Deliver(p));
    run := run + [(B, Deliver(p))];
  }

  lemma AcceptUpToLast(w: World, isnA: U32, isnB: U32, d: seq<Byte>) returns (run: Run)
    requires AllSent(w, isnA, isnB, d)
    ensures var x := Exec(w, run); LastCutsComing(x, isnA, isnB, d) && Receiving(x.b, isnA, d, BEFORE_LAST, [])
  {
    assert Cut(isnA, isnB + 1, d, 1 + MAX_SEGMENT_SIZE * 63) in w.toB;
    assert Cut(isnA, isnB + 1, d, 1 + MAX_SEGMENT_SIZE * 62) in w.toB;
    var first := AcceptFirst(w, isnA, isnB, d);
    var x := Exec(w, first);
    var cuts := ReceiveCuts(x, B, x.a, 1, 62);
    ExecJoin(w, first, cuts);
    run := first + cuts;
  }

  lemma ParkLast(w: World, isnA: U32, isnB: U32, d: seq<Byte>)
    requires LastCutsComing(w, isnA, isnB, d) && Receiving(w.b, isnA, d, BEFORE_LAST, [])
    ensures var p := LastCut(isnA, isnB, d); var x := Step(w, B, Deliver(p));
      LastCutsComing(x, isnA, isnB, d) && Receiving(x.b, isnA, d, BEFORE_LAST, [Entry(1 + LAST, p)])
  {
    var p := LastCut(isnA, isnB, d);
    var x := Entry(1 + LAST, p);
    assert [] + [x] == [x] && PushEntry([], x) == [x];
    OnlyText(w.b, p);
  }

  lemma PopOnly(x: Entry)
    ensures PopEntry([x]) == (x, [])
  {
    assert Swap([x], 0, 0) == [x];
  }

  // Draining the last cut finds 1022 bytes of room for its 1023.
  lemma DrainOverruns(isnA: U32, isnB: U32, d: seq<Byte>, rx: Rx)
    requires Streamable(isnA, isnB, d)
    requires rx == Rx(isnA, 1 + BEFORE_LAST, d[..BEFORE_LAST], [Entry(1 + LAST, LastCut(isnA, isnB, d))])
    ensures var p := CutBefore(isnA, isnB, d); var (state, r) := AcceptText(ESTABLISHED, rx, p);
      && !TextFits(rx, p) && state == ESTABLISHED && r.remoteISN == isnA && r.nextExpectedByte == 1 + LAST
      && |r.readBuffer| == 65535 && r.earlyArrivals == []
  {
    var p, x := CutBefore(isnA, isnB, d), Entry(1 + LAST, LastCut(isnA, isnB, d));
    var r1 := WriteSegment(rx, p.data);
    assert |r1.readBuffer| == LAST && r1.nextExpectedByte == 1 + LAST;
    PopOnly(x);
    var r2 := WriteSegment(r1, x.packet.data).(earlyArrivals := []);
    assert |r2.readBuffer| == 65535 && r2.nextExpectedByte == 1 + LAST;
    assert Drain(ESTABLISHED, r1) == Drain(ESTABLISHED, r2) == (ESTABLISHED, r2);
  }

  // 65535 bytes are read or buffered though only LAST are counted, and the last cut is still to come.
  ghost predicate Overrun(b: Endpoint, isnA: U32) {
    && b.sock.rx.remoteISN == isnA && b.sock.rx.nextExpectedByte == 1 + LAST && b.sock.rx.earlyArrivals == []
    && |b.read| + |b.sock.rx.readBuffer| == 65535
  }

  lemma OverrunStep(w: World, isnA: U32, isnB: U32, d: seq<Byte>)
    requires LastCutsComing(w, isnA, isnB, d)
    requires Receiving(w.b, isnA, d, BEFORE_LAST, [Entry(1 + LAST, LastCut(isnA, isnB, d))])
    ensures var ev := Deliver(CutBefore(isnA, isnB, d)); var x := Step(w, B, ev);
      !EventFits(w.b, w.toB, ev) && LastCutsComing(x, isnA, isnB, d) && Overrun(x.b, isnA)
  {
    DrainOverruns(isnA, isnB, d, w.b.sock.rx);
    OnlyText(w.b, CutBefore(isnA, isnB, d));
  }

  lemma ReadAndReceiveAgain(w: World, isnA: U32, isnB: U32, d: seq<Byte>)
    requires LastCutsComing(w, isnA, isnB, d) && Overrun(w.b, isnA)
    ensures var w1 := Step(w, B, AppRead(65535)); var w2 := Step(w1, B, Deliver(LastCut(isnA, isnB, d)));
      |w2.b.read + w2.b.sock.rx.readBuffer| == 66558 && LastCutsComing(w2, isnA, isnB, d)
  {
    var p := LastCut(isnA, isnB, d);
    var w1 := Step(w, B, AppRead(65535));
    assert LastCutsComing(w1, isnA, isnB, d) && Overrun(w1.b, isnA) && w1.b.sock.rx.readBuffer == [];
    var r := WriteSegment(w1.b.sock.rx, p.data);
    assert r.readBuffer == [] + p.data && Drain(ESTABLISHED, r) == (ESTABLISHED, r);
    OnlyText(w1.b, p);
  }

  // B has parked the last cut and drained it into too little room.
  lemma OverrunB(w: World, isnA: U32, isnB: U32, d: seq<Byte>) returns (run: Run)
    requires AllSent(w, isnA, isnB, d)
    ensures var x := Exec(w, run); LastCutsComing(x, isnA, isnB, d) && Overrun(x.b, isnA) && !RunFits(w, run)
  {
    run := AcceptUpToLast(w, isnA, isnB, d);
    ParkLast(Exec(w, run), isnA, isnB, d);
    Append(w, run, B, Deliver(LastCut(isnA, isnB, d)));
    run := run + [(B, Deliver(LastCut(isnA, isnB, d)))];
    OverrunStep(Exec(w, run), isnA, isnB, d);
    var ev := Deliver(CutBefore(isnA, isnB, d));
    Append(w, run, B, ev);
    RunFitsJoin(w, run, [(B, ev)]);
    run := run + [(B, ev)];
  }

  // From there B reads, is given the last cut again, and holds more than was written.
  lemma GivenAgain(w: World, isnA: U32, isnB: U32, d: seq<Byte>) returns (run: Run)
    requires LastCutsComing(w, isnA, isnB, d) && Overrun(w.b, isnA)
    ensures GivenTooMuch(Exec(w, run), d)
  {
    ReadAndReceiveAgain(w, isnA, isnB, d);
    ExecOne(w, B, AppRead(65535));
    run := [(B, AppRead(65535))];
    Append(w, run, B, Deliver(LastCut(isnA, isnB, d)));
    run := run + [(B, Deliver(LastCut(isnA, isnB, d)))];
  }

  // The receiving application has been given, or can read, more bytes than were written.
  ghost predicate GivenTooMuch(w: World, d: seq<Byte>) {
    NoWrapIn(w) && w.a.wrote == d && !(w.b.read + w.b.sock.rx.readBuffer <= w.a.wrote)
  }

  lemma JoinUnfit(w: World, first: Run, second: Run, third: Run)
    requires !RunFits(Exec(w, first), second)
    ensures Exec(w, first + second + third) == Exec(Exec(Exec(w, first), second), third)
    ensures !RunFits(w, first + second + third)
  {
    ExecJoin(w, first, second);
    ExecJoin(w, first + second, third);
    RunFitsJoin(w, first, second);
    RunFitsJoin(w, first + second, third);
  }

  /** For every stream of 65536 bytes and all initial numbers there is a run without wrap-around at
      whose end what the receiving application has read or can read is not a prefix of what the
      sender wrote. */
  lemma InOrderDeliveryFails(isnA: U32, isnB: U32, d: seq<Byte>) returns (run: Run)
    requires Streamable(isnA, isnB, d)
    ensures GivenTooMuch(Exec(Connected(isnA, isnB), run), d) && !RunFits(Connected(isnA, isnB), run)
  {
    var w0 := Connected(isnA, isnB);
    var sent := SendAll(isnA, isnB, d);
    var over := OverrunB(Exec(w0, sent), isnA, isnB, d);
    var again := GivenAgain(Exec(Exec(w0, sent), over), isnA, isnB, d);
    JoinUnfit(w0, sent, over, again);
    run := sent + over + again;
  }
}
