/** Early arrivals are not deduplicated. A run, for every two bytes and all initial numbers, in
    which the second of two segments arrives twice before the first: one copy is drained, the other
    stays at the root of the heap behind the next expected byte. */
module TcpStaleCopy {
  import opened Words
  import opened SegmentHeap
  import opened Sockets
  import opened TcpNetwork
  import opened TcpInvariant
  import opened TcpRuns
  import opened TcpDraining
  import opened TcpScenarios

  predicate RoomForTwo(isnA: U32, isnB: U32) { isnA + 4 < TWO_32 && isnB + 2 < TWO_32 }

  function First(isnA: U32, isnB: U32, x: Byte): Packet
    requires RoomForTwo(isnA, isnB)
  {
    Packet(isnA + 1, isnB + 1, {ACK}, 65535, [x])
  }

  function Second(isnA: U32, isnB: U32, y: Byte): Packet
    requires RoomForTwo(isnA, isnB)
  {
    Packet(isnA + 2, isnB + 1, {ACK}, 65535, [y])
  }

  // Both segments are on their way to B, which has written nothing.
  ghost predicate BothComing(w: World, isnA: U32, isnB: U32, x: Byte, y: Byte) {
    && RoomForTwo(isnA, isnB) && First(isnA, isnB, x) in w.toB && Second(isnA, isnB, y) in w.toB
    && w.a.wrote == [x, y] && w.a.sock.tx.initSeqNum == isnA
  }

  lemma SendX(isnA: U32, isnB: U32, x: Byte) returns (run: Run)
    requires RoomForTwo(isnA, isnB)
    ensures var w0 := Connected(isnA, isnB); var w := Exec(w0, run);
      && Cutting(w.a, 1) && w.a.wrote == [x] && OnlySent(w0.a, w.a) && OthersKept(w0, w, A)
      && First(isnA, isnB, x) in w.toB
  {
    var w0 := Connected(isnA, isnB);
    assert DataInQueue([]) == 0;
    run := SendData(w0, A, [x]);
    assert [] + [x] == [x] == [x][0..1];
    assert Cut(isnA, isnB + 1, [x], 0 + MAX_SEGMENT_SIZE * 0) in Exec(w0, run).toB;
  }

  // The second byte goes out after the first one.
  lemma SendY(w: World, isnA: U32, isnB: U32, x: Byte, y: Byte) returns (more: Run)
    requires RoomForTwo(isnA, isnB) && Cutting(w.a, 1) && w.a.wrote == [x] && First(isnA, isnB, x) in w.toB
    requires w.a.sock.tx.initSeqNum == isnA && AckOf(w.a) == isnB + 1 && w.a.sock.tx.remoteWindowSize == 65535
    ensures var z := Exec(w, more); BothComing(z, isnA, isnB, x, y) && z.b == w.b && w.toB <= z.toB
  {
    more := SendData(w, A, [y]);
    assert [x] + [y] == [x, y] && [x, y][1..2] == [y];
    assert Cut(isnA, isnB + 1, [x, y], 1 + MAX_SEGMENT_SIZE * 0) in Exec(w, more).toB;
  }

  lemma SendBoth(isnA: U32, isnB: U32, x: Byte, y: Byte) returns (run: Run)
    requires RoomForTwo(isnA, isnB)
    ensures var w := Exec(Connected(isnA, isnB), run);
      BothComing(w, isnA, isnB, x, y) && w.b == Connected(isnA, isnB).b && FinalAck(isnA, isnB) in w.toB
  {
    run := SendX(isnA, isnB, x);
    var more := SendY(Exec(Connected(isnA, isnB), run), isnA, isnB, x, y);
    ExecJoin(Connected(isnA, isnB), run, more);
    run := run + more;
  }

  // B holds these early arrivals and has accepted nothing.
  ghost predicate Holding(w: World, isnA: U32, isnB: U32, x: Byte, y: Byte, early: seq<Entry>) {
    && BothComing(w, isnA, isnB, x, y) && Receiving(w.b, isnA, [x, y], 0, early) && w.b.sock.tx.initSeqNum == isnB
  }

  lemma Park(w: World, isnA: U32, isnB: U32, x: Byte, y: Byte, early: seq<Entry>)
    requires Holding(w, isnA, isnB, x, y, early)
    ensures var p := Second(isnA, isnB, y);
      Holding(Step(w, B, Deliver(p)), isnA, isnB, x, y, PushEntry(early, Entry(2, p)))
  {
    OnlyText(w.b, Second(isnA, isnB, y));
  }

  lemma TwoCopies(e: Entry)
    ensures PushEntry([], e) == [e] && PushEntry([e], e) == [e, e]
    ensures PopEntry([e, e]) == (e, [e])
  {
    assert [] + [e] == [e] && [e] + [e] == [e, e];
    assert Swap([e, e], 0, 1) == [e, e];
    assert [e, e][..1] == [e];
  }

  // Draining takes one copy and stops at the other.
  lemma OneCopyDrained(isnA: U32, isnB: U32, x: Byte, y: Byte, rx: Rx)
    requires RoomForTwo(isnA, isnB)
    requires var e := Entry(2, Second(isnA, isnB, y)); rx == Rx(isnA, 1, [], [e, e])
    ensures var e := Entry(2, Second(isnA, isnB, y));
      AcceptText(ESTABLISHED, rx, First(isnA, isnB, x)) == (ESTABLISHED, Rx(isnA, 3, [x, y], [e]))
  {
    var e := Entry(2, Second(isnA, isnB, y));
    TwoCopies(e);
    var r1 := WriteSegment(rx, [x]);
    assert r1 == Rx(isnA, 2, [x], [e, e]);
    var r2 := WriteSegment(r1, [y]).(earlyArrivals := [e]);
    assert r2 == Rx(isnA, 3, [x, y], [e]);
    assert Drain(ESTABLISHED, r1) == Drain(ESTABLISHED, r2) == (ESTABLISHED, r2);
  }

  // B completes the handshake and parks the second segment twice.
  lemma ParkTwice(w: World, isnA: U32, isnB: U32, x: Byte, y: Byte) returns (more: Run)
    requires BothComing(w, isnA, isnB, x, y) && w.b == Connected(isnA, isnB).b && FinalAck(isnA, isnB) in w.toB
    ensures var e := Entry(2, Second(isnA, isnB, y)); Holding(Exec(w, more), isnA, isnB, x, y, [e, e])
  {
    var p := Second(isnA, isnB, y);
    TwoCopies(Entry(2, p));
    var ack := Deliver(FinalAck(isnA, isnB));
    HandshakeFinishes(w, isnA, isnB);
    ExecOne(w, B, ack);
    more := [(B, ack)];
    assert [x, y][..0] == [];
    assert Holding(Exec(w, more), isnA, isnB, x, y, []);
    Park(Exec(w, more), isnA, isnB, x, y, []);
    Append(w, more, B, Deliver(p));
    more := more + [(B, Deliver(p))];
    Park(Exec(w, more), isnA, isnB, x, y, [Entry(2, p)]);
    Append(w, more, B, Deliver(p));
    more := more + [(B, Deliver(p))];
  }

  /** For all initial numbers and every two bytes there is a run that ends with a stale copy at the
      root of B's heap. From there, by StaleForever, nothing ever leaves the heap again. */
  lemma StaleRootReached(isnA: U32, isnB: U32, x: Byte, y: Byte) returns (run: Run)
    requires RoomForTwo(isnA, isnB)
    ensures var w := Exec(Connected(isnA, isnB), run);
      && NoWrapIn(w) && w.b.phase == Running && RootIsStale(w.b.sock.rx) && w.b.sock.rx.readBuffer == [x, y]
  {
    var w0 := Connected(isnA, isnB);
    run := SendBoth(isnA, isnB, x, y);
    var more := ParkTwice(Exec(w0, run), isnA, isnB, x, y);
    ExecJoin(w0, run, more);
    run := run + more;
    var w1 := Exec(w0, run);
    OneCopyDrained(isnA, isnB, x, y, w1.b.sock.rx);
    OnlyText(w1.b, First(isnA, isnB, x));
    Append(w0, run, B, Deliver(First(isnA, isnB, x)));
    run := run + [(B, Deliver(First(isnA, isnB, x)))];
  }
}
