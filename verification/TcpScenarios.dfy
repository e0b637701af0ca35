/** Building blocks for concrete runs: appending events, sending a stream in bursts, and
    receiving it segment by segment. Either side can be the sender, and the initial sequence
    numbers are any that do not wrap. */
module TcpScenarios {
  import opened Words
  import opened SegmentHeap
  import opened Sockets
  import opened TcpNetwork
  import opened TcpInvariant
  import opened TcpSenderProofs
  import opened TcpRuns
  import opened TcpDelivery

  // ---------- Runs ----------

  lemma {:induction false} ExecJoin(w: World, first: Run, second: Run)
    ensures Exec(w, first + second) == Exec(Exec(w, first), second)
    decreases |first|
  {
    if first == [] {
      assert first + second == second;
    } else {
      assert (first + second)[1..] == first[1..] + second;
      ExecJoin(Step(w, first[0].0, first[0].1), first[1..], second);
    }
  }

  lemma ExecOne(w: World, side: Side, ev: Event)
    ensures Exec(w, [(side, ev)]) == Step(w, side, ev)
  {
    var one: Run := [(side, ev)];
    assert one[1..] == [];
  }

  // One more event at the end of a run.
  lemma Append(w: World, run: Run, side: Side, ev: Event)
    ensures Exec(w, run + [(side, ev)]) == Step(Exec(w, run), side, ev)
  {
    ExecJoin(w, run, [(side, ev)]);
    ExecOne(Exec(w, run), side, ev);
  }

  lemma {:induction false} RunFitsJoin(w: World, first: Run, second: Run)
    ensures RunFits(w, first + second) <==> RunFits(w, first) && RunFits(Exec(w, first), second)
    decreases |first|
  {
    if first == [] {
      assert first + second == second;
    } else {
      assert (first + second)[1..] == first[1..] + second;
      RunFitsJoin(Step(w, first[0].0, first[0].1), first[1..], second);
    }
  }

  // `side` took an enabled step that led from w to x and sent these packets.
  ghost predicate Took(w: World, x: World, side: Side, e: Endpoint, out: set<Packet>) {
    && x.End(side) == e && x.End(Other(side)) == w.End(Other(side))
    && x.Outbox(side) == w.Outbox(side) + out && x.Inbox(side) == w.Inbox(side)
  }

  lemma StepTaken(w: World, side: Side, ev: Event)
    requires Enabled(w.End(side), w.Inbox(side), ev)
    ensures var (e, o) := Perform(w.End(side), ev); Took(w, Step(w, side, ev), side, e, Packets(o))
  {
  }

  // ---------- The handshake ----------

  function FinalAck(isnA: U32, isnB: U32): Packet { Packet(Add32(isnA, 1), Add32(isnB, 1), {ACK}, 65535, []) }

  // The accepting side when the handshake is over.
  function EstablishedB(isnA: U32, isnB: U32): Endpoint {
    var s := MakeTCPSocket(ESTABLISHED, isnA, isnB);
    Endpoint(s.(tx := s.tx.(remoteWindowSize := 65535), rx := Rx(isnA, 1, [], [])), Running, [], [], {0})
  }

  lemma HandshakeFinishes(w: World, isnA: U32, isnB: U32)
    requires w.b == Connected(isnA, isnB).b && FinalAck(isnA, isnB) in w.toB
    ensures Took(w, Step(w, B, Deliver(FinalAck(isnA, isnB))), B, EstablishedB(isnA, isnB), {})
  {
  }

  // ---------- Sending ----------

  // The header of everything an endpoint sends while it receives nothing.
  function AckOf(e: Endpoint): U32 { Add32(e.sock.rx.nextExpectedByte, e.sock.rx.remoteISN) }

  // The segment an endpoint cuts at offset `off` of its stream d.
  function Cut(isn: U32, ack: U32, d: seq<Byte>, off: nat): Packet
    requires off < |d| && isn + |d| + 2 < TWO_32
  {
    Packet(isn + 1 + off, ack, {ACK}, 65535, d[off..off + Min(MAX_SEGMENT_SIZE, |d| - off)])
  }

  // The endpoint has sent the first `off` bytes of all it wrote, none of them acknowledged, and is
  // cutting the rest into segments; with nothing left it is idle.
  ghost predicate Cutting(e: Endpoint, off: nat) {
    var tx := e.sock.tx;
    && off <= |e.wrote| && NoWrap(e) && e.phase == Running && e.sock.rx.readBuffer == []
    && tx.numberBytesSent == off && tx.nextSequenceNumber == tx.initSeqNum + 1 + off && tx.writeBuffer == []
    && tx.writer == (if off < |e.wrote| then Writer.Sending(e.wrote[off..]) else Idle) && !tx.zwpMode
    && DataInQueue(tx.rtQueue) == off && tx.bytesInFlight == off % TWO_16
  }

  // From e to f the endpoint has written and sent, and nothing else.
  ghost predicate OnlySent(e: Endpoint, f: Endpoint) {
    && f.phase == e.phase && f.read == e.read && e.wrote <= f.wrote
    && f.sock.connState == e.sock.connState && f.sock.isClosed == e.sock.isClosed && f.sock.rx == e.sock.rx
    && f.sock.tx.initSeqNum == e.sock.tx.initSeqNum && f.sock.tx.largestAck == e.sock.tx.largestAck
    && f.sock.tx.remoteWindowSize == e.sock.tx.remoteWindowSize
    && f.sock.tx.lastSegmentSequenceNumber == e.sock.tx.lastSegmentSequenceNumber
  }

  lemma CutPacket(e: Endpoint, off: nat)
    requires Cutting(e, off) && off < |e.wrote|
    ensures var size := Min(MAX_SEGMENT_SIZE, |e.wrote| - off); var d := e.wrote;
      d[off..][..size] == d[off..off + size] && d[off..][size..] == d[off + size..]
    ensures SendSegment(e.sock).1 == [Cut(e.sock.tx.initSeqNum, AckOf(e), e.wrote, off)]
  {
    var size := Min(MAX_SEGMENT_SIZE, |e.wrote| - off);
    assert e.wrote[off..][..size] == e.wrote[off..off + size];
  }

  lemma CutQueued(e: Endpoint, off: nat)
    requires Cutting(e, off) && off < |e.wrote|
    ensures var tx, to := SendSegment(e.sock).0.tx, off + Min(MAX_SEGMENT_SIZE, |e.wrote| - off);
      DataInQueue(tx.rtQueue) == to && tx.bytesInFlight == to % TWO_16
  {
    CutPacket(e, off);
    var p := Cut(e.sock.tx.initSeqNum, AckOf(e), e.wrote, off);
    DataAppend(e.sock.tx.rtQueue, Entry(p.seqNum, p));
  }

  lemma CutOne(e: Endpoint, off: nat)
    requires Cutting(e, off) && off < |e.wrote|
    ensures var (f, o) := Perform(e, WriterStep);
      && Cutting(f, off + Min(MAX_SEGMENT_SIZE, |e.wrote| - off)) && OnlySent(e, f) && f.wrote == e.wrote
      && o == [Cut(e.sock.tx.initSeqNum, AckOf(e), e.wrote, off)]
  {
    CutPacket(e, off);
    CutQueued(e, off);
  }

  // All the cuts from one offset on are among these packets.
  ghost predicate AllCuts(e: Endpoint, from: nat, sent: set<Packet>) {
    NoWrap(e) && forall j: nat | from + MAX_SEGMENT_SIZE * j < |e.wrote| ::
      Cut(e.sock.tx.initSeqNum, AckOf(e), e.wrote, from + MAX_SEGMENT_SIZE * j) in sent
  }

  lemma CutsFollow(e: Endpoint, from: nat, size: nat, sent: set<Packet>, first: Packet)
    requires NoWrap(e) && from < |e.wrote| && size == Min(MAX_SEGMENT_SIZE, |e.wrote| - from)
    requires AllCuts(e, from + size, sent) && Cut(e.sock.tx.initSeqNum, AckOf(e), e.wrote, from) in sent
    ensures AllCuts(e, from, sent)
  {
    forall j: nat | from + MAX_SEGMENT_SIZE * j < |e.wrote|
      ensures Cut(e.sock.tx.initSeqNum, AckOf(e), e.wrote, from + MAX_SEGMENT_SIZE * j) in sent
    {
      if j > 0 { assert from + size + MAX_SEGMENT_SIZE * (j - 1) == from + MAX_SEGMENT_SIZE * j; }
    }
  }

  // What sending leaves alone in the rest of the world.
  ghost predicate OthersKept(w: World, x: World, side: Side) {
    && x.End(Other(side)) == w.End(Other(side)) && x.Inbox(side) == w.Inbox(side) && w.Outbox(side) <= x.Outbox(side)
  }

  lemma {:induction false} CutRest(w: World, side: Side, off: nat) returns (run: Run)
    requires Cutting(w.End(side), off)
    ensures var x := Exec(w, run);
      && Cutting(x.End(side), |w.End(side).wrote|) && OnlySent(w.End(side), x.End(side))
      && x.End(side).wrote == w.End(side).wrote
      && AllCuts(x.End(side), off, x.Outbox(side)) && OthersKept(w, x, side)
    decreases |w.End(side).wrote| - off
  {
    var e := w.End(side);
    if off == |e.wrote| {
      run := [];
    } else {
      CutOne(e, off);
      StepTaken(w, side, WriterStep);
      var size := Min(MAX_SEGMENT_SIZE, |e.wrote| - off);
      var w1 := Step(w, side, WriterStep);
      var rest := CutRest(w1, side, off + size);
      run := [(side, WriterStep)] + rest;
      assert run[1..] == rest;
      var p := Cut(e.sock.tx.initSeqNum, AckOf(e), e.wrote, off);
      assert p in w1.Outbox(side);
      CutsFollow(Exec(w, run).End(side), off, size, Exec(w, run).Outbox(side), p);
    }
  }

  // An idle endpoint with room in the window.
  ghost predicate CanBurst(e: Endpoint, data: seq<Byte>) {
    && Cutting(e, |e.wrote|) && 0 < |data| <= e.sock.tx.remoteWindowSize
    && e.sock.tx.bytesInFlight < e.sock.tx.remoteWindowSize && e.sock.tx.initSeqNum + |e.wrote| + |data| + 2 < TWO_32
  }

  lemma BurstStarts(e: Endpoint, data: seq<Byte>)
    requires CanBurst(e, data)
    ensures var f := Perform(Perform(e, AppWrite(data)).0, WriterStep).0;
      Cutting(f, |e.wrote|) && OnlySent(e, f) && f.wrote == e.wrote + data
    ensures Perform(Perform(e, AppWrite(data)).0, WriterStep).1 == []
  {
    assert data[..|data|] == data && [] + data == data && data[|data|..] == [];
    var e1 := Perform(e, AppWrite(data)).0;
    assert e1.sock.tx.writeBuffer == data;
    assert (e.wrote + data)[|e.wrote|..] == data;
  }

  // The application writes `data` and all of it is sent in one burst.
  lemma SendData(w: World, side: Side, data: seq<Byte>) returns (run: Run)
    requires CanBurst(w.End(side), data)
    ensures var x := Exec(w, run); var e, f := w.End(side), x.End(side);
      && Cutting(f, |f.wrote|) && OnlySent(e, f) && f.wrote == e.wrote + data
      && AllCuts(f, |e.wrote|, x.Outbox(side)) && OthersKept(w, x, side)
  {
    BurstStarts(w.End(side), data);
    StepTaken(w, side, AppWrite(data));
    var w1 := Step(w, side, AppWrite(data));
    StepTaken(w1, side, WriterStep);
    var w2 := Step(w1, side, WriterStep);
    var rest := CutRest(w2, side, |w.End(side).wrote|);
    run := [(side, AppWrite(data)), (side, WriterStep)] + rest;
    assert run[1..][1..] == rest && run[1..][0] == (side, WriterStep);
  }

  // ---------- Closing at once ----------

  predicate RoomForFin(isnA: U32, isnB: U32) { isnA + 3 < TWO_32 && isnB + 3 < TWO_32 }

  // The FIN of A with no data before it, and B's answer.
  function FinOfA(isnA: U32, isnB: U32): Packet
    requires RoomForFin(isnA, isnB)
  {
    Packet(isnA + 1, isnB + 1, {FIN}, 65535, [])
  }

  function AckOfFin(isnA: U32, isnB: U32): Packet
    requires RoomForFin(isnA, isnB)
  {
    Packet(isnB + 1, isnA + 2, {ACK}, 65535, [])
  }

  // The FIN of B with no data before it, and A's answer once its own FIN is out.
  function FinOfB(isnA: U32, isnB: U32): Packet
    requires RoomForFin(isnA, isnB)
  {
    Packet(isnB + 1, isnA + 1, {FIN}, 65535, [])
  }

  function AckOfFinOfB(isnA: U32, isnB: U32): Packet
    requires RoomForFin(isnA, isnB)
  {
    Packet(isnA + 2, isnB + 2, {ACK}, 65535, [])
  }

  // A has written nothing and sent its FIN, which is not acknowledged.
  ghost predicate ClosedAtOnce(a: Endpoint, isnA: U32, isnB: U32) {
    && a.phase == Running && !a.sock.isClosed && a.sock.connState == FIN_WAIT_1 && a.wrote == []
    && a.sock.tx.initSeqNum == isnA && a.sock.tx.numberBytesSent == 1 && a.sock.tx.writer == Done
    && a.sock.tx.largestAck == isnA + 1 && a.sock.tx.nextSequenceNumber == isnA + 2
    && a.sock.rx == Rx(isnB, 1, [], [])
  }

  // B has handled the FIN and sent nothing but its acknowledgment.
  ghost predicate FinAnswered(w: World, isnA: U32, isnB: U32)
    requires RoomForFin(isnA, isnB)
  {
    && NoWrapIn(w) && ClosedAtOnce(w.a, isnA, isnB)
    && w.toA == Connected(isnA, isnB).toA + {AckOfFin(isnA, isnB)}
    && w.b == EstablishedB(isnA, isnB).(sock := EstablishedB(isnA, isnB).sock.(connState := CLOSE_WAIT))
  }

  lemma CloseAtOnce(isnA: U32, isnB: U32) returns (run: Run)
    requires RoomForFin(isnA, isnB)
    ensures var w := Exec(Connected(isnA, isnB), run);
      && NoWrapIn(w) && ClosedAtOnce(w.a, isnA, isnB)
      && w.b == Connected(isnA, isnB).b && w.toA == Connected(isnA, isnB).toA
      && FinalAck(isnA, isnB) in w.toB && FinOfA(isnA, isnB) in w.toB
  {
    var w0 := Connected(isnA, isnB);
    ExecOne(w0, A, AppClose);
    run := [(A, AppClose)];
    Append(w0, run, A, WriterStep);
    run := run + [(A, WriterStep)];
  }

  lemma FinHandled(isnA: U32, isnB: U32)
    requires RoomForFin(isnA, isnB)
    ensures var e := EstablishedB(isnA, isnB);
      Perform(e, Deliver(FinOfA(isnA, isnB))) == (e.(sock := e.sock.(connState := CLOSE_WAIT)), [AckOfFin(isnA, isnB)])
  {
  }

  lemma FinAnswer(isnA: U32, isnB: U32) returns (run: Run)
    requires RoomForFin(isnA, isnB)
    ensures FinAnswered(Exec(Connected(isnA, isnB), run), isnA, isnB)
  {
    var w0 := Connected(isnA, isnB);
    run := CloseAtOnce(isnA, isnB);
    HandshakeFinishes(Exec(w0, run), isnA, isnB);
    Append(w0, run, B, Deliver(FinalAck(isnA, isnB)));
    run := run + [(B, Deliver(FinalAck(isnA, isnB)))];
    FinHandled(isnA, isnB);
    StepTaken(Exec(w0, run), B, Deliver(FinOfA(isnA, isnB)));
    Append(w0, run, B, Deliver(FinOfA(isnA, isnB)));
    run := run + [(B, Deliver(FinOfA(isnA, isnB)))];
  }

  // ---------- Receiving ----------

  // The endpoint has written nothing; it has accepted the first `off` bytes of the peer's stream d,
  // read none of them, and holds these early arrivals.
  ghost predicate Receiving(r: Endpoint, isn: U32, d: seq<Byte>, off: nat, early: seq<Entry>) {
    && Quiet(r) && off <= |d| && isn + |d| + 2 < TWO_32
    && r.sock.rx == Rx(isn, 1 + off, d[..off], early) && r.read == []
  }

  ghost predicate Quiet(r: Endpoint) {
    var tx := r.sock.tx;
    && r.phase == Running && r.sock.connState == ESTABLISHED && !r.sock.isClosed && r.wrote == [] && NoWrap(r)
    && tx.rtQueue == [] && tx.numberBytesSent == 0 && tx.nextSequenceNumber == tx.initSeqNum + 1
    && tx.writeBuffer == [] && tx.writer == Idle && !tx.zwpMode && tx.bytesInFlight == 0
  }

  // A segment that acknowledges nothing the endpoint has sent.
  ghost predicate ForQuiet(r: Endpoint, p: Packet) {
    p.flags == {ACK} && p.ackNum == r.sock.tx.initSeqNum + 1 && p.data != []
  }

  // Handling such a segment comes down to its text, and is answered with an ACK.
  lemma OnlyText(r: Endpoint, p: Packet)
    requires Quiet(r) && ForQuiet(r, p) && AcceptText(ESTABLISHED, r.sock.rx, p).0 == ESTABLISHED
    ensures ReachesText(r.sock, p)
    ensures var (f, o) := Perform(r, Deliver(p)); var rx := AcceptText(ESTABLISHED, r.sock.rx, p).1;
      && Quiet(f) && f.sock.rx == rx && f.read == r.read && f.sock.tx.initSeqNum == r.sock.tx.initSeqNum
      && o == [Packet(r.sock.tx.initSeqNum + 1, Add32(rx.nextExpectedByte, rx.remoteISN), {ACK}, Window(rx), [])]
  {
  }

  lemma TextInOrder(rx: Rx, isn: U32, d: seq<Byte>, off: nat, p: Packet)
    requires off <= |d| && isn + |d| + 2 < TWO_32 && rx == Rx(isn, 1 + off, d[..off], [])
    requires p.seqNum == isn + 1 + off && 0 < |p.data| <= Min(65535, |d|) - off && p.data == d[off..off + |p.data|]
    ensures AcceptText(ESTABLISHED, rx, p)
      == (ESTABLISHED, Rx(isn, 1 + off + |p.data|, d[..off + |p.data|], []))
  {
    var rx' := WriteSegment(rx, p.data);
    assert d[..off] + d[off..off + |p.data|] == d[..off + |p.data|];
    assert rx' == Rx(isn, 1 + off + |p.data|, d[..off + |p.data|], []);
  }

  // One world step in which `side` handles packet p.
  lemma ReceiveInOrder(w: World, side: Side, isn: U32, d: seq<Byte>, off: nat, p: Packet)
    requires var r := w.End(side); Receiving(r, isn, d, off, []) && ForQuiet(r, p) && p in w.Inbox(side)
    requires p.seqNum == isn + 1 + off && |p.data| <= Min(65535, |d|) - off && p.data == d[off..off + |p.data|]
    ensures var x := Step(w, side, Deliver(p)); var r := w.End(side);
      && Receiving(x.End(side), isn, d, off + |p.data|, []) && OthersKept(w, x, side)
      && x.End(side).sock.tx.initSeqNum == r.sock.tx.initSeqNum
      && Packet(r.sock.tx.initSeqNum + 1, isn + 1 + off + |p.data|, {ACK}, 65535 - off - |p.data|, []) in x.Outbox(side)
  {
    var r := w.End(side);
    TextInOrder(r.sock.rx, isn, d, off, p);
    OnlyText(r, p);
    StepTaken(w, side, Deliver(p));
  }

  // The peer e has sent all the cuts of its stream from offset `off` on.
  ghost predicate Available(w: World, side: Side, e: Endpoint, off: nat) {
    && AllCuts(e, off, w.Inbox(side)) && AckOf(e) == w.End(side).sock.tx.initSeqNum + 1
  }

  lemma AvailableNext(w: World, x: World, side: Side, e: Endpoint, off: nat)
    requires Available(w, side, e, off) && x.Inbox(side) == w.Inbox(side)
    requires x.End(side).sock.tx.initSeqNum == w.End(side).sock.tx.initSeqNum
    ensures Available(x, side, e, off + MAX_SEGMENT_SIZE)
  {
    var next := off + MAX_SEGMENT_SIZE;
    forall j: nat | next + MAX_SEGMENT_SIZE * j < |e.wrote|
      ensures Cut(e.sock.tx.initSeqNum, AckOf(e), e.wrote, next + MAX_SEGMENT_SIZE * j) in w.Inbox(side)
    {
      assert off + MAX_SEGMENT_SIZE * (j + 1) == next + MAX_SEGMENT_SIZE * j;
    }
  }

  lemma ReceiveOneCut(w: World, side: Side, e: Endpoint, off: nat)
    requires Receiving(w.End(side), e.sock.tx.initSeqNum, e.wrote, off, []) && Available(w, side, e, off)
    requires off + MAX_SEGMENT_SIZE <= Min(65535, |e.wrote|)
    ensures var p := Cut(e.sock.tx.initSeqNum, AckOf(e), e.wrote, off); var x := Step(w, side, Deliver(p));
      && Receiving(x.End(side), e.sock.tx.initSeqNum, e.wrote, off + MAX_SEGMENT_SIZE, [])
      && Available(x, side, e, off + MAX_SEGMENT_SIZE) && OthersKept(w, x, side)
      && x.End(side).sock.tx.initSeqNum == w.End(side).sock.tx.initSeqNum
  {
    var p := Cut(e.sock.tx.initSeqNum, AckOf(e), e.wrote, off);
    assert off + MAX_SEGMENT_SIZE * 0 == off;
    assert p in w.Inbox(side);
    ReceiveInOrder(w, side, e.sock.tx.initSeqNum, e.wrote, off, p);
    AvailableNext(w, Step(w, side, Deliver(p)), side, e, off);
  }

  // The receiver accepts the next `count` cuts, one after the other.
  lemma {:induction false} ReceiveCuts(w: World, side: Side, e: Endpoint, off: nat, count: nat) returns (run: Run)
    requires Receiving(w.End(side), e.sock.tx.initSeqNum, e.wrote, off, []) && Available(w, side, e, off)
    requires off + MAX_SEGMENT_SIZE * count <= Min(65535, |e.wrote|)
    ensures var x := Exec(w, run);
      && Receiving(x.End(side), e.sock.tx.initSeqNum, e.wrote, off + MAX_SEGMENT_SIZE * count, [])
      && OthersKept(w, x, side) && x.End(side).sock.tx.initSeqNum == w.End(side).sock.tx.initSeqNum
    decreases count
  {
    if count == 0 {
      run := [];
    } else {
      var p := Cut(e.sock.tx.initSeqNum, AckOf(e), e.wrote, off);
      ReceiveOneCut(w, side, e, off);
      var w1 := Step(w, side, Deliver(p));
      var rest := ReceiveCuts(w1, side, e, off + MAX_SEGMENT_SIZE, count - 1);
      run := [(side, Deliver(p))] + rest;
      assert run[1..] == rest;
    }
  }

  // ---------- A whole window ----------

  lemma {:induction false} PruneStaysEstablished(s: Sock)
    requires s.connState == ESTABLISHED
    ensures Prune(s).connState == ESTABLISHED && Prune(s).isClosed == s.isClosed
    decreases |s.tx.rtQueue|
  {
    var q := s.tx.rtQueue;
    if |q| > 0 && End(q[0]) <= s.tx.largestAck { PruneStaysEstablished(DropHead(s)); }
  }

  const BURST := 65535

  // The receiver has accepted all of d, which fills its read buffer, and has said so.
  ghost predicate FullReceived(w: World, side: Side, isn: U32, d: seq<Byte>) {
    var isnR := w.End(side).sock.tx.initSeqNum;
    && |d| == BURST && Receiving(w.End(side), isn, d, BURST, [])
    && isnR + 1 < TWO_32 && Packet(isnR + 1, isn + 1 + BURST, {ACK}, 0, []) in w.Outbox(side)
  }

  lemma ReceiveLastCut(w: World, side: Side, e: Endpoint, d: seq<Byte>)
    requires |d| == BURST && e.wrote == d && Receiving(w.End(side), e.sock.tx.initSeqNum, d, 64512, [])
    requires Available(w, side, e, 64512)
    ensures var x := Step(w, side, Deliver(Cut(e.sock.tx.initSeqNum, AckOf(e), d, 64512)));
      && FullReceived(x, side, e.sock.tx.initSeqNum, d) && OthersKept(w, x, side)
      && x.End(side).sock.tx.initSeqNum == w.End(side).sock.tx.initSeqNum
  {
    var p := Cut(e.sock.tx.initSeqNum, AckOf(e), d, 64512);
    assert Cut(e.sock.tx.initSeqNum, AckOf(e), d, 64512 + MAX_SEGMENT_SIZE * 0) in w.Inbox(side);
    ReceiveInOrder(w, side, e.sock.tx.initSeqNum, d, 64512, p);
  }

  // The receiver accepts a burst that fills the window, segment by segment.
  lemma ReceiveFull(w: World, side: Side, e: Endpoint, d: seq<Byte>) returns (run: Run)
    requires |d| == BURST && e.wrote == d && Receiving(w.End(side), e.sock.tx.initSeqNum, d, 0, [])
    requires Available(w, side, e, 0)
    ensures var x := Exec(w, run);
      && FullReceived(x, side, e.sock.tx.initSeqNum, d) && OthersKept(w, x, side)
      && x.End(side).sock.tx.initSeqNum == w.End(side).sock.tx.initSeqNum
  {
    run := ReceiveCuts(w, side, e, 0, 63);
    var w1 := Exec(w, run);
    assert Available(w1, side, e, 64512) by {
      forall j: nat | 64512 + MAX_SEGMENT_SIZE * j < |d|
        ensures Cut(e.sock.tx.initSeqNum, AckOf(e), d, 64512 + MAX_SEGMENT_SIZE * j) in w1.Inbox(side)
      {
        assert Cut(e.sock.tx.initSeqNum, AckOf(e), d, 0 + MAX_SEGMENT_SIZE * (63 + j)) in w.Inbox(side);
      }
    }
    ReceiveLastCut(w1, side, e, d);
    var ev := Deliver(Cut(e.sock.tx.initSeqNum, AckOf(e), d, 64512));
    Append(w, run, side, ev);
    run := run + [(side, ev)];
  }

  lemma ReadFull(w: World, side: Side, isn: U32, d: seq<Byte>)
    requires FullReceived(w, side, isn, d)
    ensures var x := Step(w, side, AppRead(BURST)); var r := x.End(side);
      && Quiet(r) && r.sock.rx == Rx(isn, BURST + 1, [], []) && r.read == d && OthersKept(w, x, side)
      && r.sock.tx.initSeqNum == w.End(side).sock.tx.initSeqNum
  {
    assert d[..BURST] == d && d[BURST..] == [] && [] + d == d;
  }
}
