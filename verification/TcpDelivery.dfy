/** In-order delivery. What an endpoint has read plus what its read buffer holds is exactly
    the peer's stream up to NextExpectedByte, unless an early segment was drained into a read
    buffer with some room but too little: WriteSegment then keeps the bytes that fit without
    counting them. The theorem is an equivalence over whole runs. */
module TcpDelivery {
  import opened Words
  import opened SegmentHeap
  import opened Sockets
  import opened TcpNetwork
  import opened TcpInvariant
  import opened TcpSenderProofs
  import opened TcpReceiverProofs
  import opened TcpRuns

  // The segment is refused or kept as a whole.
  predicate Fits(rx: Rx, data: seq<Byte>) {
    Free(rx.readBuffer) <= 0 || |data| <= Free(rx.readBuffer)
  }

  /** Every early segment that draining would take off the heap fits. */
  predicate DrainFits(rx: Rx)
    decreases |rx.earlyArrivals|
  {
    var h := rx.earlyArrivals;
    if |h| > 0 && rx.nextExpectedByte == h[0].priority then
      if FIN in h[0].packet.flags then
        DrainFits(rx.(earlyArrivals := PopEntry(h).1))
      else
        Fits(rx, h[0].packet.data) && DrainFits(WriteSegment(rx, h[0].packet.data).(earlyArrivals := PopEntry(h).1))
    else true
  }

  predicate TextFits(rx: Rx, p: Packet) {
    rx.nextExpectedByte == Sub32(p.seqNum, rx.remoteISN) && |p.data| <= Free(rx.readBuffer)
    ==> DrainFits(WriteSegment(rx, p.data))
  }

  // Whether handling an ACK segment reaches its text.
  predicate ReachesText(s: Sock, p: Packet) {
    var s1 := ProcessAck(s, p.ackNum);
    p.flags == {ACK} && p.data != [] && !(s1.isClosed && !s.isClosed) && p.ackNum <= s.tx.nextSequenceNumber
  }

  predicate EventFits(e: Endpoint, inbox: set<Packet>, ev: Event) {
    Enabled(e, inbox, ev) && e.phase == Running && ev.Deliver? && ReachesText(e.sock, ev.packet)
    ==> TextFits(e.sock.rx, ev.packet)
  }

  predicate RunFits(w: World, run: Run)
    decreases |run|
  {
    run == [] || (EventFits(w.End(run[0].0), w.Inbox(run[0].0), run[0].1)
                  && RunFits(Step(w, run[0].0, run[0].1), run[1..]))
  }

  // Bytes the receiver holds or has handed out beyond those it has counted.
  function Excess(rx: Rx, read: seq<Byte>): int { |read| + |rx.readBuffer| - (rx.nextExpectedByte - 1) }

  // The effect of handling text on what is held.
  ghost predicate Delivery(v: Sent, rx: Rx, r: Rx, read: seq<Byte>, fits: bool) {
    && Excess(r, read) >= Excess(rx, read)
    && (fits <==> Excess(r, read) == Excess(rx, read))
    && (fits && InOrder(v, rx, read) ==> InOrder(v, r, read))
  }

  lemma TakeMore(s: seq<Byte>, k: nat, n: nat)
    requires k + n <= |s|
    ensures s[..k] + s[k..k + n] == s[..k + n]
  {
  }

  lemma WholeSegmentInOrder(v: Sent, rx: Rx, r: Rx, read: seq<Byte>, p: Packet)
    requires InOrder(v, rx, read) && IsDataSegment(v, p) && p.seqNum - v.isn == rx.nextExpectedByte
    requires r.nextExpectedByte == rx.nextExpectedByte + |p.data| && r.readBuffer == rx.readBuffer + p.data
    ensures InOrder(v, r, read)
  {
    var k := rx.nextExpectedByte - 1;
    TakeMore(v.wrote, k, |p.data|);
    assert read + r.readBuffer == (read + rx.readBuffer) + p.data;
  }

  lemma WriteSegmentExcess(v: Sent, rx: Rx, read: seq<Byte>, out: set<Packet>, p: Packet)
    requires SentOk(v) && RxOk(v, rx, out) && IsDataSegment(v, p) && p.seqNum - v.isn == rx.nextExpectedByte
    ensures Delivery(v, rx, WriteSegment(rx, p.data), read, Fits(rx, p.data))
  {
    var r, free := WriteSegment(rx, p.data), Free(rx.readBuffer);
    if free <= 0 {
      assert r == rx;
    } else if |p.data| <= free {
      assert r.nextExpectedByte == rx.nextExpectedByte + |p.data| && r.readBuffer == rx.readBuffer + p.data;
      if InOrder(v, rx, read) { WholeSegmentInOrder(v, rx, r, read, p); }
    } else {
      assert |r.readBuffer| == |rx.readBuffer| + free;
    }
  }

  lemma {:induction false} DrainDelivery(v: Sent, out: set<Packet>, state: ConnState, rx: Rx, read: seq<Byte>)
    requires SentOk(v) && (forall p | p in out :: PacketOk(v, p)) && RxOk(v, rx, out)
    ensures Delivery(v, rx, Drain(state, rx).1, read, DrainFits(rx))
    decreases |rx.earlyArrivals|
  {
    var h := rx.earlyArrivals;
    if |h| > 0 && rx.nextExpectedByte == h[0].priority {
      var p := h[0].packet;
      assert EarlyOk(v, out, h[0]) && PacketOk(v, p);
      if FIN in p.flags {
        PopKeepsRxOk(v, rx, out, h);
        DrainDelivery(v, out, StateAfterEarlyFin(state), rx.(earlyArrivals := PopEntry(h).1), read);
      } else {
        WriteSegmentOk(v, rx, out, p);
        WriteSegmentExcess(v, rx, read, out, p);
        PopKeepsRxOk(v, WriteSegment(rx, p.data), out, h);
        DrainDelivery(v, out, state, WriteSegment(rx, p.data).(earlyArrivals := PopEntry(h).1), read);
      }
    }
  }

  lemma TextDelivery(v: Sent, out: set<Packet>, state: ConnState, rx: Rx, p: Packet, read: seq<Byte>)
    requires SentOk(v) && (forall q | q in out :: PacketOk(v, q)) && RxOk(v, rx, out)
    requires p in out && p.data != []
    ensures Delivery(v, rx, AcceptText(state, rx, p).1, read, TextFits(rx, p))
  {
    assert IsDataSegment(v, p);
    if rx.nextExpectedByte == Sub32(p.seqNum, rx.remoteISN) && |p.data| <= Free(rx.readBuffer) {
      WriteSegmentOk(v, rx, out, p);
      WriteSegmentExcess(v, rx, read, out, p);
      DrainDelivery(v, out, state, WriteSegment(rx, p.data), read);
    }
  }

  lemma AckDelivery(v: Sent, inbox: set<Packet>, e: Endpoint, p: Packet)
    requires SentOk(v) && (forall q | q in inbox :: PacketOk(v, q)) && RxOk(v, e.sock.rx, inbox)
    requires p in inbox && p.flags == {ACK}
    ensures Delivery(v, e.sock.rx, HandleAck(e.sock, p).0.rx, e.read,
                     ReachesText(e.sock, p) ==> TextFits(e.sock.rx, p))
  {
    AckFrame(e.sock, p.ackNum);
    if ReachesText(e.sock, p) {
      TextDelivery(v, inbox, ProcessAck(e.sock, p.ackNum).connState, e.sock.rx, p, e.read);
    }
  }

  lemma ReadDelivery(v: Sent, e: Endpoint, n: nat)
    ensures var f := Perform(e, AppRead(n)).0;
      && Excess(f.sock.rx, f.read) == Excess(e.sock.rx, e.read)
      && (InOrder(v, e.sock.rx, e.read) ==> InOrder(v, f.sock.rx, f.read))
  {
    var f := Perform(e, AppRead(n)).0;
    assert f.read + f.sock.rx.readBuffer == e.read + e.sock.rx.readBuffer;
  }

  /** One event adds uncounted bytes exactly when a drained segment does not fit. */
  lemma EventDelivery(v: Sent, e: Endpoint, inbox: set<Packet>, ev: Event)
    requires SentOk(v) && (forall q | q in inbox :: PacketOk(v, q)) && RxOk(v, e.sock.rx, inbox)
    requires Enabled(e, inbox, ev)
    ensures var f := Perform(e, ev).0;
      && Excess(f.sock.rx, f.read) >= Excess(e.sock.rx, e.read)
      && (EventFits(e, inbox, ev) <==> Excess(f.sock.rx, f.read) == Excess(e.sock.rx, e.read))
      && (EventFits(e, inbox, ev) && InOrder(v, e.sock.rx, e.read) ==> InOrder(v, f.sock.rx, f.read))
  {
    match ev
    case Deliver(p) => if e.phase == Running && p.flags == {ACK} { AckDelivery(v, inbox, e, p); }
    case AppRead(n) => ReadDelivery(v, e, n);
    case _ =>
  }

  // Both endpoints hold exactly what they have counted.
  ghost predicate BothInOrder(w: World) {
    && InOrder(SentBy(w.b), w.a.sock.rx, w.a.read)
    && InOrder(SentBy(w.a), w.b.sock.rx, w.b.read)
  }

  function TotalExcess(w: World): int {
    Excess(w.a.sock.rx, w.a.read) + Excess(w.b.sock.rx, w.b.read)
  }

  lemma InOrderGrows(v: Sent, w: Sent, rx: Rx, read: seq<Byte>)
    requires v.wrote <= w.wrote && InOrder(v, rx, read)
    ensures InOrder(w, rx, read)
  {
  }

  lemma StepDelivery(w: World, side: Side, ev: Event)
    requires Inv(w)
    ensures var x := Step(w, side, ev); var fits := EventFits(w.End(side), w.Inbox(side), ev);
      && TotalExcess(x) >= TotalExcess(w)
      && (fits <==> TotalExcess(x) == TotalExcess(w))
      && (fits && BothInOrder(w) ==> BothInOrder(x))
  {
    var x := Step(w, side, ev);
    if Enabled(w.End(side), w.Inbox(side), ev) {
      PerformGrows(w.End(side), ev);
      if side == A {
        EventDelivery(SentBy(w.b), w.a, w.toA, ev);
        if BothInOrder(w) { InOrderGrows(SentBy(w.a), SentBy(x.a), w.b.sock.rx, w.b.read); }
      } else {
        EventDelivery(SentBy(w.a), w.b, w.toB, ev);
        if BothInOrder(w) { InOrderGrows(SentBy(w.b), SentBy(x.b), w.a.sock.rx, w.a.read); }
      }
    }
  }

  lemma {:induction false} RunDelivery(w: World, run: Run)
    requires Inv(w) && NoWrapIn(Exec(w, run))
    ensures TotalExcess(Exec(w, run)) >= TotalExcess(w)
    ensures RunFits(w, run) <==> TotalExcess(Exec(w, run)) == TotalExcess(w)
    ensures RunFits(w, run) && BothInOrder(w) ==> BothInOrder(Exec(w, run))
    decreases |run|
  {
    if run != [] {
      var x := Step(w, run[0].0, run[0].1);
      RunGrows(x, run[1..]);
      StepKeepsInv(w, run[0].0, run[0].1);
      StepDelivery(w, run[0].0, run[0].1);
      RunDelivery(x, run[1..]);
    }
  }

  lemma InOrderHasNoExcess(w: World)
    requires BothInOrder(w)
    ensures TotalExcess(w) == 0
  {
    assert |w.a.read + w.a.sock.rx.readBuffer| == w.a.sock.rx.nextExpectedByte - 1;
    assert |w.b.read + w.b.sock.rx.readBuffer| == w.b.sock.rx.nextExpectedByte - 1;
  }

  lemma ConnectedInOrder(isnA: U32, isnB: U32)
    ensures BothInOrder(Connected(isnA, isnB)) && TotalExcess(Connected(isnA, isnB)) == 0
  {
  }

  /** In every run after the handshake, each side has read or buffered exactly the peer's stream
      up to NextExpectedByte if and only if every drained early segment fitted or was refused whole. */
  lemma InOrderIffFits(isnA: U32, isnB: U32, run: Run)
    requires NoWrapIn(Exec(Connected(isnA, isnB), run))
    ensures RunFits(Connected(isnA, isnB), run) <==> BothInOrder(Exec(Connected(isnA, isnB), run))
  {
    var w := Connected(isnA, isnB);
    RunGrows(w, run);
    ConnectedInv(isnA, isnB);
    RunDelivery(w, run);
    ConnectedInOrder(isnA, isnB);
    if BothInOrder(Exec(w, run)) { InOrderHasNoExcess(Exec(w, run)); }
  }

  /** Prefix delivery: neither side is ever given anything but a prefix of what the other wrote. */
  lemma PrefixDelivery(isnA: U32, isnB: U32, run: Run)
    requires var w := Exec(Connected(isnA, isnB), run); NoWrapIn(w)
    requires RunFits(Connected(isnA, isnB), run)
    ensures var w := Exec(Connected(isnA, isnB), run);
      w.b.read + w.b.sock.rx.readBuffer <= w.a.wrote && w.a.read + w.a.sock.rx.readBuffer <= w.b.wrote
  {
    InOrderIffFits(isnA, isnB, run);
  }

  /** Why the condition is needed: a partly kept segment is kept again when it is retransmitted,
      so its first bytes reach the application twice. */
  lemma PartialDrainDuplicates(rx: Rx, data: seq<Byte>, read: seq<Byte>)
    requires 0 < Free(rx.readBuffer) < |data| <= MAX_BUFFER_SIZE && rx.nextExpectedByte + |data| < TWO_32
    ensures var kept := data[..Free(rx.readBuffer)];
      var (drained, bytes) := ReadChunk(WriteSegment(rx, data), MAX_BUFFER_SIZE);
      var again := WriteSegment(drained, data);
      && again.nextExpectedByte == rx.nextExpectedByte + |data|
      && read + bytes + again.readBuffer == read + rx.readBuffer + kept + data
  {
  }
}
