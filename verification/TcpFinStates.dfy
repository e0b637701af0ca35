/** What sends a FIN and what accepting one does, in every reachable world: when the writer sends its
    own, and the states the peer's leads to, whether it arrives in order or is drained from the heap. */
module TcpFinStates {
  import opened Words
  import opened SegmentHeap
  import opened Sockets
  import opened TcpNetwork
  import opened TcpInvariant
  import opened TcpSenderProofs
  import opened TcpRuns
  import opened TcpClosing

  // ---------- Sending ----------

  // The FIN of an endpoint that has sent all it ever wrote.
  ghost predicate IsFinAfter(e: Endpoint, p: Packet) {
    p.flags == {FIN} && p.data == [] && p.seqNum == e.sock.tx.initSeqNum + 1 + |e.wrote|
  }

  lemma NoFinYet(e: Endpoint, next: int, out: set<Packet>)
    requires SenderFlow(e, next, out) && e.sock.tx.writer.Idle? && e.sock.tx.writeBuffer == []
    ensures forall p | p in out :: FIN !in p.flags
    ensures NextSeqNum(e.sock.tx) == e.sock.tx.initSeqNum + 1 + |e.wrote|
  {
    var v := SentBy(e);
    forall p | p in out ensures FIN !in p.flags { assert PacketOk(v, p); }
    assert |v.wrote[v.sent..]| == 0;
  }

  lemma WriterSendsFin(e: Endpoint, next: int, out: set<Packet>)
    requires SenderFlow(e, next, out) && e.phase == Running
    requires e.sock.tx.writer.Idle? && e.sock.tx.writeBuffer == []
    ensures var (f, o) := Perform(e, WriterStep);
      && f.sock.connState == e.sock.connState && (f.sock.tx.writer.Done? <==> e.sock.connState != ESTABLISHED)
      && ((exists p | p in out + Packets(o) :: IsFinAfter(e, p)) <==> e.sock.connState != ESTABLISHED)
  {
    NoFinYet(e, next, out);
    if e.sock.connState != ESTABLISHED {
      var fin := Segment(e.sock, {FIN}, []);
      assert Perform(e, WriterStep).1 == [fin];
      assert fin in Packets([fin]) && IsFinAfter(e, fin);
    } else {
      assert Perform(e, WriterStep).1 == [];
    }
  }

  /** In every reachable world one step of an idle writer with an empty buffer puts the FIN on its way,
      numbered right after all the application wrote, if and only if the state is not ESTABLISHED. */
  lemma WriterSendsFinIff(isnA: U32, isnB: U32, run: Run, side: Side)
    requires var w := Exec(Connected(isnA, isnB), run); var e := w.End(side);
      NoWrapIn(w) && e.phase == Running && e.sock.tx.writer.Idle? && e.sock.tx.writeBuffer == []
    ensures var w := Exec(Connected(isnA, isnB), run); var e := w.End(side); var x := Step(w, side, WriterStep);
      && (x.End(side).sock.tx.writer.Done? <==> e.sock.connState != ESTABLISHED)
      && ((exists p | p in x.Outbox(side) :: IsFinAfter(e, p)) <==> e.sock.connState != ESTABLISHED)
      && x.End(side).sock.connState == e.sock.connState
  {
    var w := Exec(Connected(isnA, isnB), run);
    ReachableInv(isnA, isnB, run);
    if side == A { WriterSendsFin(w.a, w.b.sock.rx.nextExpectedByte, w.toB); }
    else { WriterSendsFin(w.b, w.a.sock.rx.nextExpectedByte, w.toA); }
  }

  // ---------- Accepting ----------

  /** The state diagram (figure 5 of RFC 9293) for a FIN from the peer. */
  ghost predicate PastFin(from: ConnState, to: ConnState) {
    match from
    case ESTABLISHED => to == CLOSE_WAIT
    case FIN_WAIT_1 => to == CLOSING
    case FIN_WAIT_2 => to == TIME_WAIT
    case _ => to == from
  }

  /** Whatever the peer: a FIN in order moves a socket along the diagram, and one that carries an ACK as
      well takes FIN_WAIT_1 to TIME_WAIT. A FIN out of order never does. */
  lemma FinMoves(s: Sock, p: Packet)
    requires FIN in p.flags
    ensures var to := HandleTCPPacket(s, p).0.connState;
      if Sub32(p.seqNum, s.rx.remoteISN) != s.rx.nextExpectedByte then to == s.connState
      else PastFin(if s.connState == FIN_WAIT_1 && ACK in p.flags then FIN_WAIT_2 else s.connState, to)
  {
  }

  // A FIN that waited on the heap is no longer there.
  ghost predicate FinLeft(before: seq<Entry>, after: seq<Entry>) {
    exists x: Entry :: IsFinItem(x) && multiset(after)[x] < multiset(before)[x]
  }

  lemma {:induction false} DrainPastFin(state: ConnState, rx: Rx)
    requires Ordered(rx.earlyArrivals)
    ensures var (st, r) := Drain(state, rx);
      && multiset(r.earlyArrivals) <= multiset(rx.earlyArrivals)
      && if FinLeft(rx.earlyArrivals, r.earlyArrivals) then PastFin(state, st) else st == state
    decreases |rx.earlyArrivals|
  {
    var h := rx.earlyArrivals;
    if |h| > 0 && rx.nextExpectedByte == h[0].priority {
      var rest := PopEntry(h).1;
      PopCorrect(h);
      if FIN in h[0].packet.flags {
        DrainPastFin(StateAfterEarlyFin(state), rx.(earlyArrivals := rest));
        assert IsFinItem(h[0]) && multiset(rest)[h[0]] < multiset(h)[h[0]];
      } else {
        var next := WriteSegment(rx, h[0].packet.data).(earlyArrivals := rest);
        DrainPastFin(state, next);
        assert forall x: Entry | IsFinItem(x) :: multiset(rest)[x] == multiset(h)[x];
      }
    }
  }

  lemma ParkingKeepsFins(rx: Rx, p: Packet)
    requires Ordered(rx.earlyArrivals)
    ensures !FinLeft(rx.earlyArrivals, ParkEarly(rx, p).earlyArrivals)
  {
    PushCorrect(rx.earlyArrivals, Entry(Sub32(p.seqNum, rx.remoteISN), p));
  }

  lemma TextPastFin(state: ConnState, rx: Rx, p: Packet)
    requires Ordered(rx.earlyArrivals)
    ensures var (st, r) := AcceptText(state, rx, p);
      if FinLeft(rx.earlyArrivals, r.earlyArrivals) then PastFin(state, st) else st == state
  {
    if rx.nextExpectedByte < Sub32(p.seqNum, rx.remoteISN) { ParkingKeepsFins(rx, p); }
    else { DrainPastFin(state, WriteSegment(rx, p.data)); }
  }

  lemma AckPastFin(s: Sock, p: Packet)
    requires Ordered(s.rx.earlyArrivals)
    ensures var t := HandleAck(s, p).0; var state := ProcessAck(s, p.ackNum).connState;
      if FinLeft(s.rx.earlyArrivals, t.rx.earlyArrivals) then PastFin(state, t.connState) else t.connState == state
  {
    AckFrame(s, p.ackNum);
    TextPastFin(ProcessAck(s, p.ackNum).connState, s.rx, p);
  }

  // The step accepts the peer's FIN: as the next segment, or off the heap.
  ghost predicate AcceptsFin(e: Endpoint, ev: Event, f: Endpoint) {
    var rx := e.sock.rx;
    && ev.Deliver?
    && ((FIN in ev.packet.flags && Sub32(ev.packet.seqNum, rx.remoteISN) == rx.nextExpectedByte)
        || FinLeft(rx.earlyArrivals, f.sock.rx.earlyArrivals))
  }

  // An ACK that covers all that a closer sent before its FIN.
  predicate CoversData(s: Sock, p: Packet) {
    && p.flags == {ACK} && s.tx.writer.Done?
    && s.tx.largestAck < p.ackNum <= s.tx.nextSequenceNumber && p.ackNum >= s.tx.initSeqNum + 1 + SentBytes(s.tx)
  }

  // The state that the acknowledgment in a packet leads to.
  function AckedState(s: Sock, p: Packet): ConnState {
    if s.connState == FIN_WAIT_1 && CoversData(s, p) then FIN_WAIT_2
    else if s.connState == LAST_ACK && CoversData(s, p) && s.tx.rtQueue != [] then CLOSED
    else s.connState
  }

  lemma {:induction false} PruneWithoutFin(s: Sock)
    requires forall x | x in s.tx.rtQueue :: !IsFinItem(x)
    ensures Prune(s).connState == s.connState
    decreases |s.tx.rtQueue|
  {
    var q := s.tx.rtQueue;
    if |q| > 0 && End(q[0]) <= s.tx.largestAck {
      assert !IsFinItem(q[0]);
      assert forall x | x in q[1..] :: x in q;
      PruneWithoutFin(DropHead(s));
    }
  }

  lemma {:induction false} PruneOutsideClosing(s: Sock)
    requires s.connState != FIN_WAIT_1 && s.connState != LAST_ACK
    ensures Prune(s).connState == s.connState
    decreases |s.tx.rtQueue|
  {
    var q := s.tx.rtQueue;
    if |q| > 0 && End(q[0]) <= s.tx.largestAck { PruneOutsideClosing(DropHead(s)); }
  }

  lemma AckMoves(s: Sock, v: Sent, out: set<Packet>, p: Packet)
    requires FinTracked(s) && TxOk(s, v, out) && (forall q | q in out :: PacketOk(v, q)) && p.flags == {ACK}
    ensures ProcessAck(s, p.ackNum).connState == AckedState(s, p)
  {
    var t := s.(tx := s.tx.(largestAck := p.ackNum));
    if s.connState != FIN_WAIT_1 && s.connState != LAST_ACK {
      PruneOutsideClosing(t);
    } else if !s.tx.writer.Done? || s.tx.rtQueue == [] {
      PruneWithoutFin(t);
    } else if s.tx.largestAck < p.ackNum <= s.tx.nextSequenceNumber {
      FinalAckIff(s, v, out, p.ackNum);
    }
  }

  /** The whole state diagram of a running endpoint: `f` is `e` after the event. */
  ghost predicate FollowsDiagram(e: Endpoint, ev: Event, f: Endpoint) {
    var from, to := e.sock.connState, f.sock.connState;
    match ev
    case Deliver(p) => if AcceptsFin(e, ev, f) then PastFin(AckedState(e.sock, p), to) else to == AckedState(e.sock, p)
    case AppClose => to == if from == ESTABLISHED then FIN_WAIT_1 else if from == CLOSE_WAIT then LAST_ACK else from
    case _ => to == from
  }

  lemma AckFollowsDiagram(e: Endpoint, v: Sent, out: set<Packet>, p: Packet)
    requires FinTracked(e.sock) && TxOk(e.sock, v, out) && (forall q | q in out :: PacketOk(v, q))
    requires Ordered(e.sock.rx.earlyArrivals) && e.phase == Running && p.flags == {ACK}
    ensures FollowsDiagram(e, Deliver(p), Perform(e, Deliver(p)).0)
  {
    AckMoves(e.sock, v, out, p);
    AckPastFin(e.sock, p);
  }

  lemma NoFinLeft(s: Sock, p: Packet)
    requires Ordered(s.rx.earlyArrivals) && p.flags != {ACK}
    ensures !FinLeft(s.rx.earlyArrivals, HandleTCPPacket(s, p).0.rx.earlyArrivals)
  {
    ParkingKeepsFins(s.rx, p);
    var rx := HandleTCPPacket(s, p).0.rx;
    assert rx == s.rx || rx == ParkEarly(s.rx, p);
  }

  // The peer's FIN carries no ACK.
  lemma FinFollowsDiagram(e: Endpoint, p: Packet)
    requires Ordered(e.sock.rx.earlyArrivals) && e.phase == Running && p.flags != {ACK}
    requires FIN in p.flags ==> p.flags == {FIN}
    ensures FollowsDiagram(e, Deliver(p), Perform(e, Deliver(p)).0)
  {
    NoFinLeft(e.sock, p);
    if FIN in p.flags { FinMoves(e.sock, p); }
    assert Perform(e, Deliver(p)).0.sock == HandleTCPPacket(e.sock, p).0;
  }

  lemma EventFollowsDiagram(e: Endpoint, v: Sent, next: int, out: set<Packet>, inbox: set<Packet>, ev: Event)
    requires FinInv(e) && SenderFlow(e, next, out) && RxOk(v, e.sock.rx, inbox)
    requires forall p | p in inbox :: PacketOk(v, p)
    requires e.phase == Running && Enabled(e, inbox, ev)
    ensures FollowsDiagram(e, ev, Perform(e, ev).0)
  {
    match ev
    case Deliver(p) =>
      assert PacketOk(v, p);
      if p.flags == {ACK} { AckFollowsDiagram(e, SentBy(e), out, p); } else { FinFollowsDiagram(e, p); }
    case _ =>
  }

  /** In every reachable world every event of a running endpoint moves it along the state diagram. The
      peer's FIN, in order or off the heap, takes ESTABLISHED to CLOSE_WAIT, FIN_WAIT_1 to CLOSING (or, if
      the same segment covers the data it sent, to TIME_WAIT) and FIN_WAIT_2 to TIME_WAIT. */
  lemma StateDiagram(isnA: U32, isnB: U32, run: Run, side: Side, ev: Event)
    requires NoWrapIn(Exec(Connected(isnA, isnB), run))
    requires var w := Exec(Connected(isnA, isnB), run); var e := w.End(side);
      e.phase == Running && Enabled(e, w.Inbox(side), ev)
    ensures var w := Exec(Connected(isnA, isnB), run);
      FollowsDiagram(w.End(side), ev, Step(w, side, ev).End(side))
  {
    var w := Exec(Connected(isnA, isnB), run);
    ReachableInv(isnA, isnB, run);
    RunTracksFin(Connected(isnA, isnB), run);
    if side == A {
      EventFollowsDiagram(w.a, SentBy(w.b), w.b.sock.rx.nextExpectedByte, w.toB, w.toA, ev);
    } else {
      EventFollowsDiagram(w.b, SentBy(w.a), w.a.sock.rx.nextExpectedByte, w.toA, w.toB, ev);
    }
  }

  /** The active closer: a step takes it from FIN_WAIT_2 to TIME_WAIT if and only if it accepts the peer's
      FIN, and any other leaves it in FIN_WAIT_2. */
  lemma TimeWaitIff(isnA: U32, isnB: U32, run: Run, side: Side, ev: Event)
    requires NoWrapIn(Exec(Connected(isnA, isnB), run))
    requires var w := Exec(Connected(isnA, isnB), run); var e := w.End(side);
      e.phase == Running && e.sock.connState == FIN_WAIT_2 && Enabled(e, w.Inbox(side), ev)
    ensures var w := Exec(Connected(isnA, isnB), run); var e, f := w.End(side), Step(w, side, ev).End(side);
      f.sock.connState == (if AcceptsFin(e, ev, f) then TIME_WAIT else FIN_WAIT_2)
  {
    StateDiagram(isnA, isnB, run, side, ev);
  }
}
