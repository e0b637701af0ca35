/** No byte is lost for good. From every reachable world, even if the network loses everything that is
    on its way, there is a continuation in which the senders only retransmit and probe, the applications
    only read, and the peer accepts every byte sent so far, whatever is left in its early-arrival heap. */
module TcpProgress {
  import opened Words
  import opened SegmentHeap
  import opened Sockets
  import opened TcpNetwork
  import opened TcpInvariant
  import opened TcpSenderProofs
  import opened TcpReceiverProofs
  import opened TcpRuns
  import opened TcpScenarios

  // ---------- Losing everything ----------

  function LoseAll(w: World): World { w.(toA := {}, toB := {}) }

  // The endpoints of x and y are the same, and x may have lost some packets.
  ghost predicate Loses(x: World, y: World) {
    x.a == y.a && x.b == y.b && x.toA <= y.toA && x.toB <= y.toB
  }

  // What can happen in x can happen in y, to the same effect.
  lemma StepLoses(x: World, y: World, side: Side, ev: Event)
    requires Loses(x, y) && Enabled(x.End(side), x.Inbox(side), ev)
    ensures Enabled(y.End(side), y.Inbox(side), ev) && Loses(Step(x, side, ev), Step(y, side, ev))
  {
  }

  predicate Recovers(ev: Event) { ev.Deliver? || ev.AppRead? || ev.RetransmitTimeout? || ev.ProbeAgain? }

  predicate OnlyRecovers(run: Run) { forall i | 0 <= i < |run| :: Recovers(run[i].1) }

  // A run of recovery leads from x to z.
  ghost predicate RecoversTo(x: World, z: World) { exists run: Run :: OnlyRecovers(run) && Exec(x, run) == z }

  lemma RecoversByNothing(x: World)
    ensures RecoversTo(x, x)
  {
    assert Exec(x, []) == x;
  }

  lemma RecoversByOne(x: World, z: World, side: Side, ev: Event)
    requires RecoversTo(x, z) && Recovers(ev)
    ensures RecoversTo(x, Step(z, side, ev))
  {
    var run: Run :| OnlyRecovers(run) && Exec(x, run) == z;
    Append(x, run, side, ev);
    assert OnlyRecovers(run + [(side, ev)]);
  }

  // ---------- What is known of the world without losses ----------

  ghost predicate SmallItems(e: Endpoint) { forall x | x in e.sock.tx.rtQueue :: |x.packet.data| <= MAX_SEGMENT_SIZE }

  lemma {:induction false} PruneTakesFront(s: Sock)
    ensures forall x | x in Prune(s).tx.rtQueue :: x in s.tx.rtQueue
    ensures |Prune(s).tx.rtQueue| <= |s.tx.rtQueue|
    decreases |s.tx.rtQueue|
  {
    var q := s.tx.rtQueue;
    if |q| > 0 && End(q[0]) <= s.tx.largestAck { PruneTakesFront(DropHead(s)); }
  }

  lemma EventSmallItems(e: Endpoint, ev: Event)
    requires SmallItems(e)
    ensures SmallItems(Perform(e, ev).0)
  {
    if ev.Deliver? {
      AckFrame(e.sock, ev.packet.ackNum);
      PruneTakesFront(e.sock.(tx := e.sock.tx.(largestAck := ev.packet.ackNum)));
    }
  }

  // A socket is removed only in the CLOSED state.
  predicate RemovedWhenClosed(e: Endpoint) { e.sock.isClosed ==> e.sock.connState == CLOSED }

  lemma {:induction false} PruneRemoves(s: Sock)
    ensures Prune(s).isClosed ==> s.isClosed || Prune(s).connState == CLOSED
    decreases |s.tx.rtQueue|
  {
    var q := s.tx.rtQueue;
    if |q| > 0 && End(q[0]) <= s.tx.largestAck { PruneRemoves(DropHead(s)); }
  }

  lemma EventRemoves(e: Endpoint, inbox: set<Packet>, ev: Event)
    requires RemovedWhenClosed(e) && Enabled(e, inbox, ev)
    ensures RemovedWhenClosed(Perform(e, ev).0)
  {
    if ev.Deliver? { PruneRemoves(e.sock.(tx := e.sock.tx.(largestAck := ev.packet.ackNum))); }
  }

  ghost predicate EndSound(e: Endpoint) { SmallItems(e) && RemovedWhenClosed(e) }

  lemma {:induction false} RunEndsSound(w: World, run: Run)
    requires EndSound(w.a) && EndSound(w.b)
    ensures EndSound(Exec(w, run).a) && EndSound(Exec(w, run).b)
    decreases |run|
  {
    if run != [] {
      var (side, ev) := run[0];
      if Enabled(w.End(side), w.Inbox(side), ev) {
        EventSmallItems(w.End(side), ev);
        EventRemoves(w.End(side), w.Inbox(side), ev);
      }
      RunEndsSound(Step(w, side, ev), run[1..]);
    }
  }

  ghost predicate Sound(w: World) {
    && Inv(w) && NoWrapIn(w) && EndSound(w.a) && EndSound(w.b)
    && w.a.phase == Running && w.b.phase == Running
  }

  lemma RecoveryWritesNothing(e: Endpoint, ev: Event)
    requires Recovers(ev) && e.phase == Running
    ensures Perform(e, ev).0.wrote == e.wrote && Perform(e, ev).0.phase == Running
  {
  }

  lemma StepSound(w: World, side: Side, ev: Event)
    requires Sound(w) && Recovers(ev) && Enabled(w.End(side), w.Inbox(side), ev)
    ensures Sound(Step(w, side, ev))
  {
    RecoveryWritesNothing(w.End(side), ev);
    PerformGrows(w.End(side), ev);
    StepKeepsInv(w, side, ev);
    EventRemoves(w.End(side), w.Inbox(side), ev);
    EventSmallItems(w.End(side), ev);
  }

  // x has the endpoints of a sound world, and may have lost packets.
  ghost predicate SoundBut(x: World, y: World) { Loses(x, y) && Sound(y) }

  lemma Go(x: World, y: World, side: Side, ev: Event)
    requires SoundBut(x, y) && Recovers(ev) && Enabled(x.End(side), x.Inbox(side), ev)
    ensures SoundBut(Step(x, side, ev), Step(y, side, ev))
    ensures var (e, o) := Perform(x.End(side), ev); Took(x, Step(x, side, ev), side, e, Packets(o))
  {
    StepLoses(x, y, side, ev);
    StepSound(y, side, ev);
    StepTaken(x, side, ev);
  }

  // ---------- What is missing is held by the sender ----------

  function Next(w: World, side: Side): int { w.End(Other(side)).sock.rx.nextExpectedByte }

  predicate AllArrived(w: World, side: Side) { Next(w, side) == SentBytes(w.End(side).sock.tx) + 1 }

  // A segment of e's stream that r can accept, at once or before: it starts no later than expected.
  ghost predicate Acceptable(v: Sent, next: int, r: Endpoint, p: Packet) {
    && IsDataSegment(v, p) && p.seqNum - v.isn <= next && |p.data| <= MAX_SEGMENT_SIZE
    && p.ackNum <= r.sock.tx.nextSequenceNumber
  }

  lemma OldAckNotTooHigh(w: World, side: Side, p: Packet)
    requires Inv(w) && p in w.Outbox(side) && p.flags == {ACK}
    ensures p.ackNum <= w.End(Other(side)).sock.tx.nextSequenceNumber
  {
    var r := w.End(Other(side));
    assert AckOk(SentBy(r), w.End(side).sock.rx.nextExpectedByte, p.ackNum);
  }

  // While something is missing neither side is past the sender's FIN.
  lemma BothStillOpen(w: World, side: Side)
    requires Sound(w) && !AllArrived(w, side)
    ensures !HasSeenFin(w.End(Other(side)).sock.connState) && !w.End(Other(side)).sock.isClosed
    ensures w.End(side).sock.connState != CLOSED && !w.End(side).sock.isClosed
    ensures 1 <= Next(w, side) <= SentBytes(w.End(side).sock.tx)
  {
  }

  // What is acknowledged has been accepted.
  lemma UnackedReached(e: Endpoint, next: int, out: set<Packet>)
    requires SenderFlow(e, next, out) && 1 <= next <= SentBytes(e.sock.tx)
    ensures Unacked(e.sock.tx) <= e.sock.tx.initSeqNum + next
  {
  }

  lemma HeadIsText(e: Endpoint, next: int, out: set<Packet>)
    requires SenderFlow(e, next, out) && e.sock.connState != CLOSED && 1 <= next <= SentBytes(e.sock.tx)
    requires e.sock.tx.rtQueue != []
    ensures var p := e.sock.tx.rtQueue[0].packet;
      IsDataSegment(SentBy(e), p) && p in out && p.seqNum == Unacked(e.sock.tx) <= e.sock.tx.initSeqNum + next
  {
    var v, item := SentBy(e), e.sock.tx.rtQueue[0];
    UnackedReached(e, next, out);
    assert QueueItemOk(out, item) && PacketOk(v, item.packet);
  }

  lemma ProbeIsNext(e: Endpoint, next: int, out: set<Packet>)
    requires SenderFlow(e, next, out) && 1 <= next <= SentBytes(e.sock.tx) && e.sock.tx.rtQueue == []
    ensures e.sock.tx.writer.Probing?
    ensures var p := e.sock.tx.writer.probe;
      IsDataSegment(SentBy(e), p) && p in out && |p.data| == 1 && p.seqNum == e.sock.tx.initSeqNum + next
      && next == SentBytes(e.sock.tx)
  {
    UnackedReached(e, next, out);
    assert QueueEnd(e.sock.tx) <= Unacked(e.sock.tx);
    assert e.sock.tx.writer.Probing?;
    assert PacketOk(SentBy(e), e.sock.tx.writer.probe);
  }

  // What the sender would send next to recover: the head of its queue, or the probe.
  function Again(tx: Tx): Packet
    requires tx.rtQueue != [] || tx.writer.Probing?
  {
    if tx.rtQueue != [] then tx.rtQueue[0].packet else tx.writer.probe
  }

  function Retry(tx: Tx): Event { if tx.rtQueue != [] then RetransmitTimeout else ProbeAgain }

  // While e's peer r still waits for `next`, e holds a segment that r can accept.
  ghost predicate Holds(e: Endpoint, next: int, r: Endpoint, out: set<Packet>) {
    var tx := e.sock.tx;
    && (tx.rtQueue != [] || tx.writer.Probing?)
    && Again(tx) in out && Acceptable(SentBy(e), next, r, Again(tx))
    && (tx.rtQueue == [] ==> Again(tx).seqNum == tx.initSeqNum + SentBytes(tx))
  }

  lemma MissingHeldBy(e: Endpoint, next: int, r: Endpoint, out: set<Packet>)
    requires SenderFlow(e, next, out) && SmallItems(e) && e.sock.connState != CLOSED
    requires 1 <= next <= SentBytes(e.sock.tx)
    requires forall p | p in out && p.flags == {ACK} :: p.ackNum <= r.sock.tx.nextSequenceNumber
    ensures Holds(e, next, r, out)
  {
    if e.sock.tx.rtQueue != [] {
      HeadIsText(e, next, out);
      assert e.sock.tx.rtQueue[0] in e.sock.tx.rtQueue;
    } else {
      ProbeIsNext(e, next, out);
    }
  }

  lemma MissingIsHeld(w: World, side: Side)
    requires Sound(w) && !AllArrived(w, side)
    ensures Holds(w.End(side), Next(w, side), w.End(Other(side)), w.Outbox(side))
  {
    BothStillOpen(w, side);
    forall p | p in w.Outbox(side) && p.flags == {ACK}
      ensures p.ackNum <= w.End(Other(side)).sock.tx.nextSequenceNumber
    {
      OldAckNotTooHigh(w, side, p);
    }
    if side == A { MissingHeldBy(w.a, Next(w, A), w.b, w.toB); } else { MissingHeldBy(w.b, Next(w, B), w.a, w.toA); }
  }

  // ---------- The peer accepts it ----------

  lemma TextTaken(v: Sent, out: set<Packet>, state: ConnState, rx: Rx, p: Packet)
    requires SentOk(v) && (forall q | q in out :: PacketOk(v, q)) && RxOk(v, rx, out) && p in out
    requires IsDataSegment(v, p) && p.seqNum - v.isn <= rx.nextExpectedByte && |p.data| <= Free(rx.readBuffer)
    requires !HasSeenFin(state)
    ensures var r := AcceptText(state, rx, p).1; RxOk(v, r, out) && p.seqNum - v.isn + |p.data| <= r.nextExpectedByte
  {
    AcceptTextOk(v, out, state, rx, p);
    if p.seqNum - v.isn == rx.nextExpectedByte {
      WriteSegmentOk(v, rx, out, p);
      DrainOk(v, out, state, WriteSegment(rx, p.data));
    } else {
      assert rx.nextExpectedByte - 1 in v.cuts;
    }
  }

  // The answer: a pure ACK of everything accepted by then.
  ghost predicate Answers(v: Sent, r: Endpoint, o: seq<Packet>) {
    |o| == 1 && PureAck(o[0]) && o[0].ackNum == v.isn + r.sock.rx.nextExpectedByte
  }

  lemma PacketTaken(v: Sent, r: Endpoint, inbox: set<Packet>, p: Packet)
    requires SentOk(v) && (forall q | q in inbox :: PacketOk(v, q)) && RxOk(v, r.sock.rx, inbox) && p in inbox
    requires Acceptable(v, r.sock.rx.nextExpectedByte, r, p) && r.sock.rx.readBuffer == []
    requires r.phase == Running && !r.sock.isClosed && !HasSeenFin(r.sock.connState)
    ensures var (f, o) := Perform(r, Deliver(p));
      Answers(v, f, o) && p.seqNum - v.isn + |p.data| <= f.sock.rx.nextExpectedByte
  {
    AckFrame(r.sock, p.ackNum);
    TextTaken(v, inbox, ProcessAck(r.sock, p.ackNum).connState, r.sock.rx, p);
  }

  // ---------- The sender handles the answer ----------

  lemma AckPops(s: Sock, p: Packet)
    requires PureAck(p) && s.tx.largestAck < p.ackNum <= s.tx.nextSequenceNumber
    requires s.tx.rtQueue != [] && FIN !in s.tx.rtQueue[0].packet.flags && End(s.tx.rtQueue[0]) <= p.ackNum
    ensures |HandleAck(s, p).0.tx.rtQueue| < |s.tx.rtQueue|
  {
    var t := s.(tx := s.tx.(largestAck := p.ackNum));
    assert Prune(t) == Prune(DropHead(t));
    PruneTakesFront(DropHead(t));
  }

  lemma AnswerIsNew(e: Endpoint, next: int, out: set<Packet>, p: Packet)
    requires SenderFlow(e, next, out) && e.sock.connState != CLOSED && AckOk(SentBy(e), next, p.ackNum)
    requires e.sock.tx.rtQueue != [] && IsDataSegment(SentBy(e), e.sock.tx.rtQueue[0].packet)
    requires End(e.sock.tx.rtQueue[0]) <= p.ackNum
    ensures e.sock.tx.largestAck < p.ackNum <= e.sock.tx.nextSequenceNumber
  {
    assert QueueItemOk(out, e.sock.tx.rtQueue[0]);
  }

  lemma AnswerShortens(e: Endpoint, next: int, out: set<Packet>, p: Packet)
    requires SenderFlow(e, next, out) && e.phase == Running && e.sock.connState != CLOSED
    requires PureAck(p) && AckOk(SentBy(e), next, p.ackNum)
    requires e.sock.tx.rtQueue != [] && IsDataSegment(SentBy(e), e.sock.tx.rtQueue[0].packet)
    requires End(e.sock.tx.rtQueue[0]) <= p.ackNum
    ensures var f := Perform(e, Deliver(p)).0;
      |f.sock.tx.rtQueue| < |e.sock.tx.rtQueue| && SentBytes(f.sock.tx) == SentBytes(e.sock.tx)
  {
    AnswerIsNew(e, next, out, p);
    AckPops(e.sock, p);
    SentStaysSame(e, p);
  }

  lemma SentStaysSame(e: Endpoint, p: Packet)
    requires PureAck(p) && e.sock.tx.zwpMode == e.sock.tx.writer.Probing?
    ensures SentBytes(HandleAck(e.sock, p).0.tx) == SentBytes(e.sock.tx)
  {
    AckFrame(e.sock, p.ackNum);
  }

  // ---------- One round ----------

  // The peer's application reads all there is.
  lemma MakeRoom(x: World, y: World, side: Side)
    requires SoundBut(x, y)
    ensures var ev := AppRead(65535); var z := Step(x, Other(side), ev);
      && SoundBut(z, Step(y, Other(side), ev)) && z.End(side) == x.End(side)
      && z.End(Other(side)).sock.rx.readBuffer == []
      && (AllArrived(Step(y, Other(side), ev), side) <==> AllArrived(y, side))
  {
    Go(x, y, Other(side), AppRead(65535));
    ReadBufferBounded(y, side);
  }

  lemma ReadBufferBounded(w: World, side: Side)
    requires Inv(w)
    ensures |w.End(Other(side)).sock.rx.readBuffer| <= 65535
  {
  }

  // The sender sends its oldest segment again.
  lemma TryAgain(x: World, y: World, side: Side)
    requires SoundBut(x, y) && !AllArrived(y, side)
    ensures var e := x.End(side); var ev := Retry(e.sock.tx); var z := Step(x, side, ev);
      && SoundBut(z, Step(y, side, ev)) && z.End(side) == e && z.End(Other(side)) == x.End(Other(side))
      && Holds(e, Next(x, side), x.End(Other(side)), z.Outbox(side))
  {
    MissingIsHeld(y, side);
    Go(x, y, side, Retry(x.End(side).sock.tx));
  }

  // It has arrived, and the acknowledgment of all the peer has accepted is on its way.
  ghost predicate Acknowledged(z: World, side: Side, p: Packet) {
    && p.seqNum + |p.data| <= z.End(side).sock.tx.initSeqNum + Next(z, side)
    && exists a | a in z.Inbox(side) :: PureAck(a) && a.ackNum == z.End(side).sock.tx.initSeqNum + Next(z, side)
  }

  lemma TakeIt(x: World, y: World, side: Side, p: Packet)
    requires SoundBut(x, y) && !AllArrived(y, side) && p in x.Outbox(side)
    requires x.End(Other(side)).sock.rx.readBuffer == []
    requires Acceptable(SentBy(x.End(side)), Next(x, side), x.End(Other(side)), p)
    ensures var ev := Deliver(p); var z := Step(x, Other(side), ev);
      && SoundBut(z, Step(y, Other(side), ev)) && z.End(side) == x.End(side) && Acknowledged(z, side, p)
  {
    PeerTakes(y, side, p);
    Go(x, y, Other(side), Deliver(p));
    AnswerOnItsWay(x, Step(x, Other(side), Deliver(p)), side, p);
  }

  lemma AnswerOnItsWay(x: World, z: World, side: Side, p: Packet)
    requires var (f, o) := Perform(x.End(Other(side)), Deliver(p));
      && Took(x, z, Other(side), f, Packets(o)) && Answers(SentBy(x.End(side)), f, o)
      && p.seqNum - x.End(side).sock.tx.initSeqNum + |p.data| <= f.sock.rx.nextExpectedByte
    ensures z.End(side) == x.End(side) && Acknowledged(z, side, p)
  {
    var o := Perform(x.End(Other(side)), Deliver(p)).1;
    assert o[0] in Packets(o) && Packets(o) <= z.Inbox(side);
  }

  lemma PeerTakes(w: World, side: Side, p: Packet)
    requires Sound(w) && !AllArrived(w, side) && p in w.Outbox(side) && w.End(Other(side)).sock.rx.readBuffer == []
    requires Acceptable(SentBy(w.End(side)), Next(w, side), w.End(Other(side)), p)
    ensures var r, v := w.End(Other(side)), SentBy(w.End(side)); var (f, o) := Perform(r, Deliver(p));
      && r.phase == Running && !r.sock.isClosed
      && Answers(v, f, o) && p.seqNum - v.isn + |p.data| <= f.sock.rx.nextExpectedByte
  {
    BothStillOpen(w, side);
    PeerIsReceiving(w, side);
    PacketTaken(SentBy(w.End(side)), w.End(Other(side)), w.Outbox(side), p);
  }

  lemma PeerIsReceiving(w: World, side: Side)
    requires Inv(w)
    ensures var v := SentBy(w.End(side)); var rx := w.End(Other(side)).sock.rx;
      SentOk(v) && (forall q | q in w.Outbox(side) :: PacketOk(v, q)) && RxOk(v, rx, w.Outbox(side))
  {
  }

  // What the sender held is acknowledged; with an empty queue that was its last byte.
  ghost predicate RetryArrived(z: World, side: Side, tx: Tx) {
    && (tx.rtQueue != [] || tx.writer.Probing?) && Acknowledged(z, side, Again(tx))
    && (tx.rtQueue == [] ==> tx.initSeqNum + SentBytes(tx) < Again(tx).seqNum + |Again(tx).data|)
  }

  lemma RetryAndTake(x: World, y: World, side: Side)
    requires SoundBut(x, y) && !AllArrived(y, side) && x.End(Other(side)).sock.rx.readBuffer == []
    ensures var tx := x.End(side).sock.tx; tx.rtQueue != [] || tx.writer.Probing?
    ensures var tx := x.End(side).sock.tx; var again := Deliver(Again(tx));
      var z := Step(Step(x, side, Retry(tx)), Other(side), again);
      && SoundBut(z, Step(Step(y, side, Retry(tx)), Other(side), again)) && z.End(side) == x.End(side)
      && RetryArrived(z, side, tx)
  {
    TryAgain(x, y, side);
    var tx := x.End(side).sock.tx;
    TakeIt(Step(x, side, Retry(tx)), Step(y, side, Retry(tx)), side, Again(tx));
  }

  // The application reads, the sender sends its oldest segment again, and the peer takes it.
  lemma SendAgain(w: World, x: World, y: World, side: Side) returns (z: World, y': World)
    requires RecoversTo(w, x) && SoundBut(x, y) && !AllArrived(y, side)
    ensures RecoversTo(w, z) && SoundBut(z, y') && z.End(side) == x.End(side)
    ensures RetryArrived(z, side, x.End(side).sock.tx)
  {
    var other, tx := Other(side), x.End(side).sock.tx;
    MakeRoom(x, y, side);
    RecoversByOne(w, x, other, AppRead(65535));
    z, y' := Step(x, other, AppRead(65535)), Step(y, other, AppRead(65535));
    RetryAndTake(z, y', side);
    RecoversByOne(w, z, side, Retry(tx));
    RecoversByOne(w, Step(z, side, Retry(tx)), other, Deliver(Again(tx)));
    z, y' := Step(Step(z, side, Retry(tx)), other, Deliver(Again(tx))),
             Step(Step(y', side, Retry(tx)), other, Deliver(Again(tx)));
  }

  // Handling the answer takes at least the head off the queue.
  lemma TakeAnswer(x: World, y: World, side: Side, p: Packet)
    requires SoundBut(x, y) && !AllArrived(y, side) && p in x.Inbox(side) && PureAck(p)
    requires var tx := x.End(side).sock.tx; tx.rtQueue != [] && End(tx.rtQueue[0]) <= p.ackNum
    ensures var ev := Deliver(p); var z := Step(x, side, ev); var tx := x.End(side).sock.tx;
      && SoundBut(z, Step(y, side, ev)) && |z.End(side).sock.tx.rtQueue| < |tx.rtQueue|
      && SentBytes(z.End(side).sock.tx) == SentBytes(tx) && Next(z, side) == Next(x, side)
  {
    BothStillOpen(y, side);
    HeadIsText(y.End(side), Next(y, side), y.Outbox(side));
    assert AckOk(SentBy(y.End(side)), Next(y, side), p.ackNum);
    AnswerShortens(y.End(side), Next(y, side), y.Outbox(side), p);
    Go(x, y, side, Deliver(p));
  }

  // The answer to what was sent again is handled.
  lemma AnswerHandled(x: World, y: World, side: Side) returns (a: Packet)
    requires SoundBut(x, y) && !AllArrived(y, side) && RetryArrived(x, side, x.End(side).sock.tx)
    ensures var ev := Deliver(a); var z := Step(x, side, ev); var tx := x.End(side).sock.tx;
      && SoundBut(z, Step(y, side, ev)) && |z.End(side).sock.tx.rtQueue| < |tx.rtQueue|
      && SentBytes(z.End(side).sock.tx) == SentBytes(tx)
  {
    var tx := x.End(side).sock.tx;
    BothStillOpen(y, side);
    assert tx.rtQueue != [];
    HeadStart(y, side);
    a :| a in x.Inbox(side) && PureAck(a) && a.ackNum == tx.initSeqNum + Next(x, side);
    TakeAnswer(x, y, side, a);
  }

  // A whole round: either everything has arrived, or the queue is shorter.
  lemma Round(w: World, x: World, y: World, side: Side) returns (z: World, y': World)
    requires RecoversTo(w, x) && SoundBut(x, y) && !AllArrived(y, side)
    ensures RecoversTo(w, z) && SoundBut(z, y')
    ensures var tx, before := z.End(side).sock.tx, x.End(side).sock.tx;
      SentBytes(tx) == SentBytes(before) && (AllArrived(y', side) || |tx.rtQueue| < |before.rtQueue|)
  {
    z, y' := SendAgain(w, x, y, side);
    if !AllArrived(y', side) {
      var a := AnswerHandled(z, y', side);
      RecoversByOne(w, z, side, Deliver(a));
      z, y' := Step(z, side, Deliver(a)), Step(y', side, Deliver(a));
    }
  }

  lemma HeadStart(w: World, side: Side)
    requires Inv(w) && w.End(side).sock.tx.rtQueue != []
    ensures var item := w.End(side).sock.tx.rtQueue[0]; item.priority == item.packet.seqNum
  {
    assert QueueItemOk(w.Outbox(side), w.End(side).sock.tx.rtQueue[0]);
  }

  lemma {:induction false} Recover(w: World, x: World, y: World, side: Side) returns (z: World)
    requires RecoversTo(w, x) && SoundBut(x, y)
    ensures RecoversTo(w, z) && AllArrived(z, side)
    ensures SentBytes(z.End(side).sock.tx) == SentBytes(x.End(side).sock.tx)
    decreases |x.End(side).sock.tx.rtQueue|
  {
    z := x;
    if !AllArrived(y, side) {
      var y1;
      z, y1 := Round(w, x, y, side);
      if !AllArrived(y1, side) { z := Recover(w, z, y1, side); }
    }
  }

  lemma ReachableSound(isnA: U32, isnB: U32, run: Run)
    requires var w := Exec(Connected(isnA, isnB), run);
      NoWrapIn(w) && w.a.phase == Running && w.b.phase == Running
    ensures Sound(Exec(Connected(isnA, isnB), run))
  {
    ReachableInv(isnA, isnB, run);
    RunEndsSound(Connected(isnA, isnB), run);
  }

  /** From every reachable world after the handshake, with everything on its way lost, there is a
      continuation of retransmissions, probes, deliveries of what is sent again, and reads, after which
      the peer has accepted every byte that either side had sent. */
  lemma SentCanStillArrive(isnA: U32, isnB: U32, run: Run, side: Side) returns (more: Run)
    requires var w := Exec(Connected(isnA, isnB), run);
      NoWrapIn(w) && w.a.phase == Running && w.b.phase == Running
    ensures var w := Exec(Connected(isnA, isnB), run); var z := Exec(LoseAll(w), more);
      && OnlyRecovers(more)
      && z.End(Other(side)).sock.rx.nextExpectedByte - 1 == SentBytes(w.End(side).sock.tx)
  {
    ReachableSound(isnA, isnB, run);
    var w := Exec(Connected(isnA, isnB), run);
    RecoversByNothing(LoseAll(w));
    var z := Recover(LoseAll(w), LoseAll(w), w, side);
    more :| OnlyRecovers(more) && Exec(LoseAll(w), more) == z;
  }
}
