/** What the invariant promises about every reachable world. `snd` is either endpoint and
    `rcv` its peer; the theorems hold in both directions. */
module TcpTheorems {
  import opened Words
  import opened SegmentHeap
  import opened Sockets
  import opened TcpNetwork
  import opened TcpInvariant
  import opened TcpSenderProofs
  import opened TcpRuns
  import opened TcpDelivery

  ghost predicate Reachable(w: World) {
    NoWrapIn(w) && exists isnA: U32, isnB: U32, run: Run :: w == Exec(Connected(isnA, isnB), run)
  }

  lemma ReachableFlow(w: World, side: Side)
    requires Reachable(w)
    ensures Flow(w.End(side), w.End(Other(side)), w.Outbox(side), w.Inbox(side))
  {
    var isnA: U32, isnB: U32, run: Run :| w == Exec(Connected(isnA, isnB), run);
    ReachableInv(isnA, isnB, run);
  }

  lemma ReachableSender(w: World, side: Side)
    requires Reachable(w)
    ensures SenderFlow(w.End(side), w.End(Other(side)).sock.rx.nextExpectedByte, w.Outbox(side))
  {
    ReachableFlow(w, side);
  }

  // ---------- No byte is lost ----------

  // Stream offset i lies in a queued segment.
  predicate InQueue(tx: Tx, i: int) {
    exists e | e in tx.rtQueue :: e.priority <= tx.initSeqNum + 1 + i < End(e)
  }

  predicate IsProbeByte(tx: Tx, i: int) { tx.writer.Probing? && tx.zwpSeq == tx.initSeqNum + 1 + i }

  // Stream offset i was taken out of the write buffer but its segment has not been sent yet.
  predicate InPayload(e: Endpoint, i: int) {
    SentBytes(e.sock.tx) <= i < SentBytes(e.sock.tx) + |Payload(e.sock.tx.writer)|
  }

  lemma {:induction false} ChainCovers(q: seq<Entry>, from: int, to: int, at: int)
    requires Chain(q, from, to) && from <= at < to
    ensures exists e | e in q :: e.priority <= at < End(e)
    decreases |q|
  {
    if at < End(q[0]) {
      assert q[0] in q;
    } else {
      ChainCovers(q[1..], End(q[0]), to, at);
      var e :| e in q[1..] && e.priority <= at < End(e);
      assert e in q;
    }
  }

  /** Every byte taken from the write buffer has been accepted by the peer, or is still held
      by the sender in its retransmission queue, as its probe, or in the burst being cut. */
  lemma NoByteLost(w: World, side: Side, i: int)
    requires Reachable(w)
    requires var e := w.End(side); 0 <= i < |e.wrote| - |e.sock.tx.writeBuffer|
    ensures var e := w.End(side);
      || i < w.End(Other(side)).sock.rx.nextExpectedByte - 1
      || InQueue(e.sock.tx, i) || IsProbeByte(e.sock.tx, i) || InPayload(e, i)
  {
    ReachableSender(w, side);
    var e := w.End(side);
    var tx := e.sock.tx;
    var v := SentBy(e);
    assert |v.wrote[v.sent..]| == |Payload(tx.writer)| + |tx.writeBuffer|;
    var at := v.isn + 1 + i;
    if i < v.sent && at >= Unacked(tx) && !IsProbeByte(tx, i) {
      assert at < QueueEnd(tx);
      assert tx.rtQueue != [];
      ChainCovers(tx.rtQueue, tx.rtQueue[0].priority, QueueEnd(tx), at);
    }
  }

  /** LargestAck never passes what the peer has accepted, plus one once it has seen the FIN. */
  lemma LargestAckBound(w: World, side: Side)
    requires Reachable(w)
    ensures var tx := w.End(side).sock.tx; var next := w.End(Other(side)).sock.rx.nextExpectedByte;
      tx.largestAck <= tx.initSeqNum + next + (if Complete(SentBy(w.End(side)), next) then 1 else 0)
  {
    ReachableSender(w, side);
  }

  // ---------- The retransmission queue ----------

  /** Sequence numbers follow the bytes sent, the queue is one unbroken run that ends where the
      next segment (or the probe) starts, and it starts at the first unacknowledged number. */
  lemma QueueIsUnackedRun(w: World, side: Side)
    requires Reachable(w)
    ensures var s := w.End(side).sock; var q := s.tx.rtQueue;
      && s.tx.nextSequenceNumber == s.tx.initSeqNum + 1 + s.tx.numberBytesSent
      && (q != [] ==> Chain(q, q[0].priority, QueueEnd(s.tx)))
      && (q != [] && s.connState != CLOSED && s.tx.largestAck != 0 ==> q[0].priority == s.tx.largestAck)
      && (q == [] && s.tx.largestAck != 0 ==> QueueEnd(s.tx) <= s.tx.largestAck)
  {
    ReachableSender(w, side);
  }

  // p, sent by e, starts at its first unacknowledged number and carries the stream's own bytes.
  ghost predicate EarliestUnacked(e: Endpoint, out: set<Packet>, p: Packet) {
    var from := p.seqNum - e.sock.tx.initSeqNum - 1;
    && p.seqNum == Unacked(e.sock.tx) && p in out
    && (p.data != [] ==> 0 <= from && from + |p.data| <= |e.wrote| && p.data == e.wrote[from..from + |p.data|])
  }

  lemma HeadOfStream(e: Endpoint, next: int, out: set<Packet>)
    requires SenderFlow(e, next, out) && e.sock.tx.rtQueue != [] && e.sock.connState != CLOSED
    ensures EarliestUnacked(e, out, e.sock.tx.rtQueue[0].packet)
  {
    assert QueueItemOk(out, e.sock.tx.rtQueue[0]);
    assert PacketOk(SentBy(e), e.sock.tx.rtQueue[0].packet);
  }

  /** HandleRT sends one packet, the first segment of the stream that is not acknowledged. */
  lemma RetransmitsEarliest(w: World, side: Side)
    requires Reachable(w) && w.End(side).sock.connState != CLOSED && w.End(side).sock.tx.rtQueue != []
    ensures var out := RetransmitHead(w.End(side).sock);
      |out| == 1 && EarliestUnacked(w.End(side), w.Outbox(side), out[0])
  {
    ReachableSender(w, side);
    HeadOfStream(w.End(side), w.End(Other(side)).sock.rx.nextExpectedByte, w.Outbox(side));
  }

  // The number of items pruning takes off.
  function Pruned(s: Sock): int { |s.tx.rtQueue| - |Prune(s).tx.rtQueue| }

  lemma FrontGrows(q: seq<Entry>, m: nat, bound: int)
    requires 0 < |q| && m <= |q[1..]| && End(q[0]) <= bound && forall i | 0 <= i < m :: End(q[1..][i]) <= bound
    ensures (forall i | 0 <= i < m + 1 :: End(q[i]) <= bound) && q[m + 1..] == q[1..][m..]
    ensures m < |q[1..]| ==> q[1..][m] == q[m + 1]
  {
    forall i | 0 <= i < m + 1 ensures End(q[i]) <= bound {
      if i > 0 { assert q[i] == q[1..][i - 1]; }
    }
  }

  /** Pruning removes exactly the items at the front that are entirely acknowledged; only the
      LAST_ACK exit leaves one, the FIN it stops at. */
  lemma {:induction false} PruneExact(s: Sock)
    ensures var m := Pruned(s); var q := s.tx.rtQueue;
      && 0 <= m <= |q| && Prune(s).tx.rtQueue == q[m..]
      && (forall i | 0 <= i < m :: End(q[i]) <= s.tx.largestAck)
      && (m < |q| ==> End(q[m]) > s.tx.largestAck || (Prune(s).connState == CLOSED && FIN in q[m].packet.flags))
    decreases |s.tx.rtQueue|
  {
    var q := s.tx.rtQueue;
    if |q| > 0 && End(q[0]) <= s.tx.largestAck {
      if !(FIN in q[0].packet.flags && s.connState == LAST_ACK) {
        var t := DropHead(s);
        PruneExact(t);
        var m := Pruned(t);
        assert Prune(s) == Prune(t) && Pruned(s) == m + 1;
        FrontGrows(q, m, s.tx.largestAck);
      }
    }
  }

  // ---------- Bytes in flight ----------

  /** BytesInFlight is, modulo 2^16, the data queued plus the outstanding probe. */
  lemma InFlightConserved(w: World, side: Side)
    requires Reachable(w)
    ensures var tx := w.End(side).sock.tx;
      && tx.bytesInFlight == (DataInQueue(tx.rtQueue) + (if tx.zwpMode then 1 else 0)) % TWO_16
      && (tx.rtQueue != [] && tx.largestAck != 0 && w.End(side).sock.connState != CLOSED ==>
            DataInQueue(tx.rtQueue) == QueueEnd(tx) - tx.largestAck)
  {
    ReachableSender(w, side);
    QueueIsUnackedRun(w, side);
    var tx := w.End(side).sock.tx;
    assert TxCore(w.End(side).sock, SentBy(w.End(side)), w.Outbox(side));
    if tx.rtQueue != [] { ChainGrows(tx.rtQueue, tx.rtQueue[0].priority, QueueEnd(tx)); }
  }

  // ---------- Zero-window probing ----------

  ghost predicate CleanAfterProbing(tx: Tx) {
    && tx.rtQueue == [] && tx.bytesInFlight == 0 && tx.remoteWindowSize > 0
    && tx.zwpSeq < tx.largestAck == tx.nextSequenceNumber && tx.writer == Idle
  }

  lemma UpdateEndsProbing(s: Sock, v: Sent, out: set<Packet>, next: int, p: Packet)
    requires SentOk(v) && next <= v.sent + 1 && TxOk(s, v, out) && !s.isClosed
    requires s.tx.largestAck == 0 || AckOk(v, next, s.tx.largestAck)
    requires s.tx.zwpMode && !UpdateWindow(s.tx, s.rx.remoteISN, p).zwpMode
    ensures CleanAfterProbing(UpdateWindow(s.tx, s.rx.remoteISN, p))
  {
    var t := s.tx.(remoteWindowSize := p.window,
                   lastSegmentSequenceNumber := Sub32(p.seqNum, s.rx.remoteISN), lastSegmentAckNumber := p.ackNum);
    assert TxOk(s.(tx := t), v, out);
    LeavingProbeMode(s.(tx := t), v, out, next);
  }

  lemma AckEndsProbing(s: Sock, v: Sent, out: set<Packet>, next: int, p: Packet)
    requires SentOk(v) && next <= v.sent + 1 && (forall q | q in out :: PacketOk(v, q))
    requires SockOk(s, v, next, out) && !s.isClosed && AckOk(v, next, p.ackNum)
    requires s.tx.zwpMode && !HandleAck(s, p).0.tx.zwpMode
    ensures CleanAfterProbing(HandleAck(s, p).0.tx)
  {
    ProcessAckOk(s, v, out, next, p.ackNum);
    AckFrame(s, p.ackNum);
    UpdateEndsProbing(ProcessAck(s, p.ackNum), v, out, next, p);
  }

  lemma ReachablePeerAck(w: World, side: Side, p: Packet)
    requires Reachable(w) && p in w.Inbox(side)
    ensures p.flags == {ACK} ==> AckOk(SentBy(w.End(side)), w.End(Other(side)).sock.rx.nextExpectedByte, p.ackNum)
  {
    ReachableFlow(w, side);
  }

  lemma PacketEndsProbing(e: Endpoint, next: int, out: set<Packet>, p: Packet)
    requires SenderFlow(e, next, out) && (p.flags == {ACK} ==> AckOk(SentBy(e), next, p.ackNum))
    requires !e.sock.isClosed && e.sock.tx.zwpMode && !HandleTCPPacket(e.sock, p).0.tx.zwpMode
    ensures CleanAfterProbing(HandleTCPPacket(e.sock, p).0.tx)
  {
    AckEndsProbing(e.sock, SentBy(e), out, next, p);
  }

  lemma BurstFollows(s: Sock)
    requires CleanAfterProbing(s.tx)
    ensures forall data: seq<Byte> | data != [] ::
      StartIteration(s.(tx := s.tx.(writeBuffer := data))).0.tx.writer.Sending?
  {
  }

  /** If handling a segment ends probe mode, everything sent is acknowledged, nothing is in
      flight and the window is open, so the next iteration with data starts a burst. */
  lemma ProbingEndsClean(w: World, side: Side, p: Packet)
    requires Reachable(w) && p in w.Inbox(side) && !w.End(side).sock.isClosed
    requires w.End(side).sock.tx.zwpMode && !HandleTCPPacket(w.End(side).sock, p).0.tx.zwpMode
    ensures var s := HandleTCPPacket(w.End(side).sock, p).0;
      && CleanAfterProbing(s.tx)
      && (forall data: seq<Byte> | data != [] ::
            StartIteration(s.(tx := s.tx.(writeBuffer := data))).0.tx.writer.Sending?)
  {
    ReachableSender(w, side);
    ReachablePeerAck(w, side, p);
    PacketEndsProbing(w.End(side), w.End(Other(side)).sock.rx.nextExpectedByte, w.Outbox(side), p);
    BurstFollows(HandleTCPPacket(w.End(side).sock, p).0);
  }

  // ---------- Closing ----------

  /** A side that has entered CLOSE_WAIT, or any state past the peer's FIN, has accepted every
      byte the peer sent before its FIN. */
  lemma CompleteAtCloseWait(w: World, side: Side)
    requires Reachable(w) && HasSeenFin(w.End(Other(side)).sock.connState)
    ensures var e := w.End(side);
      && e.sock.tx.writer.Done?
      && w.End(Other(side)).sock.rx.nextExpectedByte - 1 == SentBytes(e.sock.tx) == |e.wrote| - |e.sock.tx.writeBuffer|
  {
    ReachableFlow(w, side);
    var v := SentBy(w.End(side));
    assert |v.wrote[v.sent..]| == |w.End(side).sock.tx.writeBuffer|;
  }

  /** A closer in FIN_WAIT_2, TIME_WAIT or CLOSED has had all its data accepted. */
  lemma CompleteAtFinWait2(w: World, side: Side)
    requires Reachable(w) && BelievesFinAcked(w.End(side).sock.connState)
    ensures var e := w.End(side);
      && e.sock.tx.writer.Done?
      && w.End(Other(side)).sock.rx.nextExpectedByte - 1 == SentBytes(e.sock.tx) == |e.wrote| - |e.sock.tx.writeBuffer|
  {
    ReachableSender(w, side);
    var v := SentBy(w.End(side));
    assert |v.wrote[v.sent..]| == |w.End(side).sock.tx.writeBuffer|;
  }

  lemma StreamInParts(v: Sent, rx: Rx, read: seq<Byte>, unsent: seq<Byte>)
    requires InOrder(v, rx, read) && 0 <= v.sent == rx.nextExpectedByte - 1 <= |v.wrote| && v.wrote[v.sent..] == unsent
    ensures v.wrote == read + rx.readBuffer + unsent
  {
  }

  // Past the peer's FIN, what the peer has not sent is what is left in its write buffer.
  lemma UnsentAtClose(w: World, side: Side)
    requires Reachable(w) && HasSeenFin(w.End(Other(side)).sock.connState)
    ensures var v, tx := SentBy(w.End(side)), w.End(side).sock.tx;
      0 <= v.sent <= |v.wrote| && v.wrote[v.sent..] == tx.writeBuffer
      && w.End(Other(side)).sock.rx.nextExpectedByte - 1 == v.sent
  {
    ReachableFlow(w, side);
    assert Payload(w.End(side).sock.tx.writer) == [];
  }

  /** On a run whose drained segments fit, a side past the peer's FIN has been given the peer's
      whole stream: all that VWrite stored except what never left the peer's write buffer. */
  lemma WholeStreamAtClose(isnA: U32, isnB: U32, run: Run, side: Side)
    requires var w := Exec(Connected(isnA, isnB), run);
      NoWrapIn(w) && RunFits(Connected(isnA, isnB), run) && HasSeenFin(w.End(Other(side)).sock.connState)
    ensures var w := Exec(Connected(isnA, isnB), run); var e, r := w.End(side), w.End(Other(side));
      e.wrote == r.read + r.sock.rx.readBuffer + e.sock.tx.writeBuffer
  {
    var w := Exec(Connected(isnA, isnB), run);
    assert Reachable(w);
    UnsentAtClose(w, side);
    InOrderIffFits(isnA, isnB, run);
    var r := w.End(Other(side));
    StreamInParts(SentBy(w.End(side)), r.sock.rx, r.read, w.End(side).sock.tx.writeBuffer);
  }
}
