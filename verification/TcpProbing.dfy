/** When probing ends. In every reachable world a probing endpoint leaves the zero-window loop on exactly
    the segments that acknowledge its probe, are not older than the last window update, and open the
    window; and there is a run in which it does. */
module TcpProbing {
  import opened Words
  import opened SegmentHeap
  import opened Sockets
  import opened TcpNetwork
  import opened TcpInvariant
  import opened TcpSenderProofs
  import opened TcpTheorems
  import opened TcpWindow

  lemma {:induction false} DataKeepsOpen(s: Sock)
    requires forall x | x in s.tx.rtQueue :: FIN !in x.packet.flags
    ensures Prune(s).isClosed == s.isClosed
    decreases |s.tx.rtQueue|
  {
    var q := s.tx.rtQueue;
    if |q| > 0 && End(q[0]) <= s.tx.largestAck {
      assert q[0] in q;
      assert forall x | x in q[1..] :: x in q;
      DataKeepsOpen(DropHead(s));
    }
  }

  lemma NoFinQueued(s: Sock, v: Sent, out: set<Packet>)
    requires TxOk(s, v, out) && (forall p | p in out :: PacketOk(v, p)) && !v.fin
    ensures forall x | x in s.tx.rtQueue :: FIN !in x.packet.flags
  {
    forall x | x in s.tx.rtQueue ensures FIN !in x.packet.flags {
      assert QueueItemOk(out, x) && PacketOk(v, x.packet);
    }
  }

  // A probing endpoint has not sent its FIN, so no acknowledgment closes it.
  lemma ProbingStaysOpen(s: Sock, v: Sent, out: set<Packet>, ack: U32)
    requires TxOk(s, v, out) && (forall p | p in out :: PacketOk(v, p)) && s.tx.zwpMode && !s.isClosed
    ensures !ProcessAck(s, ack).isClosed
  {
    NoFinQueued(s, v, out);
    DataKeepsOpen(s.(tx := s.tx.(largestAck := ack)));
  }

  // The segment acknowledges the probe, passes the window test and offers an open window.
  predicate OpensWindow(e: Endpoint, p: Packet) {
    && p.flags == {ACK} && p.ackNum > e.sock.tx.zwpSeq && p.window > 0
    && NotOlder(ViewOf(e), ViewFrom(e.sock.rx.remoteISN, p))
  }

  // Before the FIN, when everything sent is acknowledged nothing is queued, and only a probe is in flight.
  lemma NothingQueued(s: Sock, v: Sent, out: set<Packet>)
    requires TxOk(s, v, out) && (forall p | p in out :: PacketOk(v, p)) && !v.fin
    requires s.connState != CLOSED && s.tx.largestAck == v.isn + 1 + v.sent
    ensures s.tx.rtQueue == [] && s.tx.bytesInFlight == if s.tx.zwpMode then 1 else 0
  {
    var q := s.tx.rtQueue;
    if q != [] {
      assert QueueItemOk(out, q[0]) && PacketOk(v, q[0].packet);
      ChainGrows(q[1..], End(q[0]), QueueEnd(s.tx));
    }
    assert DataInQueue([]) == 0;
  }

  // The acknowledgment of the probe's byte is the highest there can be.
  lemma ProbeAckIsLast(e: Endpoint, next: int, out: set<Packet>, p: Packet)
    requires SenderFlow(e, next, out) && e.sock.tx.zwpMode && AckOk(SentBy(e), next, p.ackNum)
    ensures p.ackNum <= e.sock.tx.nextSequenceNumber == e.sock.tx.zwpSeq + 1
    ensures e.sock.tx.largestAck <= e.sock.tx.nextSequenceNumber == e.sock.tx.initSeqNum + 1 + SentBytes(e.sock.tx)
  {
  }

  // Such a segment reaches the update with nothing but the probe in flight.
  lemma OpeningUpdate(e: Endpoint, next: int, out: set<Packet>, p: Packet)
    requires SenderFlow(e, next, out) && AckOk(SentBy(e), next, p.ackNum)
    requires e.sock.tx.zwpMode && !e.sock.isClosed && OpensWindow(e, p)
    ensures var s1 := ProcessAck(e.sock, p.ackNum);
      && s1.tx.largestAck == p.ackNum == s1.tx.nextSequenceNumber && s1.tx.bytesInFlight == 1 && s1.tx.zwpMode
      && !s1.isClosed && s1.rx == e.sock.rx && s1.tx.zwpSeq == e.sock.tx.zwpSeq
      && s1.tx.lastSegmentSequenceNumber == e.sock.tx.lastSegmentSequenceNumber
      && s1.tx.lastSegmentAckNumber == e.sock.tx.lastSegmentAckNumber
  {
    var s1 := ProcessAck(e.sock, p.ackNum);
    ProbeAckIsLast(e, next, out, p);
    ProcessAckOk(e.sock, SentBy(e), out, next, p.ackNum);
    AckFrame(e.sock, p.ackNum);
    ProbingStaysOpen(e.sock, SentBy(e), out, p.ackNum);
    NothingQueued(s1, SentBy(e), out);
  }

  lemma OpeningEnds(e: Endpoint, next: int, out: set<Packet>, p: Packet)
    requires SenderFlow(e, next, out) && AckOk(SentBy(e), next, p.ackNum)
    requires e.sock.tx.zwpMode && !e.sock.isClosed && OpensWindow(e, p)
    ensures var t := HandleTCPPacket(e.sock, p).0.tx; !t.zwpMode && t.writer == Idle && t.bytesInFlight == 0
  {
    OpeningUpdate(e, next, out, p);
    var s1 := ProcessAck(e.sock, p.ackNum);
    var t := UpdateWindow(s1.tx, s1.rx.remoteISN, p);
    assert !t.zwpMode && t.writer == Idle && t.bytesInFlight == 0;
    assert HandleAck(e.sock, p).0.tx == t;
  }

  lemma EndsByOpening(e: Endpoint, next: int, out: set<Packet>, p: Packet)
    requires SenderFlow(e, next, out) && (p.flags == {ACK} ==> AckOk(SentBy(e), next, p.ackNum))
    requires e.sock.tx.zwpMode && !e.sock.isClosed && !HandleTCPPacket(e.sock, p).0.tx.zwpMode
    ensures OpensWindow(e, p)
  {
    PacketEndsProbing(e, next, out, p);
    HandleAckView(e, p);
    AckFrame(e.sock, p.ackNum);
    ProbeAckIsLast(e, next, out, p);
  }

  // The zero-window loop is left, with nothing in flight and the writer back at the top of its loop.
  predicate ProbingOver(tx: Tx) { !tx.zwpMode && tx.writer == Idle && tx.bytesInFlight == 0 }

  lemma EndsIff(e: Endpoint, next: int, out: set<Packet>, p: Packet)
    requires SenderFlow(e, next, out) && (p.flags == {ACK} ==> AckOk(SentBy(e), next, p.ackNum))
    requires e.sock.tx.zwpMode && !e.sock.isClosed
    ensures var t := HandleTCPPacket(e.sock, p).0.tx; if OpensWindow(e, p) then ProbingOver(t) else t.zwpMode
  {
    if OpensWindow(e, p) { OpeningEnds(e, next, out, p); }
    else if !HandleTCPPacket(e.sock, p).0.tx.zwpMode { EndsByOpening(e, next, out, p); }
  }

  /** In every reachable world, a packet ends the probing of the endpoint that handles it if and only if it
      is an ACK that covers the probe's byte, is not older than the segment of the last window update, and
      advertises a window above 0. Then nothing is in flight and the writer goes on. */
  lemma ProbingEndsIff(w: World, side: Side, p: Packet)
    requires Reachable(w) && p in w.Inbox(side) && !w.End(side).sock.isClosed && w.End(side).sock.tx.zwpMode
    ensures var t := HandleTCPPacket(w.End(side).sock, p).0.tx;
      if OpensWindow(w.End(side), p) then ProbingOver(t) else t.zwpMode
  {
    ReachableSender(w, side);
    ReachablePeerAck(w, side, p);
    EndsIff(w.End(side), w.End(Other(side)).sock.rx.nextExpectedByte, w.Outbox(side), p);
  }
}
