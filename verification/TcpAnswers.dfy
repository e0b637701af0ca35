/** What the packets an endpoint handles are answered with, in every state of the connection. */
module TcpAnswers {
  import opened Words
  import opened SegmentHeap
  import opened Sockets
  import opened TcpNetwork
  import opened TcpInvariant
  import opened TcpSenderProofs
  import opened TcpReceiverProofs
  import opened TcpRuns

  // An ACK of all that the socket has accepted, with the room it has left.
  predicate Acknowledges(s: Sock, q: Packet) {
    && q.flags == {ACK} && q.data == [] && q.seqNum == (s.tx.initSeqNum + 1 + s.tx.numberBytesSent) % TWO_32
    && q.ackNum == (s.rx.remoteISN + s.rx.nextExpectedByte) % TWO_32
    && q.window == (MAX_BUFFER_SIZE - |s.rx.readBuffer|) % TWO_16
  }

  /** For every socket: an ACK segment with text is answered with one ACK of what has then been accepted,
      whether the text was in order, early, old or too long, unless it acknowledges what was never sent or
      closes the socket. One without text is not answered. */
  lemma TextAnsweredIff(s: Sock, p: Packet)
    requires p.flags == {ACK}
    ensures var (t, out) := HandleTCPPacket(s, p);
      if p.data == [] || p.ackNum > s.tx.nextSequenceNumber || (t.isClosed && !s.isClosed) then out == []
      else |out| == 1 && Acknowledges(t, out[0])
  {
    SegmentAcknowledges(HandleTCPPacket(s, p).0);
  }

  lemma SegmentAcknowledges(s: Sock)
    ensures Acknowledges(s, Segment(s, {ACK}, []))
  {
  }

  // The same without wrap-around: the number after what has been accepted in order.
  ghost predicate Answers(s: Sock, o: seq<Packet>) {
    && |o| == 1 && o[0].flags == {ACK} && o[0].data == []
    && o[0].ackNum == s.rx.remoteISN + s.rx.nextExpectedByte
    && o[0].seqNum == s.tx.initSeqNum + 1 + s.tx.numberBytesSent
    && o[0].window == MAX_BUFFER_SIZE - |s.rx.readBuffer|
  }

  lemma AnswerNumbers(s: Sock, v: Sent, w: Sent, out: set<Packet>, inbox: set<Packet>, q: Packet)
    requires Acknowledges(s, q) && TxOk(s, v, out) && RxOk(w, s.rx, inbox) && SentOk(w)
    ensures Answers(s, [q])
  {
  }

  lemma TextHandled(s: Sock, v: Sent, w: Sent, next: int, out: set<Packet>, inbox: set<Packet>, p: Packet)
    requires SentOk(v) && next <= v.sent + 1 && (forall q | q in out :: PacketOk(v, q)) && SockOk(s, v, next, out)
    requires SentOk(w) && (forall q | q in inbox :: PacketOk(w, q)) && RxOk(w, s.rx, inbox)
    requires HasSeenFin(s.connState) ==> Complete(w, s.rx.nextExpectedByte)
    requires p in inbox && p.flags == {ACK} && p.data != [] && !s.isClosed && AckOk(v, next, p.ackNum)
    ensures var (t, o) := HandleTCPPacket(s, p); Answers(t, o) || (o == [] && t.isClosed)
  {
    TextAnsweredIff(s, p);
    AckInRange(s, v, next, out, p.ackNum);
    HandleAckOk(s, v, out, next, p);
    ReceiveAck(w, s, inbox, p);
    var (t, o) := HandleTCPPacket(s, p);
    if o != [] {
      AnswerNumbers(t, v, w, out, inbox, o[0]);
      assert o == [o[0]];
    }
  }

  lemma AckInRange(s: Sock, v: Sent, next: int, out: set<Packet>, ack: U32)
    requires SentOk(v) && next <= v.sent + 1 && TxOk(s, v, out) && AckOk(v, next, ack)
    ensures ack <= s.tx.nextSequenceNumber
  {
  }

  lemma TextHandledBy(e: Endpoint, r: Endpoint, out: set<Packet>, inbox: set<Packet>, p: Packet)
    requires Flow(e, r, out, inbox) && Flow(r, e, inbox, out)
    requires p in inbox && p.flags == {ACK} && p.data != [] && !e.sock.isClosed
    ensures var (t, o) := HandleTCPPacket(e.sock, p); Answers(t, o) || (o == [] && t.isClosed)
  {
    TextHandled(e.sock, SentBy(e), SentBy(r), r.sock.rx.nextExpectedByte, out, inbox, p);
  }

  /** In every reachable world every segment with text is answered with one ACK of all that has been
      accepted, unless it is also the last acknowledgment, which closes the endpoint. */
  lemma TextAnswered(isnA: U32, isnB: U32, run: Run, side: Side, p: Packet)
    requires NoWrapIn(Exec(Connected(isnA, isnB), run))
    requires var w := Exec(Connected(isnA, isnB), run);
      p in w.Inbox(side) && !w.End(side).sock.isClosed && p.flags == {ACK} && p.data != []
    ensures var (t, o) := HandleTCPPacket(Exec(Connected(isnA, isnB), run).End(side).sock, p);
      Answers(t, o) || (o == [] && t.isClosed)
  {
    var w := Exec(Connected(isnA, isnB), run);
    ReachableInv(isnA, isnB, run);
    if side == A { TextHandledBy(w.a, w.b, w.toB, w.toA, p); } else { TextHandledBy(w.b, w.a, w.toA, w.toB, p); }
  }

  // All that handling the FIN p changes is the state, and the answer covers it.
  ghost predicate AnswersFin(e: Endpoint, p: Packet, f: Endpoint, o: seq<Packet>) {
    && f == e.(sock := e.sock.(connState := f.sock.connState))
    && |o| == 1 && o[0].flags == {ACK} && o[0].data == [] && o[0].ackNum == p.seqNum + 1
    && o[0].seqNum == e.sock.tx.initSeqNum + 1 + e.sock.tx.numberBytesSent
    && o[0].window == MAX_BUFFER_SIZE - |e.sock.rx.readBuffer|
  }

  lemma FinInOrder(e: Endpoint, v: Sent, next: int, out: set<Packet>, inbox: set<Packet>, p: Packet)
    requires SenderFlow(e, next, out) && RxOk(v, e.sock.rx, inbox) && SentOk(v) && IsFin(v, p)
    requires e.phase == Running && p.seqNum - v.isn == e.sock.rx.nextExpectedByte
    ensures AnswersFin(e, p, Perform(e, Deliver(p)).0, Perform(e, Deliver(p)).1)
  {
  }

  /** A FIN in order is answered with one ACK, which covers it, and changes nothing but the state. */
  lemma FinAnsweredInOrder(isnA: U32, isnB: U32, run: Run, side: Side, p: Packet)
    requires NoWrapIn(Exec(Connected(isnA, isnB), run))
    requires var w := Exec(Connected(isnA, isnB), run); var e := w.End(side);
      && e.phase == Running && p in w.Inbox(side) && FIN in p.flags
      && p.seqNum - e.sock.rx.remoteISN == e.sock.rx.nextExpectedByte
    ensures var e := Exec(Connected(isnA, isnB), run).End(side);
      AnswersFin(e, p, Perform(e, Deliver(p)).0, Perform(e, Deliver(p)).1)
  {
    var w := Exec(Connected(isnA, isnB), run);
    ReachableInv(isnA, isnB, run);
    if side == A {
      assert PacketOk(SentBy(w.b), p);
      FinInOrder(w.a, SentBy(w.b), w.b.sock.rx.nextExpectedByte, w.toB, w.toA, p);
    } else {
      assert PacketOk(SentBy(w.a), p);
      FinInOrder(w.b, SentBy(w.a), w.a.sock.rx.nextExpectedByte, w.toA, w.toB, p);
    }
  }

  /** A packet that is neither an ACK alone nor a FIN, such as a SYN or SYN-ACK of the handshake that comes
      again, changes nothing and is not answered. */
  lemma OthersIgnored(w: World, side: Side, p: Packet)
    requires w.End(side).phase == Running && p.flags != {ACK} && FIN !in p.flags
    ensures Step(w, side, Deliver(p)) == w
  {
    assert w.Outbox(side) + Packets([]) == w.Outbox(side);
  }
}
