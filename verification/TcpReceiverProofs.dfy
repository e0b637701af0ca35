/** Every event keeps the receiver's half of the invariant. */
module TcpReceiverProofs {
  import opened Words
  import opened SegmentHeap
  import opened Sockets
  import opened TcpNetwork
  import opened TcpInvariant
  import opened TcpSenderProofs

  lemma WriteSegmentOk(v: Sent, rx: Rx, out: set<Packet>, p: Packet)
    requires SentOk(v) && RxOk(v, rx, out) && IsDataSegment(v, p) && p.seqNum - v.isn == rx.nextExpectedByte
    ensures RxOk(v, WriteSegment(rx, p.data), out)
    ensures WriteSegment(rx, p.data).nextExpectedByte >= rx.nextExpectedByte
  {
  }

  lemma PopKeepsRxOk(v: Sent, rx: Rx, out: set<Packet>, h: seq<Entry>)
    requires |h| > 0 && Ordered(h) && (forall e | e in h :: EarlyOk(v, out, e))
    requires RxOk(v, rx.(earlyArrivals := h), out)
    ensures RxOk(v, rx.(earlyArrivals := PopEntry(h).1), out)
  {
    PopCorrect(h);
    forall e | e in PopEntry(h).1 ensures EarlyOk(v, out, e) {
      assert e in multiset(PopEntry(h).1);
      assert e in multiset(h);
    }
  }

  // Draining moves NextExpectedByte along segment boundaries, and a FIN it meets is the end of the stream.
  lemma {:induction false} DrainOk(v: Sent, out: set<Packet>, state: ConnState, rx: Rx)
    requires SentOk(v) && (forall p | p in out :: PacketOk(v, p)) && RxOk(v, rx, out)
    requires HasSeenFin(state) ==> Complete(v, rx.nextExpectedByte)
    ensures var (st, r) := Drain(state, rx);
      && RxOk(v, r, out) && rx.nextExpectedByte <= r.nextExpectedByte
      && (HasSeenFin(st) ==> Complete(v, r.nextExpectedByte))
    decreases |rx.earlyArrivals|
  {
    var h := rx.earlyArrivals;
    if |h| > 0 && rx.nextExpectedByte == h[0].priority {
      var p := h[0].packet;
      assert EarlyOk(v, out, h[0]) && PacketOk(v, p);
      if FIN in p.flags {
        PopKeepsRxOk(v, rx, out, h);
        DrainOk(v, out, StateAfterEarlyFin(state), rx.(earlyArrivals := PopEntry(h).1));
      } else {
        WriteSegmentOk(v, rx, out, p);
        PopKeepsRxOk(v, WriteSegment(rx, p.data), out, h);
        DrainOk(v, out, state, WriteSegment(rx, p.data).(earlyArrivals := PopEntry(h).1));
      }
    }
  }

  lemma ParkOk(v: Sent, out: set<Packet>, rx: Rx, p: Packet)
    requires SentOk(v) && RxOk(v, rx, out) && p in out && PacketOk(v, p) && CarriesText(p)
    ensures RxOk(v, ParkEarly(rx, p), out)
  {
    var x := Entry(Sub32(p.seqNum, rx.remoteISN), p);
    PushCorrect(rx.earlyArrivals, x);
    forall e | e in ParkEarly(rx, p).earlyArrivals ensures EarlyOk(v, out, e) {
      assert e in multiset(ParkEarly(rx, p).earlyArrivals);
      assert e in rx.earlyArrivals || e == x;
    }
  }

  lemma AcceptTextOk(v: Sent, out: set<Packet>, state: ConnState, rx: Rx, p: Packet)
    requires SentOk(v) && (forall q | q in out :: PacketOk(v, q)) && RxOk(v, rx, out)
    requires p in out && p.data != []
    requires HasSeenFin(state) ==> Complete(v, rx.nextExpectedByte)
    ensures var (st, r) := AcceptText(state, rx, p);
      && RxOk(v, r, out) && rx.nextExpectedByte <= r.nextExpectedByte
      && (HasSeenFin(st) ==> Complete(v, r.nextExpectedByte))
  {
    assert IsDataSegment(v, p);
    var rel := Sub32(p.seqNum, rx.remoteISN);
    if rx.nextExpectedByte == rel {
      if |p.data| <= Free(rx.readBuffer) {
        WriteSegmentOk(v, rx, out, p);
        DrainOk(v, out, state, WriteSegment(rx, p.data));
      }
    } else if rx.nextExpectedByte < rel {
      ParkOk(v, out, rx, p);
    }
  }

  // An endpoint's packets acknowledge no more than it has accepted, plus a FIN it has seen.
  ghost predicate AckingOk(v: Sent, next: int, o: seq<Packet>) {
    forall p | p in o && p.flags == {ACK} :: AckOk(v, next, p.ackNum)
  }

  lemma SegmentAcks(v: Sent, s: Sock, out: set<Packet>, flags: set<Flag>, data: seq<Byte>)
    requires SentOk(v) && RxOk(v, s.rx, out)
    ensures AckOk(v, s.rx.nextExpectedByte, Segment(s, flags, data).ackNum)
  {
  }

  ghost predicate Received(v: Sent, inbox: set<Packet>, r: Sock, s: Sock, o: seq<Packet>) {
    && RxOk(v, s.rx, inbox) && r.rx.nextExpectedByte <= s.rx.nextExpectedByte
    && (HasSeenFin(s.connState) ==> Complete(v, s.rx.nextExpectedByte))
    && AckingOk(v, s.rx.nextExpectedByte, o)
  }

  lemma ReceiveAck(v: Sent, s: Sock, inbox: set<Packet>, p: Packet)
    requires SentOk(v) && (forall q | q in inbox :: PacketOk(v, q)) && p in inbox
    requires RxOk(v, s.rx, inbox) && (HasSeenFin(s.connState) ==> Complete(v, s.rx.nextExpectedByte))
    ensures Received(v, inbox, s, HandleAck(s, p).0, HandleAck(s, p).1)
  {
    AckFrame(s, p.ackNum);
    var s1 := ProcessAck(s, p.ackNum);
    var s2 := s1.(tx := UpdateWindow(s1.tx, s1.rx.remoteISN, p));
    if !((s1.isClosed && !s.isClosed) || p.ackNum > s.tx.nextSequenceNumber || p.data == []) {
      AcceptTextOk(v, inbox, s2.connState, s2.rx, p);
      SegmentAcks(v, HandleAck(s, p).0, inbox, {ACK}, []);
    }
  }

  lemma ReceiveFin(v: Sent, s: Sock, inbox: set<Packet>, p: Packet)
    requires SentOk(v) && (forall q | q in inbox :: PacketOk(v, q)) && p in inbox && FIN in p.flags
    requires RxOk(v, s.rx, inbox) && (HasSeenFin(s.connState) ==> Complete(v, s.rx.nextExpectedByte))
    ensures Received(v, inbox, s, HandleFin(s, p).0, HandleFin(s, p).1)
  {
    assert IsFin(v, p);
    var rel := Sub32(p.seqNum, s.rx.remoteISN);
    assert rel == v.sent + 1;
    if s.rx.nextExpectedByte == rel {
      assert Add32(Add32(s.rx.remoteISN, s.rx.nextExpectedByte), 1) == v.isn + v.sent + 2;
      assert AckOk(v, rel, v.isn + v.sent + 2);
    } else {
      ParkOk(v, inbox, s.rx, p);
    }
  }

  lemma WriterAcks(v: Sent, s: Sock, inbox: set<Packet>)
    requires SentOk(v) && RxOk(v, s.rx, inbox)
    ensures AckingOk(v, s.rx.nextExpectedByte, StartIteration(s).1) && StartIteration(s).0.rx == s.rx
    ensures StartIteration(s).0.connState == s.connState
    ensures s.tx.writer.Sending? ==>
      AckingOk(v, s.rx.nextExpectedByte, SendSegment(s).1) && SendSegment(s).0.rx == s.rx
  {
  }

  /** Every event of an endpoint keeps its half of the flow it receives. */
  lemma ReceiverStep(v: Sent, e: Endpoint, inbox: set<Packet>, back: set<Packet>, ev: Event)
    requires SentOk(v) && (forall q | q in inbox :: PacketOk(v, q))
    requires ReceiverFlow(v, e.sock, inbox, back) && Enabled(e, inbox, ev)
    requires Packets(ResendProbe(e.sock)) <= back && Packets(RetransmitHead(e.sock)) <= back
    ensures var (f, o) := Perform(e, ev);
      ReceiverFlow(v, f.sock, inbox, back + Packets(o)) && e.sock.rx.nextExpectedByte <= f.sock.rx.nextExpectedByte
  {
    var (f, o) := Perform(e, ev);
    match ev
    case Deliver(p) =>
      if e.phase == Running {
        if p.flags == {ACK} { ReceiveAck(v, e.sock, inbox, p); }
        else if FIN in p.flags { ReceiveFin(v, e.sock, inbox, p); }
      }
      assert Received(v, inbox, e.sock, f.sock, o);
    case WriterStep => WriterAcks(v, e.sock, inbox);
    case ProbeAgain => assert back + Packets(o) == back;
    case RetransmitTimeout => assert back + Packets(o) == back;
    case _ =>
  }

  /** The sender's progress keeps the receiver's half. */
  lemma SenderProgress(v: Sent, w: Sent, r: Sock, inbox: set<Packet>, more: set<Packet>, back: set<Packet>)
    requires Extends(v, w) && ReceiverFlow(v, r, inbox, back)
    ensures ReceiverFlow(w, r, inbox + more, back)
  {
    forall e | e in r.rx.earlyArrivals ensures EarlyOk(w, inbox + more, e) { assert EarlyOk(v, inbox, e); }
  }
}
