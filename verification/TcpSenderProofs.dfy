/** Every event keeps the sender's half of the invariant. */
module TcpSenderProofs {
  import opened Words
  import opened SegmentHeap
  import opened Sockets
  import opened TcpNetwork
  import opened TcpInvariant

  // ---------- How the sender's view grows ----------

  ghost predicate Extends(v: Sent, w: Sent) {
    && w.isn == v.isn && v.wrote <= w.wrote && v.sent <= w.sent <= |w.wrote| && v.cuts <= w.cuts
    && (forall c | c in w.cuts :: c in v.cuts || v.sent < c)
    && (v.fin ==> w.fin && w.sent == v.sent)
  }

  lemma PacketOkExtends(v: Sent, w: Sent, p: Packet)
    requires Extends(v, w) && PacketOk(v, p)
    ensures PacketOk(w, p)
  {
    if IsDataSegment(v, p) {
      var from := p.seqNum - v.isn - 1;
      assert w.wrote[from..from + |p.data|] == v.wrote[from..from + |p.data|];
      assert IsDataSegment(w, p);
    } else if IsFin(v, p) {
      assert IsFin(w, p);
    }
  }

  lemma PacketsOkExtend(v: Sent, w: Sent, out: set<Packet>)
    requires Extends(v, w) && forall p | p in out :: PacketOk(v, p)
    ensures forall p | p in out :: PacketOk(w, p)
  {
    forall p | p in out ensures PacketOk(w, p) { PacketOkExtends(v, w, p); }
  }

  // ---------- Queue arithmetic ----------

  lemma {:induction false} ChainAppend(q: seq<Entry>, from: int, to: int, e: Entry)
    requires Chain(q, from, to) && e.priority == to
    ensures Chain(q + [e], from, End(e))
    decreases |q|
  {
    if q == [] {
      assert (q + [e])[1..] == [];
    } else {
      assert (q + [e])[1..] == q[1..] + [e];
      ChainAppend(q[1..], End(q[0]), to, e);
    }
  }

  lemma {:induction false} DataAppend(q: seq<Entry>, e: Entry)
    ensures DataInQueue(q + [e]) == DataInQueue(q) + |e.packet.data|
    decreases |q|
  {
    if q == [] {
      assert (q + [e])[1..] == [];
    } else {
      assert (q + [e])[1..] == q[1..] + [e];
      DataAppend(q[1..], e);
    }
  }

  lemma {:induction false} ChainGrows(q: seq<Entry>, from: int, to: int)
    requires Chain(q, from, to)
    ensures to == from + DataInQueue(q)
    decreases |q|
  {
    if q != [] { ChainGrows(q[1..], End(q[0]), to); }
  }

  // ---------- Acknowledgments ----------

  // LargestAck has just moved to an acceptable number; the queue may still start below it.
  ghost predicate PruneReady(s: Sock, v: Sent, next: int) {
    var q := s.tx.rtQueue;
    && s.connState != CLOSED && s.tx.largestAck > v.isn && AckOk(v, next, s.tx.largestAck)
    && (if q == [] then QueueEnd(s.tx) <= s.tx.largestAck
        else Chain(q, q[0].priority, QueueEnd(s.tx)) && q[0].priority <= s.tx.largestAck)
  }

  // The first item of the queue is gone.
  function DropHead(s: Sock): Sock
    requires s.tx.rtQueue != []
  {
    var q := s.tx.rtQueue;
    var state := if FIN in q[0].packet.flags && s.connState == FIN_WAIT_1 then FIN_WAIT_2 else s.connState;
    s.(connState := state,
       tx := s.tx.(rtQueue := q[1..], bytesInFlight := Sub16(s.tx.bytesInFlight, |q[0].packet.data| % TWO_16)))
  }

  /** Pruning touches only the state, the queue and the count of bytes in flight. */
  lemma {:induction false} PruneFrame(s: Sock)
    ensures var t := Prune(s);
      && t.rx == s.rx && t.tx == s.tx.(rtQueue := t.tx.rtQueue, bytesInFlight := t.tx.bytesInFlight)
      && (HasSeenFin(t.connState) ==> HasSeenFin(s.connState))
      && (t.isClosed ==> s.isClosed || HasSeenFin(t.connState))
    decreases |s.tx.rtQueue|
  {
    var q := s.tx.rtQueue;
    if |q| > 0 && End(q[0]) <= s.tx.largestAck { PruneFrame(DropHead(s)); }
  }

  // What an acknowledgment leaves alone.
  lemma AckFrame(s: Sock, ackNum: U32)
    ensures var t := ProcessAck(s, ackNum);
      && t.rx == s.rx
      && t.tx == s.tx.(rtQueue := t.tx.rtQueue, bytesInFlight := t.tx.bytesInFlight, largestAck := t.tx.largestAck)
      && t.tx.largestAck == (if s.tx.largestAck < ackNum <= s.tx.nextSequenceNumber then ackNum else s.tx.largestAck)
      && (HasSeenFin(t.connState) ==> HasSeenFin(s.connState))
      && (t.isClosed ==> s.isClosed || HasSeenFin(t.connState))
  {
    PruneFrame(s.(tx := s.tx.(largestAck := ackNum)));
  }

  lemma SubtractModulo(total: nat, n: nat)
    requires n <= total
    ensures Sub16(total % TWO_16, n % TWO_16) == (total - n) % TWO_16
  {
  }

  lemma DropHeadCore(s: Sock, v: Sent, out: set<Packet>)
    requires TxCore(s, v, out) && s.tx.rtQueue != []
    ensures TxCore(DropHead(s), v, out)
  {
    var q := s.tx.rtQueue;
    assert forall e | e in q[1..] :: e in q;
    SubtractModulo(DataInQueue(q) + (if s.tx.zwpMode then 1 else 0), |q[0].packet.data|);
  }

  lemma DropHeadOk(s: Sock, v: Sent, out: set<Packet>, next: int)
    requires TxCore(s, v, out) && PruneReady(s, v, next)
    requires s.tx.rtQueue != [] && End(s.tx.rtQueue[0]) <= s.tx.largestAck
    ensures TxCore(DropHead(s), v, out) && PruneReady(DropHead(s), v, next)
  {
    DropHeadCore(s, v, out);
    var q := s.tx.rtQueue;
    assert Chain(q[1..], End(q[0]), QueueEnd(s.tx));
  }

  // A FIN is taken for acknowledged only when everything before it is.
  lemma FinAckedMeansComplete(v: Sent, next: int, ack: int, p: Packet)
    requires SentOk(v) && next <= v.sent + 1 && PacketOk(v, p) && FIN in p.flags
    requires AckOk(v, next, ack) && p.seqNum <= ack
    ensures Complete(v, next)
  {
  }

  ghost predicate StateSound(before: ConnState, after: ConnState, v: Sent, next: int) {
    && (BelievesFinAcked(after) ==> BelievesFinAcked(before) || Complete(v, next))
    && (HasSeenFin(after) ==> HasSeenFin(before))
  }

  lemma {:induction false} PruneOk(s: Sock, v: Sent, out: set<Packet>, next: int)
    requires SentOk(v) && next <= v.sent + 1 && (forall p | p in out :: PacketOk(v, p))
    requires TxCore(s, v, out) && PruneReady(s, v, next)
    ensures TxOk(Prune(s), v, out)
    ensures StateSound(s.connState, Prune(s).connState, v, next)
    ensures Prune(s).rx == s.rx && Prune(s).tx.largestAck == s.tx.largestAck
    decreases |s.tx.rtQueue|
  {
    var q := s.tx.rtQueue;
    if q != [] {
      assert QueueItemOk(out, q[0]);
      if End(q[0]) <= s.tx.largestAck {
        if FIN in q[0].packet.flags { FinAckedMeansComplete(v, next, s.tx.largestAck, q[0].packet); }
        if FIN in q[0].packet.flags && s.connState == LAST_ACK {
        } else {
          DropHeadOk(s, v, out, next);
          PruneOk(DropHead(s), v, out, next);
        }
      } else {
        HeadAtAck(s, v, out, next);
      }
    }
  }

  // Acknowledgments fall on segment boundaries, so a head that is not fully acknowledged starts at one.
  lemma HeadAtAck(s: Sock, v: Sent, out: set<Packet>, next: int)
    requires SentOk(v) && (forall p | p in out :: PacketOk(v, p))
    requires TxCore(s, v, out) && PruneReady(s, v, next)
    requires s.tx.rtQueue != [] && s.tx.largestAck < End(s.tx.rtQueue[0])
    ensures s.tx.rtQueue[0].priority == s.tx.largestAck
  {
    var e := s.tx.rtQueue[0];
    assert QueueItemOk(out, e) && PacketOk(v, e.packet);
    if IsDataSegment(v, e.packet) {
      var a := s.tx.largestAck - v.isn - 1;
      assert a in v.cuts || a == v.sent + 1;
    }
  }

  lemma ProcessAckOk(s: Sock, v: Sent, out: set<Packet>, next: int, ack: U32)
    requires SentOk(v) && next <= v.sent + 1 && (forall p | p in out :: PacketOk(v, p))
    requires TxOk(s, v, out) && !s.isClosed && AckOk(v, next, ack)
    requires s.tx.largestAck == 0 || AckOk(v, next, s.tx.largestAck)
    ensures var r := ProcessAck(s, ack);
      && TxOk(r, v, out) && StateSound(s.connState, r.connState, v, next) && r.rx == s.rx
      && AckOk(v, next, ack) && (r.tx.largestAck == 0 || AckOk(v, next, r.tx.largestAck))
  {
    if s.tx.largestAck < ack <= s.tx.nextSequenceNumber {
      PruneOk(s.(tx := s.tx.(largestAck := ack)), v, out, next);
    }
  }

  // ---------- Window updates and the end of probing ----------

  /** Probing stops only when everything sent is acknowledged and the window is open. */
  lemma LeavingProbeMode(s: Sock, v: Sent, out: set<Packet>, next: int)
    requires SentOk(v) && next <= v.sent + 1 && TxOk(s, v, out) && !s.isClosed
    requires s.tx.largestAck == 0 || AckOk(v, next, s.tx.largestAck)
    requires ShouldStopProbing(s.tx)
    ensures s.tx.rtQueue == [] && s.tx.largestAck == s.tx.nextSequenceNumber == v.isn + 1 + v.sent
    ensures StopProbing(s.tx).bytesInFlight == 0 && s.tx.remoteWindowSize > 0
    ensures TxOk(s.(tx := StopProbing(s.tx)), v, out)
  {
    var q := s.tx.rtQueue;
    assert s.tx.largestAck == v.isn + 1 + v.sent;
    if q != [] { ChainGrows(q, q[0].priority, QueueEnd(s.tx)); }
    assert DataInQueue([]) == 0;
  }

  lemma UpdateWindowOk(s: Sock, v: Sent, out: set<Packet>, next: int, p: Packet)
    requires SentOk(v) && next <= v.sent + 1 && TxOk(s, v, out) && !s.isClosed
    requires s.tx.largestAck == 0 || AckOk(v, next, s.tx.largestAck)
    ensures TxOk(s.(tx := UpdateWindow(s.tx, s.rx.remoteISN, p)), v, out)
    ensures UpdateWindow(s.tx, s.rx.remoteISN, p).largestAck == s.tx.largestAck
  {
    var rel := Sub32(p.seqNum, s.rx.remoteISN);
    var t := s.tx.(remoteWindowSize := p.window, lastSegmentSequenceNumber := rel, lastSegmentAckNumber := p.ackNum);
    assert TxOk(s.(tx := t), v, out);
    if ShouldStopProbing(t) { LeavingProbeMode(s.(tx := t), v, out, next); }
  }

  // ---------- Incoming packets ----------

  // Apart from the CLOSED state, receiving text is no concern of the sender's bookkeeping.
  lemma TxOkFrame(s: Sock, r: Sock, v: Sent, out: set<Packet>)
    requires TxOk(s, v, out) && r.tx == s.tx && r.isClosed == s.isClosed
    requires r.connState == CLOSED <==> s.connState == CLOSED
    ensures TxOk(r, v, out)
  {
  }

  lemma {:induction false} DrainStates(state: ConnState, rx: Rx)
    ensures Drain(state, rx).0 == CLOSED <==> state == CLOSED
    ensures BelievesFinAcked(Drain(state, rx).0) ==> BelievesFinAcked(state)
    decreases |rx.earlyArrivals|
  {
    var h := rx.earlyArrivals;
    if |h| > 0 && rx.nextExpectedByte == h[0].priority {
      if FIN in h[0].packet.flags {
        DrainStates(StateAfterEarlyFin(state), rx.(earlyArrivals := PopEntry(h).1));
      } else {
        DrainStates(state, WriteSegment(rx, h[0].packet.data).(earlyArrivals := PopEntry(h).1));
      }
    }
  }

  lemma AcceptTextStates(state: ConnState, rx: Rx, p: Packet)
    ensures AcceptText(state, rx, p).0 == CLOSED <==> state == CLOSED
    ensures BelievesFinAcked(AcceptText(state, rx, p).0) ==> BelievesFinAcked(state)
  {
    DrainStates(state, WriteSegment(rx, p.data));
  }

  predicate PureAck(p: Packet) { p.data == [] && p.flags == {ACK} }

  // The sender's part of SenderFlow for a bare socket.
  ghost predicate SockOk(s: Sock, v: Sent, next: int, out: set<Packet>) {
    && TxOk(s, v, out)
    && (s.tx.largestAck == 0 || AckOk(v, next, s.tx.largestAck))
    && (BelievesFinAcked(s.connState) ==> Complete(v, next))
  }

  lemma HandleAckOk(s: Sock, v: Sent, out: set<Packet>, next: int, p: Packet)
    requires SentOk(v) && next <= v.sent + 1 && (forall p | p in out :: PacketOk(v, p))
    requires SockOk(s, v, next, out) && !s.isClosed && AckOk(v, next, p.ackNum)
    ensures SockOk(HandleAck(s, p).0, v, next, out)
    ensures forall o | o in HandleAck(s, p).1 :: PureAck(o)
  {
    ProcessAckOk(s, v, out, next, p.ackNum);
    var s1 := ProcessAck(s, p.ackNum);
    if !s1.isClosed {
      UpdateWindowOk(s1, v, out, next, p);
      var s2 := s1.(tx := UpdateWindow(s1.tx, s1.rx.remoteISN, p));
      AcceptTextStates(s2.connState, s2.rx, p);
      var (state, rx) := AcceptText(s2.connState, s2.rx, p);
      TxOkFrame(s2, s2.(connState := state, rx := rx), v, out);
    }
  }

  lemma HandleFinOk(s: Sock, v: Sent, out: set<Packet>, next: int, p: Packet)
    requires SockOk(s, v, next, out) && p.flags == {FIN}
    ensures SockOk(HandleFin(s, p).0, v, next, out)
    ensures forall o | o in HandleFin(s, p).1 :: PureAck(o)
  {
    TxOkFrame(s, HandleFin(s, p).0, v, out);
  }

  // What the sender relies on in the packets its peer has sent.
  ghost predicate PeerPacketOk(v: Sent, next: int, p: Packet) {
    && (p.flags == {ACK} ==> AckOk(v, next, p.ackNum))
    && (FIN in p.flags ==> p.flags == {FIN})
  }

  lemma DeliverOk(e: Endpoint, next: int, out: set<Packet>, p: Packet)
    requires SenderFlow(e, next, out) && e.phase != Abandoned && !e.sock.isClosed
    requires PeerPacketOk(SentBy(e), next, p)
    ensures var r := Perform(e, Deliver(p));
      && SentBy(r.0) == SentBy(e) && SockOk(r.0.sock, SentBy(e), next, out)
      && (forall o | o in r.1 :: PureAck(o))
  {
    var v := SentBy(e);
    if e.phase == Running {
      if p.flags == {ACK} { HandleAckOk(e.sock, v, out, next, p); }
      else if FIN in p.flags { HandleFinOk(e.sock, v, out, next, p); }
    } else if AcceptReply(e.sock, p).Some? {
      assert SockOk(AcceptReply(e.sock, p).value, v, next, out);
    }
  }

  // ---------- Sending ----------

  // Sending moves the tail of the queue, so the invariant is rebuilt for the larger view.
  lemma TxMonotone(s: Sock, v: Sent, out: set<Packet>, more: set<Packet>)
    requires TxOk(s, v, out)
    ensures TxOk(s, v, out + more)
  {
    forall e | e in s.tx.rtQueue ensures QueueItemOk(out + more, e) { assert QueueItemOk(out, e); }
  }

  lemma QueueShapeAppend(s: Sock, r: Sock, e: Entry)
    requires QueueShape(s) && s.connState != CLOSED && r.connState == s.connState
    requires Unacked(r.tx) == Unacked(s.tx) <= QueueEnd(s.tx) == e.priority
    requires r.tx.rtQueue == s.tx.rtQueue + [e] && QueueEnd(r.tx) == End(e)
    ensures QueueShape(r)
  {
    var q := s.tx.rtQueue;
    if q == [] {
      assert Chain([e][1..], End(e), End(e));
    } else {
      ChainAppend(q, q[0].priority, QueueEnd(s.tx), e);
    }
  }

  lemma UnackedBound(e: Endpoint, next: int, out: set<Packet>)
    requires SenderFlow(e, next, out) && !e.sock.tx.writer.Done?
    ensures var tx := e.sock.tx;
      Unacked(tx) <= tx.nextSequenceNumber == NextSeqNum(tx) == tx.initSeqNum + 1 + SentBytes(tx)
    ensures e.sock.connState != CLOSED
  {
  }

  function WithSock(e: Endpoint, s: Sock): Endpoint {
    e.(sock := s, cuts := e.cuts + {SentBytes(s.tx)})
  }

  lemma OneSegmentationGrows(v: Sent, out: set<Packet>, p: Packet)
    requires SentOk(v) && !v.fin && (forall q | q in out :: PacketOk(v, q)) && OneSegmentation(out)
    requires p.seqNum == v.isn + 1 + v.sent
    ensures OneSegmentation(out + {p})
  {
    forall q | q in out && CarriesText(q) ensures q.seqNum < p.seqNum { assert PacketOk(v, q); }
  }

  // The invariant for the larger view follows once the new socket and the new packet are in order.
  lemma SenderGrows(e: Endpoint, next: int, out: set<Packet>, s: Sock, p: Packet)
    requires SenderFlow(e, next, out)
    requires var w := SentBy(WithSock(e, s));
      && Extends(SentBy(e), w) && PacketOk(w, p) && TxOk(s, w, out + {p})
      && p.seqNum == w.isn + 1 + SentBytes(e.sock.tx) && !e.sock.tx.writer.Done?
    requires s.connState == e.sock.connState && s.tx.largestAck == e.sock.tx.largestAck
    ensures SenderFlow(WithSock(e, s), next, out + {p})
  {
    var v, w := SentBy(e), SentBy(WithSock(e, s));
    PacketsOkExtend(v, w, out);
    OneSegmentationGrows(v, out, p);
  }

  lemma QueueAppendOk(q: seq<Entry>, out: set<Packet>, e: Entry)
    requires forall x | x in q :: QueueItemOk(out, x)
    requires e.priority == e.packet.seqNum && CarriesText(e.packet)
    ensures forall x | x in q + [e] :: QueueItemOk(out + {e.packet}, x)
  {
    forall x | x in q + [e] ensures QueueItemOk(out + {e.packet}, x) {
      if x in q { assert QueueItemOk(out, x); }
    }
  }

  lemma StreamSplit(wrote: seq<Byte>, sent: int, rest: seq<Byte>, size: int)
    requires 0 <= sent <= |wrote| && wrote[sent..] == rest && 0 <= size <= |rest|
    ensures rest[..size] == wrote[sent..sent + size] && wrote[sent + size..] == rest[size..]
  {
  }

  // The next piece of the stream is a segment of the view that contains it.
  lemma NextSegmentOk(v: Sent, p: Packet)
    requires SentOk(v) && !v.fin && p.flags == {ACK} && p.seqNum == v.isn + 1 + v.sent
    requires 0 < |p.data| <= |v.wrote| - v.sent && p.data == v.wrote[v.sent..v.sent + |p.data|]
    ensures var w := v.(sent := v.sent + |p.data|, cuts := v.cuts + {v.sent + |p.data|});
      Extends(v, w) && IsDataSegment(w, p)
  {
  }

  lemma PayloadSplit(wrote: seq<Byte>, sent: int, payload: seq<Byte>, buffer: seq<Byte>, size: int)
    requires 0 <= sent <= |wrote| && wrote[sent..] == payload + buffer && 0 <= size <= |payload|
    ensures payload[..size] == wrote[sent..sent + size] && wrote[sent + size..] == payload[size..] + buffer
  {
    var pending := payload + buffer;
    StreamSplit(wrote, sent, pending, size);
    assert pending[..size] == payload[..size];
    assert pending[size..] == payload[size..] + buffer;
  }

  lemma SegmentStream(e: Endpoint, next: int, out: set<Packet>)
    requires SenderFlow(e, next, out) && e.sock.tx.writer.Sending?
    ensures var (s, o) := SendSegment(e.sock);
      && |o| == 1 && 0 < |o[0].data| <= MAX_SEGMENT_SIZE
      && SentBytes(s.tx) == SentBytes(e.sock.tx) + |o[0].data| <= |e.wrote|
      && o[0].data == e.wrote[SentBytes(e.sock.tx)..SentBytes(s.tx)]
      && e.wrote[SentBytes(s.tx)..] == Payload(s.tx.writer) + s.tx.writeBuffer
  {
    var payload := e.sock.tx.writer.payload;
    var size := Min(MAX_SEGMENT_SIZE, |payload|);
    PayloadSplit(e.wrote, SentBytes(e.sock.tx), payload, e.sock.tx.writeBuffer, size);
  }

  // Adding an item to the queue keeps its shape, its items and the count of bytes in flight.
  lemma EnqueueOk(s: Sock, r: Sock, out: set<Packet>, e: Entry)
    requires QueueShape(s) && s.connState != CLOSED && r.connState == s.connState
    requires Unacked(r.tx) == Unacked(s.tx) <= QueueEnd(s.tx) == e.priority
    requires r.tx.rtQueue == s.tx.rtQueue + [e] && QueueEnd(r.tx) == End(e)
    requires forall x | x in s.tx.rtQueue :: QueueItemOk(out, x)
    requires e.priority == e.packet.seqNum && CarriesText(e.packet)
    requires s.tx.bytesInFlight == DataInQueue(s.tx.rtQueue) % TWO_16
    requires r.tx.bytesInFlight == (s.tx.bytesInFlight + |e.packet.data|) % TWO_16
    ensures QueueShape(r) && (forall x | x in r.tx.rtQueue :: QueueItemOk(out + {e.packet}, x))
    ensures r.tx.bytesInFlight == DataInQueue(r.tx.rtQueue) % TWO_16
  {
    QueueShapeAppend(s, r, e);
    QueueAppendOk(s.tx.rtQueue, out, e);
    DataAppend(s.tx.rtQueue, e);
  }

  lemma SegmentTxOk(e: Endpoint, next: int, out: set<Packet>)
    requires SenderFlow(e, next, out) && e.sock.tx.writer.Sending?
    ensures var (s, o) := SendSegment(e.sock);
      |o| == 1 && TxOk(s, SentBy(WithSock(e, s)), out + {o[0]})
  {
    UnackedBound(e, next, out);
    SegmentStream(e, next, out);
    var (s, o) := SendSegment(e.sock);
    EnqueueOk(e.sock, s, out, Entry(o[0].seqNum, o[0]));
  }

  lemma SendSegmentOk(e: Endpoint, next: int, out: set<Packet>)
    requires SenderFlow(e, next, out) && e.sock.tx.writer.Sending?
    ensures var (s, o) := SendSegment(e.sock);
      && SenderFlow(WithSock(e, s), next, out + {o[0]}) && Extends(SentBy(e), SentBy(WithSock(e, s)))
  {
    UnackedBound(e, next, out);
    SegmentTxOk(e, next, out);
    var (s, o) := SendSegment(e.sock);
    SegmentStream(e, next, out);
    NextSegmentOk(SentBy(e), o[0]);
    SenderGrows(e, next, out, s, o[0]);
  }

  lemma FinTxOk(e: Endpoint, next: int, out: set<Packet>)
    requires SenderFlow(e, next, out) && e.sock.tx.writer.Idle? && e.sock.tx.writeBuffer == []
    ensures var (s, o) := SendFin(e.sock);
      |o| == 1 && TxOk(s, SentBy(WithSock(e, s)), out + {o[0]})
  {
    UnackedBound(e, next, out);
    var (s, o) := SendFin(e.sock);
    EnqueueOk(e.sock, s, out, Entry(o[0].seqNum, o[0]));
  }

  lemma SendFinOk(e: Endpoint, next: int, out: set<Packet>)
    requires SenderFlow(e, next, out) && e.sock.tx.writer.Idle? && e.sock.tx.writeBuffer == []
    ensures var (s, o) := SendFin(e.sock);
      && SenderFlow(WithSock(e, s), next, out + {o[0]}) && Extends(SentBy(e), SentBy(WithSock(e, s)))
  {
    UnackedBound(e, next, out);
    FinTxOk(e, next, out);
    var (s, o) := SendFin(e.sock);
    var w := SentBy(WithSock(e, s));
    assert w == SentBy(e).(fin := true, cuts := w.cuts);
    assert IsFin(w, o[0]);
    SenderGrows(e, next, out, s, o[0]);
  }

  // What is left of the stream after the probe's byte.
  lemma ProbeStream(e: Endpoint, next: int, out: set<Packet>)
    requires SenderFlow(e, next, out) && e.sock.tx.writer.Idle? && e.sock.tx.writeBuffer != []
    ensures var sent := SentBytes(e.sock.tx);
      && 0 <= sent < |e.wrote| && e.wrote[sent + 1..] == e.sock.tx.writeBuffer[1..]
      && e.sock.tx.writeBuffer[..1] == e.wrote[sent..sent + 1]
  {
    StreamSplit(e.wrote, SentBytes(e.sock.tx), e.sock.tx.writeBuffer, 1);
  }

  lemma ProbeTxOk(e: Endpoint, next: int, out: set<Packet>)
    requires SenderFlow(e, next, out) && e.sock.tx.writer.Idle? && e.sock.tx.writeBuffer != []
    ensures var (s, o) := SendProbe(e.sock);
      |o| == 1 && TxOk(s, SentBy(WithSock(e, s)), out + {o[0]})
  {
    UnackedBound(e, next, out);
    var (s, o) := SendProbe(e.sock);
    ProbeStream(e, next, out);
    TxMonotone(e.sock, SentBy(e), out, {o[0]});
  }

  lemma SendProbeOk(e: Endpoint, next: int, out: set<Packet>)
    requires SenderFlow(e, next, out) && e.sock.tx.writer.Idle? && e.sock.tx.writeBuffer != []
    ensures var (s, o) := SendProbe(e.sock);
      && SenderFlow(WithSock(e, s), next, out + {o[0]}) && Extends(SentBy(e), SentBy(WithSock(e, s)))
  {
    UnackedBound(e, next, out);
    ProbeTxOk(e, next, out);
    var (s, o) := SendProbe(e.sock);
    ProbeStream(e, next, out);
    NextSegmentOk(SentBy(e), o[0]);
    SenderGrows(e, next, out, s, o[0]);
  }

  lemma StreamGrows(wrote: seq<Byte>, sent: int, more: seq<Byte>)
    requires 0 <= sent <= |wrote|
    ensures (wrote + more)[sent..] == wrote[sent..] + more
  {
  }

  lemma MoreWrittenOk(s: Sock, v: Sent, out: set<Packet>, more: seq<Byte>)
    requires TxOk(s, v, out) && |s.tx.writeBuffer| + |more| <= MAX_BUFFER_SIZE
    ensures TxOk(s.(tx := s.tx.(writeBuffer := s.tx.writeBuffer + more)), v.(wrote := v.wrote + more), out)
  {
    StreamGrows(v.wrote, v.sent, more);
    assert Payload(s.tx.writer) + (s.tx.writeBuffer + more) == Payload(s.tx.writer) + s.tx.writeBuffer + more;
  }

  lemma AppWriteTxOk(e: Endpoint, next: int, out: set<Packet>, data: seq<Byte>)
    requires SenderFlow(e, next, out)
    ensures var f := Perform(e, AppWrite(data)).0;
      TxOk(f.sock, SentBy(f), out) && e.wrote <= f.wrote
  {
    MoreWrittenOk(e.sock, SentBy(e), out, data[..WriteChunk(e.sock.tx, data).1]);
  }

  lemma AppWriteOk(e: Endpoint, next: int, out: set<Packet>, data: seq<Byte>)
    requires SenderFlow(e, next, out) && NoWrap(Perform(e, AppWrite(data)).0)
    ensures var f := Perform(e, AppWrite(data)).0;
      SenderFlow(f, next, out) && Extends(SentBy(e), SentBy(f))
  {
    AppWriteTxOk(e, next, out, data);
    var f := Perform(e, AppWrite(data)).0;
    assert Extends(SentBy(e), SentBy(f));
    PacketsOkExtend(SentBy(e), SentBy(f), out);
  }

  // Taking a burst out of the write buffer changes nothing but where its bytes are.
  lemma BurstStartTxOk(s: Sock, v: Sent, out: set<Packet>)
    requires TxOk(s, v, out) && s.tx.writer.Idle? && s.tx.writeBuffer != []
    requires s.tx.remoteWindowSize - s.tx.bytesInFlight > 0
    ensures TxOk(StartIteration(s).0, v, out)
  {
    var t := StartIteration(s).0;
    assert t.tx.rtQueue == s.tx.rtQueue && Payload(t.tx.writer) + t.tx.writeBuffer == s.tx.writeBuffer;
  }

  lemma BurstStartOk(e: Endpoint, next: int, out: set<Packet>)
    requires SenderFlow(e, next, out) && e.sock.tx.writer.Idle? && e.sock.tx.writeBuffer != []
    requires e.sock.tx.remoteWindowSize - e.sock.tx.bytesInFlight > 0
    ensures SenderFlow(WithSock(e, StartIteration(e.sock).0), next, out)
    ensures SentBy(WithSock(e, StartIteration(e.sock).0)) == SentBy(e)
  {
    var f := WithSock(e, StartIteration(e.sock).0);
    BurstStartTxOk(e.sock, SentBy(e), out);
    assert f.cuts == e.cuts;
  }

  lemma IterationOk(e: Endpoint, next: int, out: set<Packet>)
    requires SenderFlow(e, next, out) && e.sock.tx.writer.Idle?
    ensures var (s, o) := StartIteration(e.sock); var f := WithSock(e, s);
      && SenderFlow(f, next, out + Packets(o)) && Extends(SentBy(e), SentBy(f)) && |o| <= 1
  {
    var (s, o) := StartIteration(e.sock);
    if |o| == 1 { assert Packets(o) == {o[0]}; } else { assert out + Packets(o) == out; }
    var tx := e.sock.tx;
    if tx.writeBuffer != [] {
      if tx.remoteWindowSize - tx.bytesInFlight > 0 { BurstStartOk(e, next, out); } else { SendProbeOk(e, next, out); }
    } else if e.sock.connState != ESTABLISHED {
      SendFinOk(e, next, out);
    } else {
      assert WithSock(e, s).cuts == e.cuts;
    }
  }

  lemma WriterStepOk(e: Endpoint, next: int, out: set<Packet>)
    requires SenderFlow(e, next, out)
    ensures var (f, o) := Perform(e, WriterStep);
      SenderFlow(f, next, out + Packets(o)) && Extends(SentBy(e), SentBy(f))
  {
    var (f, o) := Perform(e, WriterStep);
    if |o| == 1 { assert Packets(o) == {o[0]}; } else if |o| == 0 { assert out + Packets(o) == out; }
    var tx := e.sock.tx;
    if tx.writer.Sending? {
      SendSegmentOk(e, next, out);
    } else if tx.writer.Idle? {
      IterationOk(e, next, out);
    } else {
      assert f.cuts == e.cuts;
      assert f == e;
    }
  }

  lemma PureAcksOk(v: Sent, out: set<Packet>, o: seq<Packet>)
    requires (forall p | p in out :: PacketOk(v, p)) && (forall p | p in o :: PureAck(p))
    ensures forall p | p in out + Packets(o) :: PacketOk(v, p)
  {
  }

  lemma ResentPacketsAreOld(s: Sock, v: Sent, out: set<Packet>)
    requires TxOk(s, v, out)
    ensures Packets(ResendProbe(s)) <= out && Packets(RetransmitHead(s)) <= out
  {
    if |s.tx.rtQueue| > 0 { assert QueueItemOk(out, s.tx.rtQueue[0]); }
  }

  lemma DeliverStepOk(e: Endpoint, next: int, out: set<Packet>, p: Packet)
    requires SenderFlow(e, next, out) && e.phase != Abandoned && !e.sock.isClosed
    requires PeerPacketOk(SentBy(e), next, p)
    ensures var (f, o) := Perform(e, Deliver(p));
      SenderFlow(f, next, out + Packets(o)) && SentBy(f) == SentBy(e)
  {
    var (f, o) := Perform(e, Deliver(p));
    DeliverOk(e, next, out, p);
    PureAcksOk(SentBy(e), out, o);
    TxMonotone(f.sock, SentBy(e), out, Packets(o));
  }

  lemma ResendStepOk(e: Endpoint, next: int, out: set<Packet>, o: seq<Packet>)
    requires SenderFlow(e, next, out) && (o == ResendProbe(e.sock) || o == RetransmitHead(e.sock))
    ensures SenderFlow(e, next, out + Packets(o))
  {
    ResentPacketsAreOld(e.sock, SentBy(e), out);
    assert out + Packets(o) == out;
  }

  // Reading and closing are no concern of the sender's half.
  lemma AppStepOk(e: Endpoint, next: int, out: set<Packet>, ev: Event)
    requires SenderFlow(e, next, out) && (ev.AppRead? || ev.AppClose?)
    ensures var f := Perform(e, ev).0; SenderFlow(f, next, out) && SentBy(f) == SentBy(e)
  {
    TxOkFrame(e.sock, Perform(e, ev).0.sock, SentBy(e), out);
  }

  /** Every event of an endpoint keeps its half of the flow it sends on. */
  lemma SenderStep(e: Endpoint, next: int, out: set<Packet>, inbox: set<Packet>, ev: Event)
    requires SenderFlow(e, next, out) && Enabled(e, inbox, ev) && NoWrap(Perform(e, ev).0)
    requires forall p | p in inbox :: PeerPacketOk(SentBy(e), next, p)
    ensures var (f, o) := Perform(e, ev);
      SenderFlow(f, next, out + Packets(o)) && Extends(SentBy(e), SentBy(f))
  {
    var (f, o) := Perform(e, ev);
    match ev
    case Deliver(p) => DeliverStepOk(e, next, out, p);
    case WriterStep => WriterStepOk(e, next, out);
    case ProbeAgain => ResendStepOk(e, next, out, o);
    case RetransmitTimeout => ResendStepOk(e, next, out, o);
    case AppWrite(data) =>
      AppWriteOk(e, next, out, data);
      assert out + Packets(o) == out;
    case _ =>
      AppStepOk(e, next, out, ev);
      assert out + Packets(o) == out;
  }

  /** The peer's progress keeps the sender's half. */
  lemma PeerProgress(e: Endpoint, next: int, later: int, out: set<Packet>)
    requires SenderFlow(e, next, out) && next <= later <= SentBytes(e.sock.tx) + 1
    ensures SenderFlow(e, later, out)
  {
  }
}
