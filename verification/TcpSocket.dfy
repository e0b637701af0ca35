/** The `TCPSocket` object: its handlers update the fields in place, with the pruning,
    draining and segmenting loops, and are proved against the functions of `Sockets`. */
module TcpSockets {
  import opened Words
  import opened Wrappers
  import opened SegmentHeap
  import opened PriorityQueues
  import opened Sockets

  datatype ReadResult =
    | SocketClosing           // VRead refuses in every state after ESTABLISHED
    | Bytes(data: seq<Byte>)
    | WouldWait               // blocks on ReadBufferNotEmpty
    | NotEstablished

  class TCPSocket {
    var connState: ConnState
    var isClosed: bool
    // Sequence numbers and send state
    const initSeqNum: U32
    var numberBytesSent: U32
    var nextSequenceNumber: U32
    var largestAck: U32
    var remoteWindowSize: U16
    var lastSegmentSequenceNumber: U32
    var lastSegmentAckNumber: U32
    var writeBuffer: seq<Byte>
    var rtQueue: seq<Entry>
    var bytesInFlight: U16
    var zwpMode: bool
    var zwpSeq: U32
    var writer: Writer
    // Receive state
    var remoteISN: U32
    var nextExpectedByte: U32
    var readBuffer: seq<Byte>
    const earlyArrivalQueue: PriorityQueue

    ghost predicate Valid()
      reads this, earlyArrivalQueue, earlyArrivalQueue.items
    {
      earlyArrivalQueue.Valid()
    }

    function TxState(): Tx
      reads this
    {
      Tx(initSeqNum, numberBytesSent, nextSequenceNumber, largestAck, remoteWindowSize, lastSegmentSequenceNumber,
         lastSegmentAckNumber, writeBuffer, rtQueue, bytesInFlight, zwpMode, zwpSeq, writer)
    }

    function RxState(): Rx
      reads this, earlyArrivalQueue
    {
      Rx(remoteISN, nextExpectedByte, readBuffer, earlyArrivalQueue.Entries())
    }

    function State(): Sock
      reads this, earlyArrivalQueue
    {
      Sock(connState, isClosed, TxState(), RxState())
    }

    constructor (connState: ConnState, remoteISN: U32, initSeqNum: U32)
      ensures Valid() && fresh(earlyArrivalQueue) && State() == MakeTCPSocket(connState, remoteISN, initSeqNum)
    {
      this.connState, this.isClosed := connState, false;
      this.initSeqNum, numberBytesSent := initSeqNum, 0;
      nextSequenceNumber := Add32(initSeqNum, 1);
      largestAck, remoteWindowSize := 0, 0;
      lastSegmentSequenceNumber, lastSegmentAckNumber := remoteISN, 0;
      writeBuffer, rtQueue, bytesInFlight := [], [], 0;
      zwpMode, zwpSeq, writer := false, 0, Idle;
      this.remoteISN, nextExpectedByte, readBuffer := remoteISN, 0, [];
      earlyArrivalQueue := new PriorityQueue();
    }

    // ---------- Incoming segments ----------

    /** Removes fully acknowledged items; returns true when the LAST_ACK exit is taken. */
    method PruneQueue() returns (closed: bool)
      requires Valid() && !isClosed
      modifies this
      ensures Valid() && State() == Prune(old(State())) && closed == isClosed
    {
      closed := false;
      while !closed && |rtQueue| > 0 && End(rtQueue[0]) <= largestAck
        invariant Valid() && closed == isClosed
        invariant !closed ==> Prune(State()) == Prune(old(State()))
        invariant closed ==> State() == Prune(old(State()))
        decreases !closed, |rtQueue|
      {
        if FIN in rtQueue[0].packet.flags {
          if connState == FIN_WAIT_1 {
            connState := FIN_WAIT_2;
          } else if connState == LAST_ACK {
            connState := CLOSED;
            isClosed := true;
            closed := true;
          }
        }
        if !closed { DequeueAcked(); }
      }
    }

    method DequeueAcked()
      requires Valid() && rtQueue != []
      modifies this
      ensures Valid() && State() == old(State()).(tx := old(TxState()).(
        rtQueue := old(rtQueue)[1..],
        bytesInFlight := Sub16(old(bytesInFlight), |old(rtQueue)[0].packet.data| % TWO_16)))
    {
      bytesInFlight := Sub16(bytesInFlight, |rtQueue[0].packet.data| % TWO_16);
      rtQueue := rtQueue[1..];
    }

    method UpdateSendWindow(p: Packet)
      requires Valid()
      modifies this
      ensures Valid() && State() == old(State()).(tx := UpdateWindow(old(TxState()), old(remoteISN), p))
    {
      if largestAck <= p.ackNum && p.ackNum <= nextSequenceNumber {
        var rel := Sub32(p.seqNum, remoteISN);
        if lastSegmentSequenceNumber < rel || (lastSegmentSequenceNumber == rel && lastSegmentAckNumber <= p.ackNum) {
          remoteWindowSize := p.window;
          lastSegmentSequenceNumber := rel;
          lastSegmentAckNumber := p.ackNum;
          if zwpMode && Sub16(bytesInFlight, 1) < remoteWindowSize && zwpSeq < largestAck { LeaveProbing(); }
        }
      }
    }

    // What HandleVWrite does when it receives on the ZWPStop channel.
    method LeaveProbing()
      requires Valid()
      modifies this
      ensures Valid() && State() == old(State()).(tx := StopProbing(old(TxState())))
    {
      zwpMode := false;
      bytesInFlight := Sub16(bytesInFlight, 1);
      writer := Idle;
    }

    method WriteToReadBuffer(data: seq<Byte>)
      requires Valid()
      modifies this
      ensures Valid() && State() == old(State()).(rx := WriteSegment(old(RxState()), data))
    {
      var free := Free(readBuffer);
      if data != [] && free > 0 {
        if |data| > free {
          readBuffer := readBuffer + data[..free];
        } else {
          readBuffer := readBuffer + data;
          nextExpectedByte := Add32(nextExpectedByte, |data| % TWO_32);
        }
      }
    }

    // Neither the queue nor the read buffer is touched by a change of connection state.
    method AcceptEarlyFin()
      requires Valid()
      modifies this
      ensures Valid() && State() == old(State()).(connState := StateAfterEarlyFin(old(connState)))
    {
      if connState == ESTABLISHED {
        connState := CLOSE_WAIT;
      } else if connState == FIN_WAIT_1 {
        connState := CLOSING;
      } else if connState == FIN_WAIT_2 {
        connState := TIME_WAIT;
      }
    }

    method DrainEarlyArrivals()
      requires Valid()
      modifies this, earlyArrivalQueue, earlyArrivalQueue.items
      ensures Valid() && forall x | x in earlyArrivalQueue.items :: x in old(earlyArrivalQueue.items)
      ensures var (state, rx) := Drain(old(connState), old(RxState()));
        State() == old(State()).(connState := state, rx := rx)
    {
      var q := earlyArrivalQueue;
      ghost var start := State();
      while |q.items| > 0 && nextExpectedByte == q.items[0].priority
        invariant Valid() && forall x | x in q.items :: x in old(q.items)
        invariant isClosed == start.isClosed && TxState() == start.tx
        invariant Drain(connState, RxState()) == Drain(start.connState, start.rx)
        decreases |q.items|
      {
        ghost var before := RxState();
        ghost var state := connState;
        var p := q.items[0].packet;
        assert q.Entries()[0] == Entry(q.items[0].priority, p);
        if FIN in p.flags {
          AcceptEarlyFin();
        } else {
          WriteToReadBuffer(p.data);
        }
        label Popping:
        assert forall i | 0 <= i < |q.items| :: q.items[i] in old(q.items);
        var item := HeapPop(q);
        assert forall x | x in q.items :: x in old@Popping(q.items) by {
          assert forall x | x in q.items :: x in multiset(q.items) + multiset{item};
        }
      }
    }

    method ParkEarlyArrival(p: Packet)
      requires Valid()
      modifies this, earlyArrivalQueue, earlyArrivalQueue.items
      ensures Valid() && State() == old(State()).(rx := ParkEarly(old(RxState()), p))
    {
      var item := new SegmentItem(Sub32(p.seqNum, remoteISN), p);
      HeapPush(earlyArrivalQueue, item);
    }

    method HandleText(p: Packet)
      requires Valid()
      modifies this, earlyArrivalQueue, earlyArrivalQueue.items
      ensures Valid()
      ensures var (state, rx) := AcceptText(old(connState), old(RxState()), p);
        State() == old(State()).(connState := state, rx := rx)
    {
      var rel := Sub32(p.seqNum, remoteISN);
      if nextExpectedByte == rel {
        if |p.data| <= Free(readBuffer) {
          WriteToReadBuffer(p.data);
          DrainEarlyArrivals();
        }
      } else if nextExpectedByte < rel {
        ParkEarlyArrival(p);
      }
    }

    method HandleAckSegment(p: Packet) returns (out: seq<Packet>)
      requires Valid() && !isClosed
      modifies this, earlyArrivalQueue, earlyArrivalQueue.items
      ensures Valid() && (State(), out) == HandleAck(old(State()), p)
    {
      out := [];
      if largestAck < p.ackNum && p.ackNum <= nextSequenceNumber {
        largestAck := p.ackNum;
        var closed := PruneQueue();
        if closed { return; }
      } else if p.ackNum > nextSequenceNumber {
        return;
      }
      UpdateSendWindow(p);
      if |p.data| == 0 { return; }
      HandleText(p);
      out := [Segment(State(), {ACK}, [])];
    }

    method HandleFinSegment(p: Packet) returns (out: seq<Packet>)
      requires Valid()
      modifies this, earlyArrivalQueue, earlyArrivalQueue.items
      ensures Valid() && (State(), out) == HandleFin(old(State()), p)
    {
      out := [];
      var rel := Sub32(p.seqNum, remoteISN);
      if nextExpectedByte == rel {
        var ack := Add32(Add32(remoteISN, nextExpectedByte), 1);
        out := [Packet(NextSeqNum(TxState()), ack, {ACK}, Window(RxState()), [])];
        match connState {
          case ESTABLISHED => connState := CLOSE_WAIT;
          case FIN_WAIT_1 => connState := if ACK in p.flags then TIME_WAIT else CLOSING;
          case FIN_WAIT_2 => connState := TIME_WAIT;
          case _ =>
        }
      } else if nextExpectedByte < rel {
        ParkEarlyArrival(p);
      }
    }

    /** One packet off the socket's channel. */
    method HandlePacket(p: Packet) returns (out: seq<Packet>)
      requires Valid() && !isClosed
      modifies this, earlyArrivalQueue, earlyArrivalQueue.items
      ensures Valid() && (State(), out) == HandleTCPPacket(old(State()), p)
    {
      if p.flags == {ACK} {
        out := HandleAckSegment(p);
      } else if FIN in p.flags {
        out := HandleFinSegment(p);
      } else {
        out := [];
      }
    }

    // ---------- HandleVWrite and HandleRT ----------

    // NumberBytesSent and NextSequenceNumber move together.
    method AdvanceSequence(n: U32)
      requires Valid()
      modifies this
      ensures Valid() && State() == old(State()).(tx := old(TxState()).(
        numberBytesSent := Add32(old(numberBytesSent), n), nextSequenceNumber := Add32(old(nextSequenceNumber), n)))
    {
      numberBytesSent := Add32(numberBytesSent, n);
      nextSequenceNumber := Add32(nextSequenceNumber, n);
    }

    method SendFinPacket() returns (out: seq<Packet>)
      requires Valid()
      modifies this
      ensures Valid() && (State(), out) == SendFin(old(State()))
    {
      var fin := Segment(State(), {FIN}, []);
      AdvanceSequence(1);
      rtQueue := rtQueue + [Entry(fin.seqNum, fin)];
      writer := Done;
      out := [fin];
    }

    // The probe's byte leaves the write buffer and is counted as in flight.
    method HoldProbe(probe: Packet)
      requires Valid() && writeBuffer != []
      modifies this
      ensures Valid() && State() == old(State()).(tx := old(TxState()).(
        writeBuffer := old(writeBuffer)[1..], zwpMode := true, zwpSeq := probe.seqNum,
        bytesInFlight := Add16(old(bytesInFlight), 1), writer := Probing(probe)))
    {
      zwpMode, zwpSeq, writer := true, probe.seqNum, Probing(probe);
      writeBuffer := writeBuffer[1..];
      bytesInFlight := Add16(bytesInFlight, 1);
    }

    method EnterProbing() returns (out: seq<Packet>)
      requires Valid() && writeBuffer != []
      modifies this
      ensures Valid() && (State(), out) == SendProbe(old(State()))
    {
      var probe := Segment(State(), {ACK}, writeBuffer[..1]);
      AdvanceSequence(1);
      HoldProbe(probe);
      out := [probe];
    }

    // The body of that loop: one segment off the front of the payload.
    method CutSegment(payload: seq<Byte>) returns (p: Packet, rest: seq<Byte>)
      requires Valid() && writer == Sending(payload) && payload != []
      modifies this
      ensures Valid() && (State(), [p]) == SendSegment(old(State()))
      ensures rest == payload[Min(MAX_SEGMENT_SIZE, |payload|)..]
    {
      var size := Min(MAX_SEGMENT_SIZE, |payload|);
      p := Segment(State(), {ACK}, payload[..size]);
      rest := payload[size..];
      AdvanceSequence(size);
      rtQueue, bytesInFlight := rtQueue + [Entry(p.seqNum, p)], Add16(bytesInFlight, size);
      writer := if rest == [] then Idle else Sending(rest);
    }

    // The loop that cuts a burst into segments of at most MAX_SEGMENT_SIZE bytes.
    method CutBurst(bytes: seq<Byte>) returns (out: seq<Packet>)
      requires Valid() && writer == Sending(bytes) && bytes != []
      modifies this
      ensures Valid() && (State(), out) == SendBurst(old(State()))
    {
      ghost var start := State();
      var payload := bytes;
      out := [];
      assert out + SendBurst(start).1 == SendBurst(start).1;
      while |payload| > 0
        invariant Valid() && writer == (if payload == [] then Idle else Sending(payload))
        invariant SendBurst(start) == (SendBurst(State()).0, out + SendBurst(State()).1)
        decreases |payload|
      {
        ghost var before, sent := State(), out;
        var p;
        p, payload := CutSegment(payload);
        BurstStep(before, State(), p);
        out := out + [p];
        assert sent + ([p] + SendBurst(State()).1) == out + SendBurst(State()).1;
      }
      assert out + [] == out;
    }

    lemma BurstStep(s: Sock, t: Sock, p: Packet)
      requires s.tx.writer.Sending? && s.tx.writer.payload != [] && (t, [p]) == SendSegment(s)
      ensures SendBurst(s) == (SendBurst(t).0, [p] + SendBurst(t).1)
    {
    }

    // Where no burst is started, the iteration is over.
    lemma NoBurst(s: Sock)
      requires !StartIteration(s).0.tx.writer.Sending?
      ensures WriterIteration(s) == StartIteration(s)
    {
      assert StartIteration(s).1 + [] == StartIteration(s).1;
    }

    lemma BurstIteration(s: Sock, t: Sock)
      requires StartIteration(s) == (t, [])
      ensures WriterIteration(s) == SendBurst(t)
    {
      assert [] + SendBurst(t).1 == SendBurst(t).1;
    }

    // The bytes of the next burst, taken out of the write buffer.
    method TakePayload() returns (payload: seq<Byte>)
      requires Valid() && writeBuffer != [] && remoteWindowSize - bytesInFlight > 0
      modifies this
      ensures Valid() && StartIteration(old(State())) == (State(), [])
      ensures payload != [] && writer == Sending(payload)
    {
      var size := Min(remoteWindowSize, |writeBuffer|);
      payload := writeBuffer[..size];
      writer, writeBuffer := Sending(payload), writeBuffer[size..];
    }

    /** One iteration of the HandleVWrite loop. */
    method WriteIteration() returns (out: seq<Packet>)
      requires Valid() && writer.Idle?
      modifies this
      ensures Valid() && (State(), out) == WriterIteration(old(State()))
    {
      if writeBuffer == [] {
        NoBurst(State());
        if connState != ESTABLISHED {
          out := SendFinPacket();
        } else {
          out := [];
        }
      } else if remoteWindowSize - bytesInFlight > 0 {
        ghost var before := State();
        var payload := TakePayload();
        BurstIteration(before, State());
        out := CutBurst(payload);
      } else {
        NoBurst(State());
        out := EnterProbing();
      }
    }

    /** HandleRT when the timer expires: the head of the queue is sent again, and only it. */
    method HandleTimeout() returns (out: seq<Packet>)
      requires Valid()
      ensures out == RetransmitHead(State())
    {
      out := [];
      if |rtQueue| >= 1 {
        out := [rtQueue[0].packet];
      }
    }

    // ---------- Application calls ----------

    /** VRead up to the point where it returns or blocks. */
    method VRead(n: nat) returns (r: ReadResult)
      requires Valid()
      modifies this
      ensures Valid()
      ensures IsClosing(old(connState)) ==> r == SocketClosing
      ensures !IsClosing(old(connState)) && old(readBuffer) != [] ==> r == Bytes(ReadChunk(old(RxState()), n).1)
      ensures !IsClosing(old(connState)) && old(readBuffer) == [] ==>
        r == (if old(connState) == ESTABLISHED then WouldWait else NotEstablished)
      ensures State() == if r.Bytes? then old(State()).(rx := ReadChunk(old(RxState()), n).0) else old(State())
      ensures r.Bytes? ==> r.data + readBuffer == old(readBuffer) && |r.data| <= n
      ensures r.Bytes? ==> |r.data| == n || readBuffer == []
    {
      if IsClosing(connState) { return SocketClosing; }
      if readBuffer != [] {
        var m := Min(n, |readBuffer|);
        r := Bytes(readBuffer[..m]);
        readBuffer := readBuffer[m..];
      } else if connState == ESTABLISHED {
        r := WouldWait;
      } else {
        r := NotEstablished;
      }
    }

    /** One turn of the VWrite loop, with data left to write; `full` is the error of a buffer that is
        still full when the wait ends. */
    method VWriteTurn(data: seq<Byte>) returns (n: nat, full: bool)
      requires Valid() && |writeBuffer| <= MAX_BUFFER_SIZE && data != []
      modifies this
      ensures Valid() && (TxState(), n) == WriteChunk(old(TxState()), data)
      ensures State() == old(State()).(tx := TxState()) && |writeBuffer| <= MAX_BUFFER_SIZE
      ensures n <= |data| && writeBuffer == old(writeBuffer) + data[..n]
      ensures full <==> |old(writeBuffer)| == MAX_BUFFER_SIZE
      ensures full ==> n == 0 && State() == old(State())
      ensures !full ==> n > 0 && (n == |data| || |writeBuffer| == MAX_BUFFER_SIZE)
    {
      full := Free(writeBuffer) == 0;
      n := Min(Free(writeBuffer), |data|);
      writeBuffer := writeBuffer + data[..n];
    }

    method VClose() returns (ok: bool)
      requires Valid()
      modifies this
      ensures Valid() && State() == old(State()).(connState := Close(old(connState)))
      ensures ok <==> old(connState) in {SYN_SENT, ESTABLISHED, CLOSE_WAIT}
    {
      match connState {
        case ESTABLISHED => connState := FIN_WAIT_1; ok := true;
        case CLOSE_WAIT => connState := LAST_ACK; ok := true;
        case SYN_SENT => ok := true;
        case _ => ok := false;
      }
    }

    // ---------- Handshake ----------

    /** VConnect when the first packet for its socket arrives. */
    method FinishConnect(p: Packet) returns (ack: Option<Packet>)
      requires Valid()
      modifies this
      ensures Valid()
      ensures match ConnectReply(old(State()), p)
        case Some((s, a)) => State() == s && ack == Some(a)
        case None => State() == old(State()) && ack == None
      ensures ack.Some? <==> p.flags == {SYN, ACK} && p.ackNum == (initSeqNum + 1) % TWO_32
      ensures ack.Some? ==> ack.value == Packet(p.ackNum, (p.seqNum + 1) % TWO_32, {ACK}, 65535, [])
      ensures ack.Some? ==> connState == ESTABLISHED && remoteISN == p.seqNum && nextExpectedByte == 1
                            && largestAck == p.ackNum && remoteWindowSize == p.window
    {
      if p.flags != {SYN, ACK} || p.ackNum != Add32(initSeqNum, 1) { return None; }
      remoteISN := p.seqNum;
      nextExpectedByte := 1;
      largestAck := p.ackNum;
      ack := Some(HandshakeAck(p));
      connState := ESTABLISHED;
      remoteWindowSize := p.window;
    }

    /** VAccept up to its SYN-ACK, from the first packet of its listener. */
    static method BeginAccept(p: Packet, initSeqNum: U32) returns (r: Option<(TCPSocket, Packet)>)
      ensures r.Some? <==> p.flags == {SYN}
      ensures r.Some? ==> fresh(r.value.0) && r.value.0.Valid()
      ensures r.Some? ==> AcceptSyn(p, initSeqNum) == Some((r.value.0.State(), r.value.1))
      ensures r.Some? ==> r.value.1 == Packet(initSeqNum, (p.seqNum + 1) % TWO_32, {SYN, ACK}, 65535, [])
    {
      if p.flags != {SYN} { return None; }
      var socket := new TCPSocket(SYN_RECEIVED, p.seqNum, initSeqNum);
      socket.nextExpectedByte := 1;
      socket.connState := SYN_SENT;
      r := Some((socket, SynAckPacket(initSeqNum, p)));
    }

    /** VAccept when the next packet for its socket arrives. */
    method FinishAccept(p: Packet) returns (ok: bool)
      requires Valid()
      modifies this
      ensures Valid() && ok == AcceptReply(old(State()), p).Some?
      ensures State() == if ok then AcceptReply(old(State()), p).value else old(State())
      ensures ok <==> && p.flags == {ACK} && p.seqNum == (old(remoteISN) + 1) % TWO_32
                      && p.ackNum == (initSeqNum + 1) % TWO_32
      ensures ok ==> connState == ESTABLISHED && remoteWindowSize == p.window
    {
      if p.flags != {ACK} || p.seqNum != Add32(remoteISN, 1) || p.ackNum != Add32(initSeqNum, 1) { return false; }
      connState := ESTABLISHED;
      remoteWindowSize := p.window;
      ok := true;
    }
  }
}
