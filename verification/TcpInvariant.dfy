/** The invariant of one direction of the connection, from a sending endpoint to a
    receiving one. It holds in both directions of every reachable world. */
module TcpInvariant {
  import opened Words
  import opened SegmentHeap
  import opened Sockets
  import opened TcpNetwork

  /** What the receiving side can learn of the sender: its stream so far, how much of it has
      been sent, where it was cut into segments, and whether the FIN has been sent. */
  datatype Sent = Sent(isn: int, wrote: seq<Byte>, sent: int, cuts: set<int>, fin: bool)

  function SentBy(e: Endpoint): Sent {
    Sent(e.sock.tx.initSeqNum, e.wrote, SentBytes(e.sock.tx), e.cuts, e.sock.tx.writer.Done?)
  }

  ghost predicate SentOk(v: Sent) {
    && 0 <= v.isn && 0 <= v.sent <= |v.wrote| && v.isn + |v.wrote| + 2 < TWO_32
    && 0 in v.cuts && v.sent in v.cuts
    && (forall c | c in v.cuts :: c <= v.sent)
  }

  // No segment was ever cut strictly inside [from, to).
  ghost predicate Uncut(v: Sent, from: int, to: int) {
    forall c | c in v.cuts :: c <= from || to <= c
  }

  ghost predicate IsDataSegment(v: Sent, p: Packet) {
    var from := p.seqNum - v.isn - 1;
    var to := from + |p.data|;
    && p.flags == {ACK} && 0 <= from < to <= v.sent <= |v.wrote|
    && p.data == v.wrote[from..to]
    && from in v.cuts && to in v.cuts && Uncut(v, from, to)
  }

  ghost predicate IsFin(v: Sent, p: Packet) {
    p.flags == {FIN} && p.data == [] && v.fin && p.seqNum == v.isn + 1 + v.sent
  }

  // Every packet of the sender is a piece of its stream, its FIN, or carries no text.
  ghost predicate PacketOk(v: Sent, p: Packet) {
    IsDataSegment(v, p) || IsFin(v, p) || (p.data == [] && FIN !in p.flags)
  }

  ghost predicate CarriesText(p: Packet) { p.data != [] || FIN in p.flags }

  // ---------- Retransmission queue ----------

  // The items of q abut in sequence order and cover [from, to).
  ghost predicate Chain(q: seq<Entry>, from: int, to: int)
    decreases |q|
  {
    if q == [] then from == to else q[0].priority == from && Chain(q[1..], End(q[0]), to)
  }

  function DataInQueue(q: seq<Entry>): nat
    decreases |q|
  {
    if q == [] then 0 else |q[0].packet.data| + DataInQueue(q[1..])
  }

  // SND.UNA; the accepting side leaves LargestAck at 0 until the first ACK.
  function Unacked(tx: Tx): int {
    if tx.largestAck > tx.initSeqNum then tx.largestAck else tx.initSeqNum + 1
  }

  // First sequence number after the queued data.
  function QueueEnd(tx: Tx): int {
    tx.initSeqNum + 1 + SentBytes(tx) - (if tx.writer.Probing? then 1 else 0)
  }

  ghost predicate QueueShape(s: Sock) {
    var q := s.tx.rtQueue;
    if q == [] then QueueEnd(s.tx) <= Unacked(s.tx)
    else
      && Chain(q, q[0].priority, QueueEnd(s.tx))
      && (if s.connState == CLOSED then q[0].priority <= Unacked(s.tx) else q[0].priority == Unacked(s.tx))
  }

  ghost predicate QueueItemOk(out: set<Packet>, e: Entry) {
    e.packet in out && e.priority == e.packet.seqNum && CarriesText(e.packet)
  }

  function Payload(writer: Writer): seq<Byte> {
    if writer.Sending? then writer.payload else []
  }

  ghost predicate WriterOk(tx: Tx, v: Sent, out: set<Packet>) {
    && tx.zwpMode == tx.writer.Probing?
    && (tx.writer.Sending? ==> tx.writer.payload != [])
    && (tx.writer.Probing? ==>
          var p := tx.writer.probe;
          p in out && |p.data| == 1 && p.seqNum == tx.zwpSeq == v.isn + v.sent)
  }

  // All of the sender's bookkeeping except where the queue starts.
  ghost predicate TxCore(s: Sock, v: Sent, out: set<Packet>) {
    var tx := s.tx;
    && tx.initSeqNum == v.isn && SentBytes(tx) == v.sent && v.fin == tx.writer.Done?
    && tx.nextSequenceNumber == v.isn + 1 + tx.numberBytesSent
    && 0 <= v.sent <= |v.wrote| && v.wrote[v.sent..] == Payload(tx.writer) + tx.writeBuffer
    && |tx.writeBuffer| <= MAX_BUFFER_SIZE
    && WriterOk(tx, v, out)
    && (forall e | e in tx.rtQueue :: QueueItemOk(out, e))
    && tx.bytesInFlight == (DataInQueue(tx.rtQueue) + (if tx.zwpMode then 1 else 0)) % TWO_16
    && (s.connState == CLOSED ==> s.isClosed)
  }

  ghost predicate TxOk(s: Sock, v: Sent, out: set<Packet>) {
    TxCore(s, v, out) && QueueShape(s)
  }

  // ---------- Receiver ----------

  ghost predicate EarlyOk(v: Sent, out: set<Packet>, e: Entry) {
    e.packet in out && e.priority == e.packet.seqNum - v.isn && CarriesText(e.packet)
  }

  ghost predicate RxOk(v: Sent, rx: Rx, out: set<Packet>) {
    && rx.remoteISN == v.isn
    && 1 <= rx.nextExpectedByte <= v.sent + 1
    && rx.nextExpectedByte - 1 in v.cuts
    && |rx.readBuffer| <= MAX_BUFFER_SIZE
    && Ordered(rx.earlyArrivals)
    && (forall e | e in rx.earlyArrivals :: EarlyOk(v, out, e))
  }

  // The receiver holds or has handed out exactly the stream up to NextExpectedByte.
  ghost predicate InOrder(v: Sent, rx: Rx, read: seq<Byte>) {
    0 <= rx.nextExpectedByte - 1 <= |v.wrote| && read + rx.readBuffer == v.wrote[..rx.nextExpectedByte - 1]
  }

  predicate HasSeenFin(state: ConnState) {
    state in {CLOSE_WAIT, CLOSING, LAST_ACK, TIME_WAIT, CLOSED}
  }

  predicate BelievesFinAcked(state: ConnState) {
    state in {FIN_WAIT_2, TIME_WAIT, CLOSED}
  }

  // The whole stream before the FIN, and the FIN has been sent.
  predicate Complete(v: Sent, next: int) { v.fin && next == v.sent + 1 }

  /** An acknowledgment number the receiver at `next` may have sent. */
  ghost predicate AckOk(v: Sent, next: int, ack: int) {
    var a := ack - v.isn - 1;
    (0 <= a && a in v.cuts && a < next) || (a == v.sent + 1 && Complete(v, next))
  }

  ghost predicate AcksOk(v: Sent, next: int, back: set<Packet>) {
    forall p | p in back && p.flags == {ACK} :: AckOk(v, next, p.ackNum)
  }

  // No sequence number is used for two different segments: a retransmission is the same packet.
  ghost predicate OneSegmentation(out: set<Packet>) {
    forall p, q | p in out && q in out && CarriesText(p) && CarriesText(q) && p.seqNum == q.seqNum :: p == q
  }

  ghost predicate SenderFlow(e: Endpoint, next: int, out: set<Packet>) {
    var v := SentBy(e);
    && SentOk(v) && next <= v.sent + 1
    && (forall p | p in out :: PacketOk(v, p)) && OneSegmentation(out)
    && TxOk(e.sock, v, out)
    && (e.sock.tx.largestAck == 0 || AckOk(v, next, e.sock.tx.largestAck))
    && (BelievesFinAcked(e.sock.connState) ==> Complete(v, next))
  }

  ghost predicate ReceiverFlow(v: Sent, r: Sock, out: set<Packet>, back: set<Packet>) {
    && RxOk(v, r.rx, out)
    && AcksOk(v, r.rx.nextExpectedByte, back)
    && (HasSeenFin(r.connState) ==> Complete(v, r.rx.nextExpectedByte))
  }

  /** `out` are the packets sent by `snd`, `back` those sent by `rcv`. */
  ghost predicate Flow(snd: Endpoint, rcv: Endpoint, out: set<Packet>, back: set<Packet>) {
    && SenderFlow(snd, rcv.sock.rx.nextExpectedByte, out)
    && ReceiverFlow(SentBy(snd), rcv.sock, out, back)
  }

  ghost predicate Inv(w: World) {
    Flow(w.a, w.b, w.toB, w.toA) && Flow(w.b, w.a, w.toA, w.toB)
  }
}
