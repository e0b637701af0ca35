/** One TCP endpoint as a value: the fields of `TCPSocket` (pkg/tcp/types.go) and every
    handler of pkg/tcp/socket.go and pkg/tcp/api.go as a function from the state and a
    packet to the next state and the packets sent. Module `TcpSockets` proves the
    field-updating form against these functions. */
module Sockets {
  import opened Words
  import opened Wrappers
  import opened SegmentHeap

  const MAX_BUFFER_SIZE := 65535
  const MAX_SEGMENT_SIZE := 1024

  datatype ConnState =
    | CLOSED | LISTEN | SYN_SENT | SYN_RECEIVED | ESTABLISHED
    | FIN_WAIT_1 | FIN_WAIT_2 | CLOSE_WAIT | CLOSING | LAST_ACK | TIME_WAIT

  // Where the HandleVWrite goroutine stands, with the local variables it holds there.
  datatype Writer =
    | Idle                        // at the top of its loop
    | Sending(payload: seq<Byte>) // splitting bytes it has taken out of the write buffer
    | Probing(probe: Packet)      // in the zero-window loop
    | Done                        // returned after the FIN

  datatype Tx = Tx(
    initSeqNum: U32,
    numberBytesSent: U32,
    nextSequenceNumber: U32,
    largestAck: U32,
    remoteWindowSize: U16,
    lastSegmentSequenceNumber: U32,
    lastSegmentAckNumber: U32,
    writeBuffer: seq<Byte>,
    rtQueue: seq<Entry>,
    bytesInFlight: U16,
    zwpMode: bool,
    zwpSeq: U32,
    writer: Writer)

  datatype Rx = Rx(
    remoteISN: U32,
    nextExpectedByte: U32,
    readBuffer: seq<Byte>,
    earlyArrivals: seq<Entry>)

  datatype Sock = Sock(connState: ConnState, isClosed: bool, tx: Tx, rx: Rx)

  /** MakeTCPSocket, with the random initial sequence number as a parameter. */
  function MakeTCPSocket(connState: ConnState, remoteISN: U32, initSeqNum: U32): Sock {
    Sock(connState, false,
         Tx(initSeqNum, 0, Add32(initSeqNum, 1), 0, 0, remoteISN, 0, [], [], 0, false, 0, Idle),
         Rx(remoteISN, 0, [], []))
  }

  // Ring buffers are bounded FIFOs of MAX_BUFFER_SIZE bytes.
  function Free(buffer: seq<Byte>): int { MAX_BUFFER_SIZE - |buffer| }

  function Window(rx: Rx): U16 { Free(rx.readBuffer) % TWO_16 }

  function NextSeqNum(tx: Tx): U32 { Add32(Add32(tx.initSeqNum, tx.numberBytesSent), 1) }

  // The header every segment after the handshake carries.
  function Segment(s: Sock, flags: set<Flag>, data: seq<Byte>): Packet {
    Packet(NextSeqNum(s.tx), Add32(s.rx.nextExpectedByte, s.rx.remoteISN), flags, Window(s.rx), data)
  }

  // ---------- Sender side of an incoming segment ----------

  function End(e: Entry): int { e.priority + |e.packet.data| }

  /** Removes the fully acknowledged items at the front of the retransmission queue; a FIN
      counts as length 0. The LAST_ACK case returns out of HandleTCPPacket on the spot. */
  function Prune(s: Sock): Sock
    decreases |s.tx.rtQueue|
  {
    var q := s.tx.rtQueue;
    if |q| > 0 && End(q[0]) <= s.tx.largestAck then
      if FIN in q[0].packet.flags && s.connState == LAST_ACK then
        s.(connState := CLOSED, isClosed := true)
      else
        var state := if FIN in q[0].packet.flags && s.connState == FIN_WAIT_1 then FIN_WAIT_2 else s.connState;
        Prune(s.(connState := state,
                 tx := s.tx.(rtQueue := q[1..],
                             bytesInFlight := Sub16(s.tx.bytesInFlight, |q[0].packet.data| % TWO_16))))
    else s
  }

  function ProcessAck(s: Sock, ackNum: U32): Sock {
    if s.tx.largestAck < ackNum <= s.tx.nextSequenceNumber
    then Prune(s.(tx := s.tx.(largestAck := ackNum)))
    else s
  }

  predicate ShouldStopProbing(tx: Tx) {
    tx.zwpMode && Sub16(tx.bytesInFlight, 1) < tx.remoteWindowSize && tx.zwpSeq < tx.largestAck
  }

  // The rendezvous on the unbuffered ZWPStop channel is one step of both goroutines.
  function StopProbing(tx: Tx): Tx {
    tx.(zwpMode := false, bytesInFlight := Sub16(tx.bytesInFlight, 1), writer := Idle)
  }

  function UpdateWindow(tx: Tx, remoteISN: U32, p: Packet): Tx {
    var rel := Sub32(p.seqNum, remoteISN);
    if && tx.largestAck <= p.ackNum <= tx.nextSequenceNumber
       && (tx.lastSegmentSequenceNumber < rel
           || (tx.lastSegmentSequenceNumber == rel && tx.lastSegmentAckNumber <= p.ackNum))
    then
      var t := tx.(remoteWindowSize := p.window, lastSegmentSequenceNumber := rel, lastSegmentAckNumber := p.ackNum);
      if ShouldStopProbing(t) then StopProbing(t) else t
    else tx
  }

  // ---------- Receiver side of an incoming segment ----------

  /** WriteSegment. A ring buffer that is full refuses the data; one with too little room
      keeps what fits and reports an error, and NextExpectedByte then stays where it was. */
  function WriteSegment(rx: Rx, data: seq<Byte>): Rx {
    var free := Free(rx.readBuffer);
    if data == [] || free <= 0 then rx
    else if |data| > free then rx.(readBuffer := rx.readBuffer + data[..free])
    else rx.(readBuffer := rx.readBuffer + data, nextExpectedByte := Add32(rx.nextExpectedByte, |data| % TWO_32))
  }

  function StateAfterEarlyFin(state: ConnState): ConnState {
    match state
    case ESTABLISHED => CLOSE_WAIT
    case FIN_WAIT_1 => CLOSING
    case FIN_WAIT_2 => TIME_WAIT
    case _ => state
  }

  function StateAfterFin(state: ConnState, flags: set<Flag>): ConnState {
    match state
    case ESTABLISHED => CLOSE_WAIT
    case FIN_WAIT_1 => if ACK in flags then TIME_WAIT else CLOSING
    case FIN_WAIT_2 => TIME_WAIT
    case _ => state
  }

  /** Takes early arrivals off the heap while its root is the next expected segment. */
  function Drain(state: ConnState, rx: Rx): (ConnState, Rx)
    decreases |rx.earlyArrivals|
  {
    var h := rx.earlyArrivals;
    if |h| > 0 && rx.nextExpectedByte == h[0].priority then
      if FIN in h[0].packet.flags then
        Drain(StateAfterEarlyFin(state), rx.(earlyArrivals := PopEntry(h).1))
      else
        Drain(state, WriteSegment(rx, h[0].packet.data).(earlyArrivals := PopEntry(h).1))
    else (state, rx)
  }

  function ParkEarly(rx: Rx, p: Packet): Rx {
    rx.(earlyArrivals := PushEntry(rx.earlyArrivals, Entry(Sub32(p.seqNum, rx.remoteISN), p)))
  }

  function AcceptText(state: ConnState, rx: Rx, p: Packet): (ConnState, Rx) {
    var rel := Sub32(p.seqNum, rx.remoteISN);
    if rx.nextExpectedByte == rel then
      if |p.data| <= Free(rx.readBuffer) then Drain(state, WriteSegment(rx, p.data)) else (state, rx)
    else if rx.nextExpectedByte < rel then (state, ParkEarly(rx, p))
    else (state, rx)
  }

  function HandleAck(s: Sock, p: Packet): (Sock, seq<Packet>) {
    var s1 := ProcessAck(s, p.ackNum);
    if (s1.isClosed && !s.isClosed) || p.ackNum > s.tx.nextSequenceNumber then (s1, [])
    else
      var s2 := s1.(tx := UpdateWindow(s1.tx, s1.rx.remoteISN, p));
      if p.data == [] then (s2, [])
      else
        var (state, rx) := AcceptText(s2.connState, s2.rx, p);
        var s3 := s2.(connState := state, rx := rx);
        (s3, [Segment(s3, {ACK}, [])])
  }

  function HandleFin(s: Sock, p: Packet): (Sock, seq<Packet>) {
    var rel := Sub32(p.seqNum, s.rx.remoteISN);
    if s.rx.nextExpectedByte == rel then
      var ack := Add32(Add32(s.rx.remoteISN, s.rx.nextExpectedByte), 1);
      (s.(connState := StateAfterFin(s.connState, p.flags)),
       [Packet(NextSeqNum(s.tx), ack, {ACK}, Window(s.rx), [])])
    else if s.rx.nextExpectedByte < rel then (s.(rx := ParkEarly(s.rx, p)), [])
    else (s, [])
  }

  function HandleTCPPacket(s: Sock, p: Packet): (Sock, seq<Packet>) {
    if p.flags == {ACK} then HandleAck(s, p)
    else if FIN in p.flags then HandleFin(s, p)
    else (s, [])
  }

  // ---------- HandleVWrite, SendFinPacket and HandleRT ----------

  /** SendFinPacket: the FIN takes a sequence number and joins the retransmission queue. */
  function SendFin(s: Sock): (Sock, seq<Packet>) {
    var fin := Segment(s, {FIN}, []);
    (s.(tx := s.tx.(numberBytesSent := Add32(s.tx.numberBytesSent, 1),
                    nextSequenceNumber := Add32(s.tx.nextSequenceNumber, 1),
                    rtQueue := s.tx.rtQueue + [Entry(fin.seqNum, fin)],
                    writer := Done)), [fin])
  }

  function SendProbe(s: Sock): (Sock, seq<Packet>)
    requires s.tx.writeBuffer != []
  {
    var probe := Segment(s, {ACK}, s.tx.writeBuffer[..1]);
    (s.(tx := s.tx.(writeBuffer := s.tx.writeBuffer[1..],
                    numberBytesSent := Add32(s.tx.numberBytesSent, 1),
                    nextSequenceNumber := Add32(s.tx.nextSequenceNumber, 1),
                    zwpMode := true,
                    zwpSeq := probe.seqNum,
                    bytesInFlight := Add16(s.tx.bytesInFlight, 1),
                    writer := Probing(probe))), [probe])
  }

  /** The top of the HandleVWrite loop. A burst is limited by the whole remote window,
      although entering it is decided on the window minus the bytes in flight. */
  function StartIteration(s: Sock): (Sock, seq<Packet>) {
    var tx := s.tx;
    if tx.writeBuffer == [] then
      if s.connState != ESTABLISHED then SendFin(s) else (s, [])
    else if tx.remoteWindowSize - tx.bytesInFlight > 0 then
      var size := Min(tx.remoteWindowSize, |tx.writeBuffer|);
      (s.(tx := tx.(writeBuffer := tx.writeBuffer[size..], writer := Sending(tx.writeBuffer[..size]))), [])
    else SendProbe(s)
  }

  /** One turn of the loop that splits the payload into segments. */
  function SendSegment(s: Sock): (Sock, seq<Packet>)
    requires s.tx.writer.Sending?
  {
    var payload := s.tx.writer.payload;
    var size := Min(MAX_SEGMENT_SIZE, |payload|);
    var p := Segment(s, {ACK}, payload[..size]);
    var rest := payload[size..];
    (s.(tx := s.tx.(rtQueue := s.tx.rtQueue + [Entry(p.seqNum, p)],
                    bytesInFlight := Add16(s.tx.bytesInFlight, size),
                    numberBytesSent := Add32(s.tx.numberBytesSent, size),
                    nextSequenceNumber := Add32(s.tx.nextSequenceNumber, size),
                    writer := if rest == [] then Idle else Sending(rest))), [p])
  }

  // All remaining turns of that loop.
  function SendBurst(s: Sock): (Sock, seq<Packet>)
    decreases if s.tx.writer.Sending? then |s.tx.writer.payload| + 1 else 0
  {
    if s.tx.writer.Sending? && s.tx.writer.payload != [] then
      var (s1, out1) := SendSegment(s);
      var (s2, out2) := SendBurst(s1);
      (s2, out1 + out2)
    else (s, [])
  }

  /** One whole iteration of HandleVWrite without interference. */
  function WriterIteration(s: Sock): (Sock, seq<Packet>) {
    var (s1, out1) := StartIteration(s);
    var (s2, out2) := SendBurst(s1);
    (s2, out1 + out2)
  }

  /** What the goroutines of HandleVWrite do next in the zero-window loop, and HandleRT on a timeout. */
  function ResendProbe(s: Sock): seq<Packet> {
    if s.tx.writer.Probing? then [s.tx.writer.probe] else []
  }

  function RetransmitHead(s: Sock): seq<Packet> {
    if |s.tx.rtQueue| > 0 then [s.tx.rtQueue[0].packet] else []
  }

  // ---------- Application calls and the end of the handshake ----------

  /** One turn of the VWrite loop: as much of `data` as the write buffer has room for. */
  function WriteChunk(tx: Tx, data: seq<Byte>): (Tx, nat) {
    var n := if Free(tx.writeBuffer) < 0 then 0 else Min(Free(tx.writeBuffer), |data|);
    (tx.(writeBuffer := tx.writeBuffer + data[..n]), n)
  }

  /** The read of VRead, for a buffer of n bytes. */
  function ReadChunk(rx: Rx, n: nat): (Rx, seq<Byte>) {
    var m := Min(n, |rx.readBuffer|);
    (rx.(readBuffer := rx.readBuffer[m..]), rx.readBuffer[..m])
  }

  // The states VRead and VWrite refuse in: everything after ESTABLISHED.
  predicate IsClosing(state: ConnState) {
    state !in {CLOSED, LISTEN, SYN_SENT, SYN_RECEIVED, ESTABLISHED}
  }

  function Close(state: ConnState): ConnState {
    match state
    case ESTABLISHED => FIN_WAIT_1
    case CLOSE_WAIT => LAST_ACK
    case _ => state
  }

  function SynPacket(isn: U32): Packet { Packet(isn, 0, {SYN}, MAX_BUFFER_SIZE, []) }

  function SynAckPacket(isn: U32, syn: Packet): Packet {
    Packet(isn, Add32(syn.seqNum, 1), {SYN, ACK}, MAX_BUFFER_SIZE, [])
  }

  function HandshakeAck(synAck: Packet): Packet {
    Packet(synAck.ackNum, Add32(synAck.seqNum, 1), {ACK}, MAX_BUFFER_SIZE, [])
  }

  /** VConnect from the arrival of the first packet for its socket. */
  function ConnectReply(s: Sock, p: Packet): Option<(Sock, Packet)> {
    if p.flags != {SYN, ACK} || p.ackNum != Add32(s.tx.initSeqNum, 1) then None
    else Some((s.(connState := ESTABLISHED,
                  tx := s.tx.(largestAck := p.ackNum, remoteWindowSize := p.window),
                  rx := s.rx.(remoteISN := p.seqNum, nextExpectedByte := 1)),
               HandshakeAck(p)))
  }

  /** VAccept up to the SYN-ACK. */
  function AcceptSyn(p: Packet, isn: U32): Option<(Sock, Packet)> {
    if p.flags != {SYN} then None
    else
      var s := MakeTCPSocket(SYN_SENT, p.seqNum, isn);
      Some((s.(rx := s.rx.(nextExpectedByte := 1)), SynAckPacket(isn, p)))
  }

  /** VAccept from the arrival of the next packet for its socket. */
  function AcceptReply(s: Sock, p: Packet): Option<Sock> {
    if && p.flags == {ACK}
       && p.seqNum == Add32(s.rx.remoteISN, 1)
       && p.ackNum == Add32(s.tx.initSeqNum, 1)
    then Some(s.(connState := ESTABLISHED, tx := s.tx.(remoteWindowSize := p.window)))
    else None
  }
}
