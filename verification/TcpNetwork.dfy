/** Two endpoints joined by a network that may drop, duplicate, delay and reorder what is
    sent but never corrupts it: every packet ever sent may be delivered at any later time,
    any number of times or never. */
module TcpNetwork {
  import opened Words
  import opened SegmentHeap
  import opened Sockets

  // A is the side that called VConnect, B the side that called VAccept.
  datatype Side = A | B

  function Other(side: Side): Side { if side == A then B else A }

  // Accepting: VAccept is waiting for the final ACK. Abandoned: VAccept has returned an error.
  datatype Phase = Accepting | Running | Abandoned

  /** An endpoint, with the history needed to state what the protocol promises: every byte
      VWrite ever put into the write buffer, every byte VRead ever returned, and the stream
      offsets at which segments were cut. */
  datatype Endpoint = Endpoint(
    sock: Sock, phase: Phase, wrote: seq<Byte>, read: seq<Byte>, cuts: set<int>)

  datatype Event =
    | Deliver(packet: Packet)      // HandleTCPPacket, or the wait inside VAccept
    | WriterStep                   // HandleVWrite: next iteration or next segment of a burst
    | ProbeAgain                   // HandleVWrite: the zero-window loop sends its probe again
    | RetransmitTimeout            // HandleRT
    | AppWrite(data: seq<Byte>)    // one turn of the VWrite loop
    | AppRead(n: nat)              // the read of VRead
    | AppClose                     // VClose

  datatype World = World(a: Endpoint, b: Endpoint, toA: set<Packet>, toB: set<Packet>)
  {
    function End(side: Side): Endpoint { if side == A then a else b }
    function Inbox(side: Side): set<Packet> { if side == A then toA else toB }
    function Outbox(side: Side): set<Packet> { if side == A then toB else toA }
  }

  function SentBytes(tx: Tx): int { tx.numberBytesSent - (if tx.writer.Done? then 1 else 0) }

  predicate Enabled(e: Endpoint, inbox: set<Packet>, ev: Event) {
    match ev
    case Deliver(p) => p in inbox && e.phase != Abandoned && !e.sock.isClosed
    case WriterStep => e.phase == Running
    case _ => true
  }

  function Perform(e: Endpoint, ev: Event): (Endpoint, seq<Packet>) {
    match ev
    case Deliver(p) =>
      if e.phase == Running then
        var (s, out) := HandleTCPPacket(e.sock, p);
        (e.(sock := s), out)
      else
        (match AcceptReply(e.sock, p)
         case Some(s) => (e.(sock := s, phase := Running), [])
         case None => (e.(phase := Abandoned), []))
    case WriterStep =>
      var (s, out) := match e.sock.tx.writer
        case Idle => StartIteration(e.sock)
        case Sending(_) => SendSegment(e.sock)
        case _ => (e.sock, []);
      (e.(sock := s, cuts := e.cuts + {SentBytes(s.tx)}), out)
    case ProbeAgain => (e, ResendProbe(e.sock))
    case RetransmitTimeout => (e, RetransmitHead(e.sock))
    case AppWrite(data) =>
      var (tx, n) := WriteChunk(e.sock.tx, data);
      (e.(sock := e.sock.(tx := tx), wrote := e.wrote + data[..n]), [])
    case AppRead(n) =>
      var (rx, bytes) := ReadChunk(e.sock.rx, n);
      (e.(sock := e.sock.(rx := rx), read := e.read + bytes), [])
    case AppClose => (e.(sock := e.sock.(connState := Close(e.sock.connState))), [])
  }

  function Packets(out: seq<Packet>): set<Packet> { set p | p in out }

  /** An event that is not enabled changes nothing. */
  function Step(w: World, side: Side, ev: Event): World {
    if !Enabled(w.End(side), w.Inbox(side), ev) then w
    else
      var (e, out) := Perform(w.End(side), ev);
      if side == A then w.(a := e, toB := w.toB + Packets(out))
      else w.(b := e, toA := w.toA + Packets(out))
  }

  type Run = seq<(Side, Event)>

  function Exec(w: World, run: Run): World
    decreases |run|
  {
    if run == [] then w else Exec(Step(w, run[0].0, run[0].1), run[1..])
  }

  /** The connecting side has just handled the SYN-ACK; the accepting side awaits its ACK. */
  function Connected(isnA: U32, isnB: U32): World {
    var syn := SynPacket(isnA);
    var b := AcceptSyn(syn, isnB).value;
    var a := ConnectReply(MakeTCPSocket(SYN_SENT, 0, isnA), b.1).value;
    World(Endpoint(a.0, Running, [], [], {0}), Endpoint(b.0, Accepting, [], [], {0}),
          {b.1}, {syn, a.1})
  }

  // Sequence numbers stay below 2^32 for the whole stream, the FIN included.
  predicate NoWrap(e: Endpoint) { e.sock.tx.initSeqNum + |e.wrote| + 2 < TWO_32 }
}
