/** The 16-bit count of bytes in flight: when it stays exact, and when it wraps. Entering a
    burst is decided on the window minus the bytes in flight, but the burst may fill the whole
    window, so up to twice the window can be outstanding; and a probe is sent on top of a full
    window. */
module TcpInFlight {
  import opened Words
  import opened SegmentHeap
  import opened Sockets
  import opened TcpNetwork
  import opened TcpInvariant
  import opened TcpSenderProofs
  import opened TcpRuns

  function Outstanding(tx: Tx): nat { DataInQueue(tx.rtQueue) + (if tx.zwpMode then 1 else 0) }

  /** BytesInFlight is exact, and what is outstanding or about to be sent is at most twice the window bound. */
  ghost predicate Bounded(tx: Tx, bound: nat) {
    && tx.bytesInFlight == Outstanding(tx) && tx.remoteWindowSize <= bound
    && tx.zwpMode == tx.writer.Probing? && (tx.writer.Sending? ==> tx.writer.payload != [])
    && Outstanding(tx) + |Payload(tx.writer)| <= (if tx.zwpMode then 2 * bound else 2 * bound - 1)
    && (forall e | e in tx.rtQueue :: |e.packet.data| < TWO_16)
  }

  lemma {:induction false} PruneBounded(s: Sock, bound: nat)
    requires Bounded(s.tx, bound) && bound <= 32767
    ensures Bounded(Prune(s).tx, bound)
    decreases |s.tx.rtQueue|
  {
    var q := s.tx.rtQueue;
    if |q| > 0 && End(q[0]) <= s.tx.largestAck && !(FIN in q[0].packet.flags && s.connState == LAST_ACK) {
      PruneBounded(DropHead(s), bound);
    }
  }

  lemma AckBounded(s: Sock, p: Packet, bound: nat)
    requires Bounded(s.tx, bound) && bound <= 32767 && p.window <= bound
    ensures Bounded(HandleAck(s, p).0.tx, bound)
  {
    PruneBounded(s.(tx := s.tx.(largestAck := p.ackNum)), bound);
    var s1 := ProcessAck(s, p.ackNum);
    assert Bounded(UpdateWindow(s1.tx, s1.rx.remoteISN, p), bound);
  }

  lemma SegmentBounded(s: Sock, bound: nat)
    requires Bounded(s.tx, bound) && bound <= 32767 && s.tx.writer.Sending?
    ensures Bounded(SendSegment(s).0.tx, bound)
  {
    var r := SendSegment(s).0;
    var item := r.tx.rtQueue[|s.tx.rtQueue|];
    DataAppend(s.tx.rtQueue, item);
    assert r.tx.rtQueue == s.tx.rtQueue + [item];
  }

  lemma StartBounded(s: Sock, bound: nat)
    requires Bounded(s.tx, bound) && 1 <= bound <= 32767 && s.tx.writer.Idle?
    ensures Bounded(StartIteration(s).0.tx, bound)
  {
    if s.tx.writeBuffer == [] && s.connState != ESTABLISHED {
      var fin := Segment(s, {FIN}, []);
      DataAppend(s.tx.rtQueue, Entry(fin.seqNum, fin));
    }
  }

  lemma EventBounded(e: Endpoint, inbox: set<Packet>, ev: Event, bound: nat)
    requires Bounded(e.sock.tx, bound) && 1 <= bound <= 32767 && Enabled(e, inbox, ev)
    requires ev.Deliver? ==> ev.packet.window <= bound
    ensures Bounded(Perform(e, ev).0.sock.tx, bound)
  {
    match ev
    case Deliver(p) => if e.phase == Running && p.flags == {ACK} { AckBounded(e.sock, p, bound); }
    case WriterStep =>
      if e.sock.tx.writer.Sending? { SegmentBounded(e.sock, bound); }
      else if e.sock.tx.writer.Idle? { StartBounded(e.sock, bound); }
    case _ =>
  }

  // One endpoint driven by any events, whatever its peer and the network do.
  function PerformAll(e: Endpoint, events: seq<Event>): Endpoint
    decreases |events|
  {
    if events == [] then e
    else PerformAll(if Enabled(e, Offered(events[0]), events[0]) then Perform(e, events[0]).0 else e, events[1..])
  }

  function Offered(ev: Event): set<Packet> { if ev.Deliver? then {ev.packet} else {} }

  /** If no window is ever advertised above a bound of at most 32767, at most twice the bound is
      outstanding after any events, and the 16-bit counter is the true count: it never wraps up,
      and no subtraction from it underflows. */
  lemma {:induction false} InFlightAtMostTwiceWindow(e: Endpoint, events: seq<Event>, bound: nat)
    requires Bounded(e.sock.tx, bound) && 1 <= bound <= 32767
    requires forall i | 0 <= i < |events| && events[i].Deliver? :: events[i].packet.window <= bound
    ensures var tx := PerformAll(e, events).sock.tx;
      Bounded(tx, bound) && tx.bytesInFlight == Outstanding(tx) <= 2 * bound
    decreases |events|
  {
    if events != [] {
      var f := if Enabled(e, Offered(events[0]), events[0]) then Perform(e, events[0]).0 else e;
      if Enabled(e, Offered(events[0]), events[0]) { EventBounded(e, Offered(events[0]), events[0], bound); }
      InFlightAtMostTwiceWindow(f, events[1..], bound);
    }
  }

  // An endpoint that has called VConnect and is given this reply.
  function ConnectedBy(isn: U32, p: Packet): Endpoint
    requires ConnectReply(MakeTCPSocket(SYN_SENT, 0, isn), p).Some?
  {
    Endpoint(ConnectReply(MakeTCPSocket(SYN_SENT, 0, isn), p).value.0, Running, [], [], {0})
  }

  // An endpoint that VAccept has made for this SYN, with its final ACK still to come.
  function AcceptedBy(isn: U32, syn: Packet): Endpoint
    requires AcceptSyn(syn, isn).Some?
  {
    Endpoint(AcceptSyn(syn, isn).value.0, Accepting, [], [], {0})
  }

  /** An endpoint comes out of VConnect within the bound if and only if the SYN-ACK's window does, and
      VAccept's socket is within every bound. */
  lemma HandshakeBoundedIff(isn: U32, p: Packet, bound: nat)
    requires 1 <= bound
    ensures ConnectReply(MakeTCPSocket(SYN_SENT, 0, isn), p).Some? ==>
      (Bounded(ConnectedBy(isn, p).sock.tx, bound) <==> p.window <= bound)
    ensures AcceptSyn(p, isn).Some? ==> Bounded(AcceptedBy(isn, p).sock.tx, bound)
  {
    assert DataInQueue([]) == 0;
  }

  // An endpoint of either side as the handshake makes it, the SYN-ACK's window being within the bound.
  ghost predicate FromHandshake(e: Endpoint, bound: nat) {
    || (exists isn: U32, p: Packet ::
          ConnectReply(MakeTCPSocket(SYN_SENT, 0, isn), p).Some? && p.window <= bound && e == ConnectedBy(isn, p))
    || (exists isn: U32, syn: Packet :: AcceptSyn(syn, isn).Some? && e == AcceptedBy(isn, syn))
  }

  /** From the handshake on, for the connecting and the accepting side: if no segment, the SYN-ACK and
      the final ACK included, advertises more than the bound, the bound on what is outstanding and the
      exactness of the counter hold after any events. */
  lemma InFlightFromHandshake(e: Endpoint, events: seq<Event>, bound: nat)
    requires 1 <= bound <= 32767 && FromHandshake(e, bound)
    requires forall i | 0 <= i < |events| && events[i].Deliver? :: events[i].packet.window <= bound
    ensures var tx := PerformAll(e, events).sock.tx; tx.bytesInFlight == Outstanding(tx) <= 2 * bound
  {
    assert Bounded(e.sock.tx, bound) by {
      forall isn: U32, p: Packet { HandshakeBoundedIff(isn, p, bound); }
    }
    InFlightAtMostTwiceWindow(e, events, bound);
  }

  // ---------- Wrap-around ----------

  lemma SegmentSends(s: Sock)
    requires s.tx.writer.Sending? && s.tx.writer.payload != []
    ensures var t := SendSegment(s).0; var size := Min(MAX_SEGMENT_SIZE, |s.tx.writer.payload|);
      && Outstanding(t.tx) == Outstanding(s.tx) + size
      && |Payload(t.tx.writer)| == |s.tx.writer.payload| - size
      && t.tx.bytesInFlight == (s.tx.bytesInFlight + size) % TWO_16
      && (t.tx.writer.Sending? ==> t.tx.writer.payload != [])
  {
    var p := SendSegment(s).1[0];
    DataAppend(s.tx.rtQueue, Entry(p.seqNum, p));
  }

  lemma ModAdd(x: int, y: int, z: int)
    ensures ((x + y) % TWO_16 + z) % TWO_16 == (x + y + z) % TWO_16
  {
  }

  lemma {:induction false} BurstSends(s: Sock)
    requires s.tx.writer.Sending? ==> s.tx.writer.payload != []
    ensures var r := SendBurst(s).0;
      && !r.tx.writer.Sending? && Outstanding(r.tx) == Outstanding(s.tx) + |Payload(s.tx.writer)|
      && r.tx.bytesInFlight == (s.tx.bytesInFlight + |Payload(s.tx.writer)|) % TWO_16
    decreases |Payload(s.tx.writer)|
  {
    if s.tx.writer.Sending? {
      SegmentSends(s);
      var t := SendSegment(s).0;
      BurstSends(t);
      ModAdd(s.tx.bytesInFlight, Min(MAX_SEGMENT_SIZE, |s.tx.writer.payload|), |Payload(t.tx.writer)|);
    }
  }

  predicate CountExact(tx: Tx) { tx.bytesInFlight == Outstanding(tx) }

  // An iteration with data to write and no room in the window starts probing.
  predicate Probes(tx: Tx) { tx.writeBuffer != [] && tx.remoteWindowSize <= tx.bytesInFlight }

  // What an iteration adds to the bytes in flight: a burst as large as the window allows, or a probe.
  function IterationAdds(tx: Tx): nat {
    if tx.writeBuffer == [] then 0 else if Probes(tx) then 1 else Min(tx.remoteWindowSize, |tx.writeBuffer|)
  }

  /** From an exact count, a whole iteration, whether it bursts, probes, sends the FIN or waits, leaves
      the count exact if and only if what was in flight plus what it adds stays below 2^16. */
  lemma IterationKeepsCountIff(s: Sock)
    requires s.tx.writer.Idle? && !s.tx.zwpMode && CountExact(s.tx)
    ensures CountExact(WriterIteration(s).0.tx) <==> s.tx.bytesInFlight + IterationAdds(s.tx) < TWO_16
  {
    var (t, out) := StartIteration(s);
    if s.tx.writeBuffer == [] && s.connState != ESTABLISHED {
      DataAppend(s.tx.rtQueue, Entry(out[0].seqNum, out[0]));
    }
    BurstSends(t);
  }

  // ---------- Events and runs ----------

  // What one event adds: a segment of a burst, or a probe.
  function EventAdds(e: Endpoint, ev: Event): nat {
    var tx := e.sock.tx;
    if !ev.WriterStep? then 0
    else match tx.writer
      case Sending(payload) => Min(MAX_SEGMENT_SIZE, |payload|)
      case Idle => if Probes(tx) then 1 else 0
      case _ => 0
  }

  predicate EventCounts(e: Endpoint, inbox: set<Packet>, ev: Event) {
    Enabled(e, inbox, ev) ==> e.sock.tx.bytesInFlight + EventAdds(e, ev) < TWO_16
  }

  lemma {:induction false} PruneOutstanding(s: Sock)
    ensures DataInQueue(Prune(s).tx.rtQueue) <= DataInQueue(s.tx.rtQueue)
    decreases |s.tx.rtQueue|
  {
    var q := s.tx.rtQueue;
    if |q| > 0 && End(q[0]) <= s.tx.largestAck { PruneOutstanding(DropHead(s)); }
  }

  lemma AckOutstanding(s: Sock, p: Packet)
    ensures Outstanding(HandleAck(s, p).0.tx) <= Outstanding(s.tx)
  {
    AckFrame(s, p.ackNum);
    PruneOutstanding(s.(tx := s.tx.(largestAck := p.ackNum)));
  }

  lemma WriterOutstanding(s: Sock)
    requires s.tx.zwpMode == s.tx.writer.Probing?
    ensures s.tx.writer.Sending? ==>
      Outstanding(SendSegment(s).0.tx) == Outstanding(s.tx) + Min(MAX_SEGMENT_SIZE, |s.tx.writer.payload|)
    ensures s.tx.writer.Idle? && Probes(s.tx) ==> Outstanding(StartIteration(s).0.tx) == Outstanding(s.tx) + 1
    ensures s.tx.writer.Idle? && !Probes(s.tx) ==> Outstanding(StartIteration(s).0.tx) == Outstanding(s.tx)
  {
    if s.tx.writer.Sending? {
      var p := SendSegment(s).1[0];
      DataAppend(s.tx.rtQueue, Entry(p.seqNum, p));
    } else if s.tx.writer.Idle? && s.tx.writeBuffer == [] && s.connState != ESTABLISHED {
      var fin := SendFin(s).1[0];
      DataAppend(s.tx.rtQueue, Entry(fin.seqNum, fin));
    }
  }

  lemma EventOutstanding(e: Endpoint, ev: Event)
    requires e.sock.tx.zwpMode == e.sock.tx.writer.Probing?
    ensures var f := Perform(e, ev).0;
      && Outstanding(f.sock.tx) <= Outstanding(e.sock.tx) + EventAdds(e, ev)
      && (ev.WriterStep? ==> Outstanding(f.sock.tx) == Outstanding(e.sock.tx) + EventAdds(e, ev))
  {
    match ev
    case Deliver(p) => if e.phase == Running && p.flags == {ACK} { AckOutstanding(e.sock, p); }
    case WriterStep => WriterOutstanding(e.sock);
    case _ =>
  }

  lemma ModSmall(n: nat)
    ensures n % TWO_16 == n <==> n < TWO_16
  {
  }

  lemma CountModulo(s: Sock, v: Sent, out: set<Packet>)
    requires TxCore(s, v, out)
    ensures s.tx.bytesInFlight == Outstanding(s.tx) % TWO_16 && s.tx.zwpMode == s.tx.writer.Probing?
  {
  }

  lemma InvTxCore(w: World)
    requires Inv(w)
    ensures TxCore(w.a.sock, SentBy(w.a), w.toB) && TxCore(w.b.sock, SentBy(w.b), w.toA)
  {
  }

  // Under the invariant the count is right modulo 2^16, so it is exact if and only if 2^16 is not reached.
  lemma ExactIffSmall(w: World, side: Side)
    requires Inv(w)
    ensures var tx := w.End(side).sock.tx;
      (CountExact(tx) <==> Outstanding(tx) < TWO_16) && tx.zwpMode == tx.writer.Probing?
  {
    InvTxCore(w);
    CountModulo(w.a.sock, SentBy(w.a), w.toB);
    CountModulo(w.b.sock, SentBy(w.b), w.toA);
    ModSmall(Outstanding(w.End(side).sock.tx));
  }

  /** One event leaves an exact count exact if and only if what was in flight plus what it adds stays
      below 2^16; acknowledgments may come between the segments of a burst. */
  lemma EventKeepsCountIff(w: World, side: Side, ev: Event)
    requires Inv(w) && NoWrapIn(Step(w, side, ev)) && CountExact(w.End(side).sock.tx)
    ensures CountExact(Step(w, side, ev).End(side).sock.tx) <==> EventCounts(w.End(side), w.Inbox(side), ev)
  {
    StepKeepsInv(w, side, ev);
    ExactIffSmall(w, side);
    ExactIffSmall(Step(w, side, ev), side);
    EventOutstanding(w.End(side), ev);
  }

  predicate RunCounts(w: World, side: Side, run: Run)
    decreases |run|
  {
    run == [] || ((run[0].0 == side ==> EventCounts(w.End(side), w.Inbox(side), run[0].1))
                  && RunCounts(Step(w, run[0].0, run[0].1), side, run[1..]))
  }

  // The count is exact in every world the run passes through.
  predicate ExactThroughout(w: World, side: Side, run: Run)
    decreases |run|
  {
    CountExact(w.End(side).sock.tx)
    && (run == [] || ExactThroughout(Step(w, run[0].0, run[0].1), side, run[1..]))
  }

  lemma {:induction false} RunExactIff(w: World, side: Side, run: Run)
    requires Inv(w) && NoWrapIn(Exec(w, run)) && CountExact(w.End(side).sock.tx)
    ensures ExactThroughout(w, side, run) <==> RunCounts(w, side, run)
    decreases |run|
  {
    if run != [] {
      var (at, ev) := run[0];
      var x := Step(w, at, ev);
      RunGrows(x, run[1..]);
      StepKeepsInv(w, at, ev);
      if at == side { EventKeepsCountIff(w, side, ev); }
      if CountExact(x.End(side).sock.tx) { RunExactIff(x, side, run[1..]); }
      else { assert !ExactThroughout(x, side, run[1..]); }
    }
  }

  lemma ConnectedExact(isnA: U32, isnB: U32, side: Side)
    ensures CountExact(Connected(isnA, isnB).End(side).sock.tx)
  {
    assert DataInQueue([]) == 0;
  }

  /** The counter of either side is exact all through a run after the handshake if and only if no event
      of the run makes what is in flight reach 2^16. */
  lemma CountExactIff(isnA: U32, isnB: U32, run: Run, side: Side)
    requires NoWrapIn(Exec(Connected(isnA, isnB), run))
    ensures ExactThroughout(Connected(isnA, isnB), side, run) <==> RunCounts(Connected(isnA, isnB), side, run)
  {
    RunGrows(Connected(isnA, isnB), run);
    ConnectedInv(isnA, isnB);
    ConnectedExact(isnA, isnB, side);
    RunExactIff(Connected(isnA, isnB), side, run);
  }

  /** With the window of 65535 the handshake itself advertises, one byte in flight and a full
      write buffer, a single burst wraps the counter to 0 with 65536 bytes outstanding. */
  lemma FullBurstWraps(s: Sock)
    requires s.tx.writer.Idle? && s.tx.remoteWindowSize == 65535 && |s.tx.writeBuffer| == MAX_BUFFER_SIZE
    requires s.tx.bytesInFlight == 1 == Outstanding(s.tx)
    ensures var r := WriterIteration(s).0; r.tx.bytesInFlight == 0 && Outstanding(r.tx) == 65536
  {
    BurstSends(StartIteration(s).0);
  }
}
