/** Window updates. An ACK segment whose acknowledgment number is acceptable when it is handled sets
    the send window, unless it is older than the segment that last did, in the order of sequence and
    then acknowledgment number. On the accepting side the comparison starts at the peer's absolute
    initial number, although the numbers compared with it are relative. */
module TcpWindow {
  import opened Words
  import opened SegmentHeap
  import opened Sockets
  import opened TcpNetwork
  import opened TcpInvariant
  import opened TcpSenderProofs
  import opened TcpRuns

  // ---------- The rule, over whole runs ----------

  // SND.WL1, SND.WL2 and SND.WND.
  datatype View = View(seqNum: U32, ackNum: U32, window: U16)

  function ViewOf(e: Endpoint): View {
    View(e.sock.tx.lastSegmentSequenceNumber, e.sock.tx.lastSegmentAckNumber, e.sock.tx.remoteWindowSize)
  }

  function ViewFrom(remoteISN: U32, p: Packet): View { View(Sub32(p.seqNum, remoteISN), p.ackNum, p.window) }

  predicate NotOlder(v: View, w: View) {
    v.seqNum < w.seqNum || (v.seqNum == w.seqNum && v.ackNum <= w.ackNum)
  }

  // The ACK reaches the window update, with an acknowledgment number that is neither old nor too high.
  predicate Acceptable(s: Sock, p: Packet) {
    && p.flags == {ACK} && s.tx.largestAck <= p.ackNum <= s.tx.nextSequenceNumber
    && !(ProcessAck(s, p.ackNum).isClosed && !s.isClosed)
  }

  predicate HandlesNow(w: World, side: Side, at: Side, ev: Event) {
    && at == side && Enabled(w.End(side), w.Inbox(side), ev) && w.End(side).phase == Running
    && ev.Deliver? && Acceptable(w.End(side).sock, ev.packet)
  }

  function HandledNow(w: World, side: Side, at: Side, ev: Event): seq<Packet> {
    if HandlesNow(w, side, at, ev) then [ev.packet] else []
  }

  /** The ACK segments that were acceptable when `side` handled them in the run, in order. */
  function Handled(w: World, side: Side, run: Run): seq<Packet>
    decreases |run|
  {
    if run == [] then []
    else HandledNow(w, side, run[0].0, run[0].1) + Handled(Step(w, run[0].0, run[0].1), side, run[1..])
  }

  // From e to f the view has not changed, and probing has not ended.
  ghost predicate ViewKept(e: Endpoint, f: Endpoint) {
    && ViewOf(f) == ViewOf(e)
    && (e.sock.tx.writer.Probing? && e.sock.tx.zwpMode ==> f.sock.tx.zwpMode && f.sock.tx.writer == e.sock.tx.writer)
  }

  lemma {:induction false} DrainKeepsPeer(state: ConnState, rx: Rx)
    ensures Drain(state, rx).1.remoteISN == rx.remoteISN
    decreases |rx.earlyArrivals|
  {
    var h := rx.earlyArrivals;
    if |h| > 0 && rx.nextExpectedByte == h[0].priority {
      if FIN in h[0].packet.flags { DrainKeepsPeer(StateAfterEarlyFin(state), rx.(earlyArrivals := PopEntry(h).1)); }
      else { DrainKeepsPeer(state, WriteSegment(rx, h[0].packet.data).(earlyArrivals := PopEntry(h).1)); }
    }
  }

  lemma HandleAckView(e: Endpoint, p: Packet)
    requires p.flags == {ACK}
    ensures var f := e.(sock := HandleAck(e.sock, p).0); var v := ViewFrom(e.sock.rx.remoteISN, p);
      && f.sock.rx.remoteISN == e.sock.rx.remoteISN
      && if Acceptable(e.sock, p) && NotOlder(ViewOf(e), v) then ViewOf(f) == v else ViewKept(e, f)
  {
    AckFrame(e.sock, p.ackNum);
    var s1 := ProcessAck(e.sock, p.ackNum);
    DrainKeepsPeer(s1.connState, WriteSegment(s1.rx, p.data));
  }

  lemma EventView(e: Endpoint, inbox: set<Packet>, ev: Event)
    requires e.phase == Running && Enabled(e, inbox, ev)
    ensures var f := Perform(e, ev).0;
      && f.phase == Running && f.sock.rx.remoteISN == e.sock.rx.remoteISN
      && if ev.Deliver? && Acceptable(e.sock, ev.packet)
            && NotOlder(ViewOf(e), ViewFrom(e.sock.rx.remoteISN, ev.packet))
         then ViewOf(f) == ViewFrom(e.sock.rx.remoteISN, ev.packet)
         else ViewKept(e, f)
  {
    match ev
    case Deliver(p) => if p.flags == {ACK} { HandleAckView(e, p); }
    case _ =>
  }

  // What one step of the world does to the view of `side`.
  lemma StepView(w: World, side: Side, at: Side, ev: Event)
    requires w.End(side).phase == Running
    ensures var e, f := w.End(side), Step(w, at, ev).End(side);
      && f.phase == Running && f.sock.rx.remoteISN == e.sock.rx.remoteISN
      && if HandlesNow(w, side, at, ev) && NotOlder(ViewOf(e), ViewFrom(e.sock.rx.remoteISN, ev.packet))
         then ViewOf(f) == ViewFrom(e.sock.rx.remoteISN, ev.packet)
         else ViewKept(e, f)
  {
    if at == side && Enabled(w.End(side), w.Inbox(side), ev) { EventView(w.End(side), w.Inbox(side), ev); }
  }

  // The view is the one of a newest of these segments, or the one from before if they are all older.
  ghost predicate Newest(start: View, isn: U32, ps: seq<Packet>, v: View) {
    && NotOlder(start, v) && (forall p | p in ps :: NotOlder(ViewFrom(isn, p), v))
    && (v == start || exists p | p in ps :: v == ViewFrom(isn, p))
  }

  /** After any run the window is that of a newest ACK segment among those that were acceptable when
      they were handled, in whatever order they arrived. */
  lemma {:induction false} WindowOfNewest(w: World, side: Side, run: Run)
    requires w.End(side).phase == Running
    ensures Newest(ViewOf(w.End(side)), w.End(side).sock.rx.remoteISN, Handled(w, side, run),
                   ViewOf(Exec(w, run).End(side)))
    decreases |run|
  {
    if run != [] {
      var (at, ev) := run[0];
      StepView(w, side, at, ev);
      WindowOfNewest(Step(w, at, ev), side, run[1..]);
    }
  }

  /** Probing ends only by a window update: as long as all acceptable segments are older than the last
      update, the window stays what it is and the same byte is being probed with. */
  lemma {:induction false} ProbingNeedsUpdate(w: World, side: Side, run: Run)
    requires w.End(side).phase == Running
    requires forall p | p in Handled(w, side, run) ::
      !NotOlder(ViewOf(w.End(side)), ViewFrom(w.End(side).sock.rx.remoteISN, p))
    ensures ViewKept(w.End(side), Exec(w, run).End(side))
    decreases |run|
  {
    if run != [] {
      var (at, ev) := run[0];
      var x := Step(w, at, ev);
      StepView(w, side, at, ev);
      var rest := Handled(x, side, run[1..]);
      assert forall p | p in rest :: p in Handled(w, side, run);
      assert HandlesNow(w, side, at, ev) ==> ev.packet in Handled(w, side, run);
      ProbingNeedsUpdate(x, side, run[1..]);
    }
  }

  // ---------- What handled segments can say ----------

  // No packet is numbered past what its sender has counted.
  ghost predicate Numbered(e: Endpoint, out: set<Packet>) {
    forall p | p in out :: 0 <= p.seqNum - e.sock.tx.initSeqNum <= e.sock.tx.numberBytesSent + 1
  }

  // What is left to send still fits below 2^32.
  ghost predicate RoomToSend(tx: Tx) {
    tx.initSeqNum + tx.numberBytesSent + |Payload(tx.writer)| + |tx.writeBuffer| + 1 < TWO_32
  }

  lemma FlowRoom(e: Endpoint, next: int, out: set<Packet>)
    requires SenderFlow(e, next, out)
    ensures RoomToSend(e.sock.tx)
  {
    var v := SentBy(e);
    assert |v.wrote[v.sent..]| == |Payload(e.sock.tx.writer)| + |e.sock.tx.writeBuffer|;
  }

  // Whatever is sent between the two states has the next number of the first.
  ghost predicate SendsNext(from: Tx, to: Tx, out: seq<Packet>) {
    && to.initSeqNum == from.initSeqNum && from.numberBytesSent <= to.numberBytesSent
    && forall p | p in out :: p.seqNum == from.initSeqNum + from.numberBytesSent + 1
  }

  lemma WriterNumbers(s: Sock)
    requires RoomToSend(s.tx)
    ensures s.tx.writer.Sending? ==> SendsNext(s.tx, SendSegment(s).0.tx, SendSegment(s).1)
    ensures s.tx.writer.Idle? ==> SendsNext(s.tx, StartIteration(s).0.tx, StartIteration(s).1)
  {
  }

  predicate IsResend(ev: Event) { ev.ProbeAgain? || ev.RetransmitTimeout? }

  lemma EventNumbers(e: Endpoint, ev: Event)
    requires RoomToSend(e.sock.tx) && !IsResend(ev)
    ensures SendsNext(e.sock.tx, Perform(e, ev).0.sock.tx, Perform(e, ev).1)
  {
    match ev
    case Deliver(p) => if e.phase == Running { AckFrame(e.sock, p.ackNum); }
    case WriterStep => WriterNumbers(e.sock);
    case _ =>
  }

  lemma EventNumbered(e: Endpoint, next: int, out: set<Packet>, ev: Event)
    requires SenderFlow(e, next, out) && Numbered(e, out)
    ensures var (f, o) := Perform(e, ev); Numbered(f, out + Packets(o))
  {
    if IsResend(ev) {
      ResentPacketsAreOld(e.sock, SentBy(e), out);
    } else {
      FlowRoom(e, next, out);
      EventNumbers(e, ev);
    }
  }

  ghost predicate Good(w: World) { Inv(w) && Numbered(w.a, w.toB) }

  lemma StepNumbered(w: World, side: Side, ev: Event)
    requires Good(w)
    ensures Numbered(Step(w, side, ev).a, Step(w, side, ev).toB)
  {
    if side == A && Enabled(w.a, w.toA, ev) {
      EventNumbered(w.a, w.b.sock.rx.nextExpectedByte, w.toB, ev);
    }
  }

  lemma StepGood(w: World, side: Side, ev: Event)
    requires Good(w) && NoWrapIn(Step(w, side, ev))
    ensures Good(Step(w, side, ev))
  {
    StepNumbered(w, side, ev);
    StepKeepsInv(w, side, ev);
  }

  lemma {:induction false} WroteGrows(w: World, run: Run)
    ensures |w.a.wrote| <= |Exec(w, run).a.wrote|
    decreases |run|
  {
    if run != [] {
      PerformGrows(w.End(run[0].0), run[0].1);
      WroteGrows(Step(w, run[0].0, run[0].1), run[1..]);
    }
  }

  // What B handles acknowledges something, and is numbered within what A has written.
  ghost predicate FromA(isnA: int, wrote: int, p: Packet) { p.ackNum > 0 && 0 <= p.seqNum - isnA <= wrote + 2 }

  lemma InboxFromA(w: World, p: Packet)
    requires Good(w) && p in w.toB && p.flags == {ACK}
    ensures FromA(w.a.sock.tx.initSeqNum, |w.a.wrote|, p)
  {
    var v := SentBy(w.b);
    assert AckOk(v, w.a.sock.rx.nextExpectedByte, p.ackNum);
  }

  lemma {:induction false} HandledFromA(w: World, run: Run)
    requires Good(w) && NoWrapIn(Exec(w, run))
    ensures forall p | p in Handled(w, B, run) :: FromA(w.a.sock.tx.initSeqNum, |Exec(w, run).a.wrote|, p)
    decreases |run|
  {
    if run != [] {
      var (at, ev) := run[0];
      var x := Step(w, at, ev);
      RunGrows(x, run[1..]);
      WroteGrows(w, run);
      StepGood(w, at, ev);
      HandledFromA(x, run[1..]);
      PerformGrows(w.End(at), ev);
      if HandlesNow(w, B, at, ev) { InboxFromA(w, ev.packet); }
    }
  }

  // ---------- The accepting side ----------

  // The comparison still stands where MakeTCPSocket put it.
  predicate Untouched(b: Endpoint) {
    b.sock.tx.lastSegmentSequenceNumber == b.sock.rx.remoteISN && b.sock.tx.lastSegmentAckNumber == 0
  }

  // Every segment handled is older than that.
  predicate AllOlder(isnA: U32, ps: seq<Packet>) { forall p | p in ps :: Sub32(p.seqNum, isnA) < isnA }

  lemma UntouchedWhileRunning(w: World, run: Run)
    requires Good(w) && NoWrapIn(Exec(w, run)) && w.b.phase == Running && Untouched(w.b)
    ensures Untouched(Exec(w, run).b) <==> AllOlder(w.b.sock.rx.remoteISN, Handled(w, B, run))
    ensures Exec(w, run).b.sock.rx.remoteISN == w.b.sock.rx.remoteISN
  {
    var isn, ps := w.b.sock.rx.remoteISN, Handled(w, B, run);
    WindowOfNewest(w, B, run);
    HandledFromA(w, run);
    RunKeepsPeer(w, B, run);
    if AllOlder(isn, ps) { ProbingNeedsUpdate(w, B, run); }
  }

  lemma {:induction false} RunKeepsPeer(w: World, side: Side, run: Run)
    requires w.End(side).phase == Running
    ensures Exec(w, run).End(side).sock.rx.remoteISN == w.End(side).sock.rx.remoteISN
    decreases |run|
  {
    if run != [] {
      StepView(w, side, run[0].0, run[0].1);
      RunKeepsPeer(Step(w, run[0].0, run[0].1), side, run[1..]);
    }
  }

  lemma {:induction false} StaysAbandoned(w: World, run: Run)
    requires w.b.phase == Abandoned
    ensures Exec(w, run).b.phase == Abandoned
    decreases |run|
  {
    if run != [] { StaysAbandoned(Step(w, run[0].0, run[0].1), run[1..]); }
  }

  // Until VAccept has its ACK, the accepting side handles nothing that could move the comparison.
  lemma HandshakeKeepsUntouched(w: World, at: Side, ev: Event)
    requires Untouched(w.b) && w.b.phase == Accepting
    ensures var c := Step(w, at, ev).b; Untouched(c) && c.sock.rx.remoteISN == w.b.sock.rx.remoteISN
    ensures !HandlesNow(w, B, at, ev)
  {
  }

  lemma {:induction false} UntouchedIff(w: World, run: Run)
    requires Good(w) && NoWrapIn(Exec(w, run)) && Untouched(w.b) && Exec(w, run).b.phase == Running
    ensures Untouched(Exec(w, run).b) <==> AllOlder(w.b.sock.rx.remoteISN, Handled(w, B, run))
    ensures Exec(w, run).b.sock.rx.remoteISN == w.b.sock.rx.remoteISN
    decreases |run|
  {
    if w.b.phase == Running {
      UntouchedWhileRunning(w, run);
    } else if run != [] {
      var (at, ev) := run[0];
      var x := Step(w, at, ev);
      RunGrows(x, run[1..]);
      StepGood(w, at, ev);
      if w.b.phase == Abandoned { StaysAbandoned(w, run); }
      HandshakeKeepsUntouched(w, at, ev);
      assert Handled(w, B, run) == Handled(x, B, run[1..]);
      UntouchedIff(x, run[1..]);
    }
  }

  lemma ConnectedGood(isnA: U32, isnB: U32)
    requires NoWrapIn(Connected(isnA, isnB))
    ensures var w := Connected(isnA, isnB); Good(w) && Untouched(w.b) && w.b.sock.rx.remoteISN == isnA
  {
    ConnectedInv(isnA, isnB);
    ConnectedNumbered(isnA, isnB);
  }

  lemma ConnectedNumbered(isnA: U32, isnB: U32)
    requires NoWrapIn(Connected(isnA, isnB))
    ensures var w := Connected(isnA, isnB); Numbered(w.a, w.toB)
  {
  }

  lemma {:induction false} RunGood(w: World, run: Run)
    requires Good(w) && NoWrapIn(Exec(w, run))
    ensures Good(Exec(w, run))
    decreases |run|
  {
    if run != [] {
      var x := Step(w, run[0].0, run[0].1);
      RunGrows(x, run[1..]);
      StepGood(w, run[0].0, run[0].1);
      RunGood(x, run[1..]);
    }
  }

  /** In every run, the accepting side has never taken a window update if and only if every acceptable
      ACK it has handled has a relative sequence number below the peer's absolute initial number. */
  lemma AcceptorTakesNoUpdateIff(isnA: U32, isnB: U32, run: Run)
    requires var w := Exec(Connected(isnA, isnB), run); NoWrapIn(w) && w.b.phase == Running
    ensures Untouched(Exec(Connected(isnA, isnB), run).b)
      <==> AllOlder(isnA, Handled(Connected(isnA, isnB), B, run))
  {
    RunGrows(Connected(isnA, isnB), run);
    ConnectedGood(isnA, isnB);
    UntouchedIff(Connected(isnA, isnB), run);
  }

  // A stream that ends below the sender's own initial number reaches no update.
  lemma ShortStreamAllOlder(w: World, run: Run, isnA: U32)
    requires Good(w) && NoWrapIn(Exec(w, run)) && w.a.sock.tx.initSeqNum == isnA
    requires |Exec(w, run).a.wrote| + 2 < isnA
    ensures AllOlder(isnA, Handled(w, B, run))
  {
    HandledFromA(w, run);
  }

  lemma UntouchedAtStart(isnA: U32, isnB: U32, run: Run)
    requires var w := Exec(Connected(isnA, isnB), run);
      NoWrapIn(w) && w.b.phase == Running && |w.a.wrote| + 2 < isnA
    ensures var w := Exec(Connected(isnA, isnB), run);
      Good(w) && Untouched(w.b) && w.b.sock.rx.remoteISN == isnA && w.a.sock.tx.initSeqNum == isnA
  {
    var w0 := Connected(isnA, isnB);
    RunGrows(w0, run);
    ConnectedGood(isnA, isnB);
    RunGood(w0, run);
    ShortStreamAllOlder(w0, run, isnA);
    UntouchedIff(w0, run);
    RunKeepsIsn(w0, run);
  }

  lemma {:induction false} RunKeepsIsn(w: World, run: Run)
    ensures Exec(w, run).a.sock.tx.initSeqNum == w.a.sock.tx.initSeqNum
    decreases |run|
  {
    if run != [] {
      PerformGrows(w.End(run[0].0), run[0].1);
      RunKeepsIsn(Step(w, run[0].0, run[0].1), run[1..]);
    }
  }

  /** As long as the connecting side has written less than its own initial sequence number, the
      accepting side's view of its window never changes after the handshake, whatever windows it is
      sent, and if it has started probing it is still probing, with the same byte. */
  lemma AcceptorIgnoresWindows(isnA: U32, isnB: U32, run: Run, more: Run)
    requires var w := Exec(Connected(isnA, isnB), run);
      && w.b.phase == Running && NoWrapIn(Exec(w, more)) && |Exec(w, more).a.wrote| + 2 < isnA
    ensures var w := Exec(Connected(isnA, isnB), run); ViewKept(w.b, Exec(w, more).b)
  {
    var w := Exec(Connected(isnA, isnB), run);
    RunGrows(w, more);
    WroteGrows(w, more);
    UntouchedAtStart(isnA, isnB, run);
    ShortStreamAllOlder(w, more, isnA);
    ProbingNeedsUpdate(w, B, more);
  }
}
