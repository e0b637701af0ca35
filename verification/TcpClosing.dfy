/** Where the closing code departs from its intent: the FIN counts as length 0 in the
    retransmission queue, so the acknowledgment of the data before it removes it too. */
module TcpClosing {
  import opened Words
  import opened SegmentHeap
  import opened Sockets
  import opened TcpNetwork
  import opened TcpInvariant
  import opened TcpSenderProofs
  import opened TcpRuns

  predicate IsFinItem(e: Entry) { FIN in e.packet.flags }

  // A FIN is queued last, is all that can end the queue once the writer is done, and stays queued for
  // as long as its sender is in FIN_WAIT_1.
  ghost predicate FinTracked(s: Sock) {
    var q := s.tx.rtQueue;
    && (forall i | 0 <= i < |q| && IsFinItem(q[i]) :: i == |q| - 1 && s.tx.writer.Done?)
    && (s.tx.writer.Done? && q != [] ==> IsFinItem(q[|q| - 1]))
    && (s.connState == FIN_WAIT_1 && s.tx.writer.Done? ==> q != [])
    && (s.connState in {ESTABLISHED, SYN_SENT} ==> !s.tx.writer.Done?)
    && (s.tx.zwpMode ==> s.tx.writer.Probing?)
  }

  ghost predicate FinInv(e: Endpoint) {
    && FinTracked(e.sock)
    && (e.phase == Accepting ==> e.sock.connState == SYN_SENT)
    && (e.phase == Running ==> e.sock.connState != SYN_SENT)
  }

  lemma {:induction false} PruneTracksFin(s: Sock)
    requires FinTracked(s)
    ensures FinTracked(Prune(s)) && (Prune(s).connState == SYN_SENT ==> s.connState == SYN_SENT)
    decreases |s.tx.rtQueue|
  {
    var q := s.tx.rtQueue;
    if |q| > 0 && End(q[0]) <= s.tx.largestAck && !(IsFinItem(q[0]) && s.connState == LAST_ACK) {
      var t := DropHead(s);
      assert forall i | 0 <= i < |q| - 1 :: t.tx.rtQueue[i] == q[i + 1];
      PruneTracksFin(t);
    }
  }

  lemma {:induction false} DrainTracksFin(s: Sock, state: ConnState, rx: Rx)
    requires FinTracked(s.(connState := state)) && state != SYN_SENT
    ensures FinTracked(s.(connState := Drain(state, rx).0)) && Drain(state, rx).0 != SYN_SENT
    decreases |rx.earlyArrivals|
  {
    var h := rx.earlyArrivals;
    if |h| > 0 && rx.nextExpectedByte == h[0].priority {
      if FIN in h[0].packet.flags {
        DrainTracksFin(s, StateAfterEarlyFin(state), rx.(earlyArrivals := PopEntry(h).1));
      } else {
        DrainTracksFin(s, state, WriteSegment(rx, h[0].packet.data).(earlyArrivals := PopEntry(h).1));
      }
    }
  }

  lemma UpdateTracksFin(s: Sock, p: Packet)
    requires FinTracked(s)
    ensures FinTracked(s.(tx := UpdateWindow(s.tx, s.rx.remoteISN, p)))
  {
  }

  lemma TextTracksFin(s: Sock, p: Packet)
    requires FinTracked(s) && s.connState != SYN_SENT
    ensures var (state, rx) := AcceptText(s.connState, s.rx, p);
      FinTracked(s.(connState := state, rx := rx)) && state != SYN_SENT
  {
    DrainTracksFin(s, s.connState, WriteSegment(s.rx, p.data));
  }

  lemma AckTracksFin(s: Sock, p: Packet)
    requires FinTracked(s) && s.connState != SYN_SENT
    ensures FinTracked(HandleAck(s, p).0) && HandleAck(s, p).0.connState != SYN_SENT
  {
    PruneTracksFin(s.(tx := s.tx.(largestAck := p.ackNum)));
    var s1 := ProcessAck(s, p.ackNum);
    UpdateTracksFin(s1, p);
    TextTracksFin(s1.(tx := UpdateWindow(s1.tx, s1.rx.remoteISN, p)), p);
  }

  lemma EventTracksFin(e: Endpoint, inbox: set<Packet>, ev: Event)
    requires FinInv(e) && Enabled(e, inbox, ev)
    ensures FinInv(Perform(e, ev).0)
  {
    match ev
    case Deliver(p) => if e.phase == Running && p.flags == {ACK} { AckTracksFin(e.sock, p); }
    case _ =>
  }

  lemma {:induction false} RunTracksFin(w: World, run: Run)
    requires FinInv(w.a) && FinInv(w.b)
    ensures FinInv(Exec(w, run).a) && FinInv(Exec(w, run).b)
    decreases |run|
  {
    if run != [] {
      var (side, ev) := run[0];
      if Enabled(w.End(side), w.Inbox(side), ev) { EventTracksFin(w.End(side), w.Inbox(side), ev); }
      RunTracksFin(Step(w, side, ev), run[1..]);
    }
  }

  // ---------- When FIN_WAIT_1 ends ----------

  lemma {:induction false} LastStartsAtEnd(q: seq<Entry>, from: int, to: int)
    requires q != [] && Chain(q, from, to)
    ensures End(q[|q| - 1]) == to && from <= q[|q| - 1].priority
    decreases |q|
  {
    if |q| > 1 { LastStartsAtEnd(q[1..], End(q[0]), to); }
  }

  // Pruning reaches the FIN at the end of the queue exactly when everything before it is acknowledged.
  lemma {:induction false} PruneReachesFin(s: Sock, from: int, to: int)
    requires FinTracked(s) && s.tx.writer.Done? && s.tx.rtQueue != [] && s.connState in {FIN_WAIT_1, LAST_ACK}
    requires Chain(s.tx.rtQueue, from, to) && s.tx.rtQueue[|s.tx.rtQueue| - 1].packet.data == []
    ensures Prune(s).connState
      == (if s.tx.largestAck < to then s.connState else if s.connState == FIN_WAIT_1 then FIN_WAIT_2 else CLOSED)
    ensures s.connState == FIN_WAIT_1 && s.tx.largestAck >= to ==> Prune(s).tx.rtQueue == []
    decreases |s.tx.rtQueue|
  {
    var q := s.tx.rtQueue;
    LastStartsAtEnd(q, from, to);
    if |q| == 1 {
      assert DropHead(s).tx.rtQueue == [];
    } else {
      var t := DropHead(s);
      assert forall i | 0 <= i < |q| - 1 :: t.tx.rtQueue[i] == q[i + 1];
      LastStartsAtEnd(q[1..], End(q[0]), to);
      if End(q[0]) <= s.tx.largestAck { PruneReachesFin(t, End(q[0]), to); }
    }
  }

  lemma FinalAckIff(s: Sock, v: Sent, out: set<Packet>, ack: U32)
    requires FinTracked(s) && TxOk(s, v, out) && (forall p | p in out :: PacketOk(v, p)) && s.tx.rtQueue != []
    requires s.connState in {FIN_WAIT_1, LAST_ACK} && s.tx.writer.Done?
    requires s.tx.largestAck < ack <= s.tx.nextSequenceNumber
    ensures ProcessAck(s, ack).connState
      == (if ack < QueueEnd(s.tx) then s.connState else if s.connState == FIN_WAIT_1 then FIN_WAIT_2 else CLOSED)
    ensures ProcessAck(s, ack).connState == FIN_WAIT_2 ==> ProcessAck(s, ack).tx.rtQueue == []
  {
    var q := s.tx.rtQueue;
    var last := q[|q| - 1];
    assert QueueItemOk(out, last) && PacketOk(v, last.packet);
    PruneReachesFin(s.(tx := s.tx.(largestAck := ack)), q[0].priority, QueueEnd(s.tx));
  }

  // An endpoint of a reachable world.
  ghost predicate ReachedEnd(isnA: U32, isnB: U32, run: Run, side: Side, s: Sock) {
    NoWrapIn(Exec(Connected(isnA, isnB), run)) && Exec(Connected(isnA, isnB), run).End(side).sock == s
  }

  /** In every reachable world, a closer that has sent its FIN leaves FIN_WAIT_1 on a new ACK
      exactly when that ACK covers the data before the FIN, whether or not it covers the FIN. It has
      then nothing left to retransmit. */
  lemma FinWait2Iff(isnA: U32, isnB: U32, run: Run, side: Side, s: Sock, ack: U32)
    requires ReachedEnd(isnA, isnB, run, side, s) && s.connState == FIN_WAIT_1 && s.tx.writer.Done?
    requires s.tx.largestAck < ack <= s.tx.nextSequenceNumber
    ensures ProcessAck(s, ack).connState == FIN_WAIT_2 <==> ack >= s.tx.initSeqNum + 1 + SentBytes(s.tx)
    ensures ProcessAck(s, ack).connState == FIN_WAIT_2 ==> ProcessAck(s, ack).tx.rtQueue == []
  {
    var w := Exec(Connected(isnA, isnB), run);
    RunTracksFin(Connected(isnA, isnB), run);
    ReachableInv(isnA, isnB, run);
    FinalAckIff(s, SentBy(w.End(side)), w.Outbox(side), ack);
  }

  /** The passive closer: it goes from LAST_ACK to CLOSED on a new ACK exactly when its FIN is still
      queued and the ACK covers the data before the FIN. */
  lemma ClosedIff(isnA: U32, isnB: U32, run: Run, side: Side, s: Sock, ack: U32)
    requires ReachedEnd(isnA, isnB, run, side, s) && s.connState == LAST_ACK && s.tx.writer.Done?
    requires s.tx.largestAck < ack <= s.tx.nextSequenceNumber
    ensures ProcessAck(s, ack).connState == CLOSED
      <==> s.tx.rtQueue != [] && ack >= s.tx.initSeqNum + 1 + SentBytes(s.tx)
  {
    var w := Exec(Connected(isnA, isnB), run);
    RunTracksFin(Connected(isnA, isnB), run);
    ReachableInv(isnA, isnB, run);
    if s.tx.rtQueue != [] { FinalAckIff(s, SentBy(w.End(side)), w.Outbox(side), ack); }
  }

  // ---------- States without an exit ----------

  lemma {:induction false} DrainKeepsState(state: ConnState, rx: Rx)
    requires state == LAST_ACK || state == CLOSING
    ensures Drain(state, rx).0 == state
    decreases |rx.earlyArrivals|
  {
    var h := rx.earlyArrivals;
    if |h| > 0 && rx.nextExpectedByte == h[0].priority {
      if FIN in h[0].packet.flags { DrainKeepsState(state, rx.(earlyArrivals := PopEntry(h).1)); }
      else { DrainKeepsState(state, WriteSegment(rx, h[0].packet.data).(earlyArrivals := PopEntry(h).1)); }
    }
  }

  lemma {:induction false} PruneKeepsClosing(s: Sock)
    requires s.connState == CLOSING
    ensures Prune(s).connState == CLOSING
    decreases |s.tx.rtQueue|
  {
    var q := s.tx.rtQueue;
    if |q| > 0 && End(q[0]) <= s.tx.largestAck { PruneKeepsClosing(DropHead(s)); }
  }

  // Waiting for the last ACK with no FIN left that it could acknowledge.
  predicate NeverCloses(e: Endpoint) {
    && e.sock.connState == LAST_ACK && e.phase != Accepting
    && e.sock.tx.rtQueue == [] && e.sock.tx.writer.Done? && !e.sock.tx.zwpMode
  }

  lemma LastAckEvent(e: Endpoint, inbox: set<Packet>, ev: Event)
    requires NeverCloses(e) && Enabled(e, inbox, ev)
    ensures NeverCloses(Perform(e, ev).0)
  {
    if ev.Deliver? && ev.packet.flags == {ACK} {
      DrainKeepsState(LAST_ACK, WriteSegment(e.sock.rx, ev.packet.data));
    }
  }

  lemma {:induction false} LastAckForever(w: World, side: Side, more: Run)
    requires NeverCloses(w.End(side))
    ensures NeverCloses(Exec(w, more).End(side))
    decreases |more|
  {
    if more != [] {
      var (at, ev) := more[0];
      if at == side && Enabled(w.End(at), w.Inbox(at), ev) { LastAckEvent(w.End(at), w.Inbox(at), ev); }
      LastAckForever(Step(w, at, ev), side, more[1..]);
    }
  }

  /** The partner of ClosedIff: a reachable endpoint in LAST_ACK whose FIN is no longer queued stays in
      LAST_ACK in every continuation, whatever arrives; its socket is never removed. */
  lemma NeverClosesOnceEmpty(isnA: U32, isnB: U32, run: Run, side: Side, s: Sock, more: Run)
    requires ReachedEnd(isnA, isnB, run, side, s) && s.connState == LAST_ACK && s.tx.writer.Done? && s.tx.rtQueue == []
    ensures Exec(Exec(Connected(isnA, isnB), run), more).End(side).sock.connState == LAST_ACK
  {
    RunTracksFin(Connected(isnA, isnB), run);
    LastAckForever(Exec(Connected(isnA, isnB), run), side, more);
  }

  lemma ClosingEvent(e: Endpoint, inbox: set<Packet>, ev: Event)
    requires e.sock.connState == CLOSING && e.phase == Running && Enabled(e, inbox, ev)
    ensures Perform(e, ev).0.sock.connState == CLOSING && Perform(e, ev).0.phase == Running
  {
    if ev.Deliver? && ev.packet.flags == {ACK} {
      var p := ev.packet;
      PruneKeepsClosing(e.sock.(tx := e.sock.tx.(largestAck := p.ackNum)));
      DrainKeepsState(CLOSING, WriteSegment(ProcessAck(e.sock, p.ackNum).rx, p.data));
    }
  }

  /** CLOSING has no exit: in every continuation, whatever is acknowledged, an endpoint in CLOSING stays
      there. */
  lemma {:induction false} ClosingForever(w: World, side: Side, more: Run)
    requires w.End(side).sock.connState == CLOSING && w.End(side).phase == Running
    ensures Exec(w, more).End(side).sock.connState == CLOSING
    decreases |more|
  {
    if more != [] {
      var (at, ev) := more[0];
      if at == side && Enabled(w.End(at), w.Inbox(at), ev) { ClosingEvent(w.End(at), w.Inbox(at), ev); }
      ClosingForever(Step(w, at, ev), side, more[1..]);
    }
  }

  // ---------- A FIN that is never sent again ----------

  // An endpoint whose writer has finished and whose queue is empty.
  predicate Exhausted(e: Endpoint) {
    e.phase == Running && e.sock.tx.writer.Done? && e.sock.tx.rtQueue == [] && !e.sock.tx.zwpMode
  }

  lemma ExhaustedEvent(e: Endpoint, inbox: set<Packet>, ev: Event)
    requires Exhausted(e) && Enabled(e, inbox, ev)
    ensures Exhausted(Perform(e, ev).0)
    ensures forall p | p in Perform(e, ev).1 :: PureAck(p)
  {
  }

  /** Once its queue is empty a finished endpoint sends no FIN and no data in any continuation. */
  lemma {:induction false} ExhaustedStaysSilent(w: World, side: Side, more: Run)
    requires Exhausted(w.End(side))
    ensures var x := Exec(w, more);
      Exhausted(x.End(side)) && forall p | p in x.Outbox(side) :: p in w.Outbox(side) || PureAck(p)
    decreases |more|
  {
    if more != [] {
      var (s, ev) := more[0];
      if s == side && Enabled(w.End(s), w.Inbox(s), ev) { ExhaustedEvent(w.End(s), w.Inbox(s), ev); }
      ExhaustedStaysSilent(Step(w, s, ev), side, more[1..]);
    }
  }

  // Established, and the peer's FIN not seen.
  predicate IsOpen(state: ConnState) { state in {ESTABLISHED, FIN_WAIT_1, FIN_WAIT_2} }

  lemma {:induction false} PruneKeepsSeen(s: Sock)
    ensures HasSeenFin(s.connState) ==> HasSeenFin(Prune(s).connState)
    ensures IsOpen(s.connState) ==> IsOpen(Prune(s).connState) && Prune(s).isClosed == s.isClosed
    decreases |s.tx.rtQueue|
  {
    var q := s.tx.rtQueue;
    if |q| > 0 && End(q[0]) <= s.tx.largestAck { PruneKeepsSeen(DropHead(s)); }
  }

  // The peer of a closer that has sent everything: it has accepted all data, but not seen the FIN.
  ghost predicate MissesFin(v: Sent, r: Endpoint) {
    && Complete(v, r.sock.rx.nextExpectedByte) && r.sock.rx.remoteISN == v.isn && SentOk(v)
    && r.phase == Running && !r.sock.isClosed && IsOpen(r.sock.connState)
  }

  // What the sender has not sent yet when it has sent its FIN: nothing past it.
  ghost predicate AllBefore(v: Sent, inbox: set<Packet>) { forall p | p in inbox :: PacketOk(v, p) }

  lemma MissingFinAck(v: Sent, r: Endpoint, p: Packet)
    requires MissesFin(v, r) && PacketOk(v, p) && p.flags == {ACK}
    ensures MissesFin(v, r.(sock := HandleAck(r.sock, p).0))
  {
    AckFrame(r.sock, p.ackNum);
    PruneKeepsSeen(r.sock.(tx := r.sock.tx.(largestAck := p.ackNum)));
  }

  lemma MissingFinEvent(v: Sent, r: Endpoint, inbox: set<Packet>, ev: Event)
    requires MissesFin(v, r) && AllBefore(v, inbox) && Enabled(r, inbox, ev)
    ensures if ev.Deliver? && FIN in ev.packet.flags then HasSeenFin(Perform(r, ev).0.sock.connState)
      else MissesFin(v, Perform(r, ev).0)
  {
    match ev
    case Deliver(p) =>
      assert PacketOk(v, p);
      if p.flags == {ACK} { MissingFinAck(v, r, p); }
    case _ =>
  }

  // Whether the run hands one of these FIN packets to `side`.
  predicate DeliversFin(more: Run, side: Side, sent: set<Packet>) {
    exists i | 0 <= i < |more| ::
      more[i].0 == side && more[i].1.Deliver? && more[i].1.packet in sent && FIN in more[i].1.packet.flags
  }

  lemma {:induction false} DrainKeepsSeen(state: ConnState, rx: Rx)
    ensures HasSeenFin(state) ==> HasSeenFin(Drain(state, rx).0)
    decreases |rx.earlyArrivals|
  {
    var h := rx.earlyArrivals;
    if |h| > 0 && rx.nextExpectedByte == h[0].priority {
      if FIN in h[0].packet.flags { DrainKeepsSeen(StateAfterEarlyFin(state), rx.(earlyArrivals := PopEntry(h).1)); }
      else { DrainKeepsSeen(state, WriteSegment(rx, h[0].packet.data).(earlyArrivals := PopEntry(h).1)); }
    }
  }

  lemma SeenStaysSeen(r: Endpoint, ev: Event)
    requires HasSeenFin(r.sock.connState) && r.phase == Running
    ensures HasSeenFin(Perform(r, ev).0.sock.connState) && Perform(r, ev).0.phase == Running
  {
    if ev.Deliver? && ev.packet.flags == {ACK} {
      var p := ev.packet;
      PruneKeepsSeen(r.sock.(tx := r.sock.tx.(largestAck := p.ackNum)));
      var s1 := ProcessAck(r.sock, p.ackNum);
      DrainKeepsSeen(s1.connState, WriteSegment(s1.rx, p.data));
    }
  }

  lemma {:induction false} RunStaysSeen(w: World, side: Side, more: Run)
    requires HasSeenFin(w.End(side).sock.connState) && w.End(side).phase == Running
    ensures HasSeenFin(Exec(w, more).End(side).sock.connState)
    decreases |more|
  {
    if more != [] {
      if more[0].0 == side { SeenStaysSeen(w.End(side), more[0].1); }
      RunStaysSeen(Step(w, more[0].0, more[0].1), side, more[1..]);
    }
  }

  // `side` is exhausted while its peer has not seen its FIN.
  ghost predicate Stranded(w: World, side: Side) {
    && Exhausted(w.End(side)) && MissesFin(SentBy(w.End(side)), w.End(Other(side)))
    && AllBefore(SentBy(w.End(side)), w.Outbox(side))
  }

  // A step that does not hand the FIN over leaves things as they are.
  lemma StrandedStep(w: World, side: Side, at: Side, ev: Event)
    requires Stranded(w, side) && NoWrapIn(Step(w, at, ev))
    ensures var x := Step(w, at, ev);
      && (forall p: Packet | FIN in p.flags :: p in x.Outbox(side) <==> p in w.Outbox(side))
      && if at == Other(side) && ev.Deliver? && ev.packet in w.Outbox(side) && FIN in ev.packet.flags
         then HasSeenFin(x.End(at).sock.connState) && x.End(at).phase == Running
         else Stranded(x, side)
  {
    if Enabled(w.End(at), w.Inbox(at), ev) {
      if at == side { StrandedSender(w.End(side), w.Outbox(side), w.Inbox(side), ev); }
      else { MissingFinEvent(SentBy(w.End(side)), w.End(at), w.Outbox(side), ev); }
    }
  }

  lemma StrandedSender(e: Endpoint, out: set<Packet>, inbox: set<Packet>, ev: Event)
    requires Exhausted(e) && SentOk(SentBy(e)) && AllBefore(SentBy(e), out) && Enabled(e, inbox, ev)
    requires NoWrap(Perform(e, ev).0)
    ensures var (f, o) := Perform(e, ev); var v, w := SentBy(e), SentBy(f);
      && Exhausted(f) && (forall p | p in o :: PureAck(p)) && AllBefore(w, out + Packets(o))
      && SentOk(w) && w.isn == v.isn && w.sent == v.sent && w.fin
  {
    var (f, o) := Perform(e, ev);
    ExhaustedEvent(e, inbox, ev);
    PerformGrows(e, ev);
    if ev.Deliver? { AckFrame(e.sock, ev.packet.ackNum); }
    assert Extends(SentBy(e), SentBy(f));
    PacketsOkExtend(SentBy(e), SentBy(f), out);
  }

  /** When a closer with nothing left to send and to retransmit has a peer that has accepted all its
      data but not seen its FIN, the peer sees that it has closed, in any continuation, if and only if
      the network still delivers the one FIN packet that was sent. */
  lemma {:induction false} PeerSeesFinIffDelivered(w: World, side: Side, more: Run)
    requires Stranded(w, side) && NoWrapIn(Exec(w, more))
    ensures HasSeenFin(Exec(w, more).End(Other(side)).sock.connState)
      <==> DeliversFin(more, Other(side), w.Outbox(side))
    decreases |more|
  {
    if more != [] {
      var (at, ev) := more[0];
      var x := Step(w, at, ev);
      RunGrows(x, more[1..]);
      StrandedStep(w, side, at, ev);
      assert DeliversFin(more, Other(side), w.Outbox(side)) <==>
        (at == Other(side) && ev.Deliver? && ev.packet in w.Outbox(side) && FIN in ev.packet.flags)
        || DeliversFin(more[1..], Other(side), x.Outbox(side)) by { DeliversFirst(more, Other(side), w, x, side); }
      if Stranded(x, side) { PeerSeesFinIffDelivered(x, side, more[1..]); } else { RunStaysSeen(x, at, more[1..]); }
    }
  }

  lemma DeliversFirst(more: Run, at: Side, w: World, x: World, side: Side)
    requires more != [] && forall p: Packet | FIN in p.flags :: p in x.Outbox(side) <==> p in w.Outbox(side)
    ensures DeliversFin(more, at, w.Outbox(side)) <==>
      (more[0].0 == at && more[0].1.Deliver? && more[0].1.packet in w.Outbox(side) && FIN in more[0].1.packet.flags)
      || DeliversFin(more[1..], at, x.Outbox(side))
  {
    if DeliversFin(more[1..], at, x.Outbox(side)) {
      var i :| 0 <= i < |more[1..]| && more[1..][i].0 == at && more[1..][i].1.Deliver?
        && more[1..][i].1.packet in x.Outbox(side) && FIN in more[1..][i].1.packet.flags;
      assert more[i + 1] == more[1..][i];
    }
    if DeliversFin(more, at, w.Outbox(side)) {
      var i :| 0 <= i < |more| && more[i].0 == at && more[i].1.Deliver?
        && more[i].1.packet in w.Outbox(side) && FIN in more[i].1.packet.flags;
      if i > 0 { assert more[1..][i - 1] == more[i]; }
    }
  }
}
