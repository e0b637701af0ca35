/** The invariant holds in every world a run can reach, whatever the network and the two
    applications do. */
module TcpRuns {
  import opened Words
  import opened SegmentHeap
  import opened TcpNetwork
  import opened TcpInvariant
  import opened TcpSenderProofs
  import opened TcpReceiverProofs

  // One event of endpoint x, whose peer is y.
  lemma EndpointStep(x: Endpoint, y: Endpoint, out: set<Packet>, inbox: set<Packet>, ev: Event)
    requires Flow(x, y, out, inbox) && Flow(y, x, inbox, out)
    requires Enabled(x, inbox, ev) && NoWrap(Perform(x, ev).0)
    ensures var (f, o) := Perform(x, ev);
      Flow(f, y, out + Packets(o), inbox) && Flow(y, f, inbox, out + Packets(o))
  {
    var (f, o) := Perform(x, ev);
    var next := y.sock.rx.nextExpectedByte;
    forall p | p in inbox ensures PeerPacketOk(SentBy(x), next, p) {
      assert PacketOk(SentBy(y), p);
    }
    SenderStep(x, next, out, inbox, ev);
    SenderProgress(SentBy(x), SentBy(f), y.sock, out, Packets(o), inbox);
    ResentPacketsAreOld(x.sock, SentBy(x), out);
    ReceiverStep(SentBy(y), x, inbox, out, ev);
    PeerProgress(y, x.sock.rx.nextExpectedByte, f.sock.rx.nextExpectedByte, inbox);
  }

  ghost predicate NoWrapIn(w: World) { NoWrap(w.a) && NoWrap(w.b) }

  /** One step of the world keeps the invariant. */
  lemma StepKeepsInv(w: World, side: Side, ev: Event)
    requires Inv(w) && NoWrapIn(Step(w, side, ev))
    ensures Inv(Step(w, side, ev))
  {
    if Enabled(w.End(side), w.Inbox(side), ev) {
      if side == A { EndpointStep(w.a, w.b, w.toB, w.toA, ev); }
      else { EndpointStep(w.b, w.a, w.toA, w.toB, ev); }
    }
  }

  // ---------- Streams only grow ----------

  lemma PerformGrows(e: Endpoint, ev: Event)
    ensures var f := Perform(e, ev).0;
      f.sock.tx.initSeqNum == e.sock.tx.initSeqNum && e.wrote <= f.wrote && e.read <= f.read
  {
    match ev
    case Deliver(p) => AckFrame(e.sock, p.ackNum);
    case _ =>
  }

  lemma StepGrows(w: World, side: Side, ev: Event)
    ensures NoWrapIn(Step(w, side, ev)) ==> NoWrapIn(w)
  {
    PerformGrows(w.End(side), ev);
  }

  lemma {:induction false} RunGrows(w: World, run: Run)
    ensures NoWrapIn(Exec(w, run)) ==> NoWrapIn(w)
    decreases |run|
  {
    if run != [] {
      RunGrows(Step(w, run[0].0, run[0].1), run[1..]);
      StepGrows(w, run[0].0, run[0].1);
    }
  }

  lemma {:induction false} RunKeepsInv(w: World, run: Run)
    requires Inv(w) && NoWrapIn(Exec(w, run))
    ensures Inv(Exec(w, run))
    decreases |run|
  {
    if run != [] {
      RunGrows(Step(w, run[0].0, run[0].1), run[1..]);
      StepKeepsInv(w, run[0].0, run[0].1);
      RunKeepsInv(Step(w, run[0].0, run[0].1), run[1..]);
    }
  }

  lemma ConnectedSenderA(isnA: U32, isnB: U32)
    requires NoWrapIn(Connected(isnA, isnB))
    ensures var w := Connected(isnA, isnB); SenderFlow(w.a, 1, w.toB)
  {
  }

  lemma ConnectedFlowA(isnA: U32, isnB: U32)
    requires NoWrapIn(Connected(isnA, isnB))
    ensures var w := Connected(isnA, isnB); Flow(w.a, w.b, w.toB, w.toA)
  {
    ConnectedSenderA(isnA, isnB);
  }

  lemma ConnectedFlowB(isnA: U32, isnB: U32)
    requires NoWrapIn(Connected(isnA, isnB))
    ensures var w := Connected(isnA, isnB); Flow(w.b, w.a, w.toA, w.toB)
  {
  }

  lemma ConnectedInv(isnA: U32, isnB: U32)
    requires NoWrapIn(Connected(isnA, isnB))
    ensures Inv(Connected(isnA, isnB))
  {
    ConnectedFlowA(isnA, isnB);
    ConnectedFlowB(isnA, isnB);
  }

  /** Every world reachable after the handshake satisfies the invariant in both directions. */
  lemma ReachableInv(isnA: U32, isnB: U32, run: Run)
    requires NoWrapIn(Exec(Connected(isnA, isnB), run))
    ensures Inv(Exec(Connected(isnA, isnB), run))
  {
    RunGrows(Connected(isnA, isnB), run);
    ConnectedInv(isnA, isnB);
    RunKeepsInv(Connected(isnA, isnB), run);
  }
}
