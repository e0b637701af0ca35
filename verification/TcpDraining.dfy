/** What draining the early-arrival heap should do, stated without the heap: NextExpectedByte
    moves to the first position no early segment covers, and only segments beyond it stay.
    Early arrivals are not deduplicated, and a second copy of a drained segment stays at the
    root and stops the loop; the theorem says exactly when that happens. */
module TcpDraining {
  import opened Words
  import opened SegmentHeap
  import opened Sockets
  import opened TcpNetwork
  import opened TcpInvariant
  import opened TcpSenderProofs
  import opened TcpRuns
  import opened TcpTheorems

  ghost predicate Covered(m: multiset<Entry>, x: int) {
    exists e | e in m :: e.priority <= x < End(e)
  }

  // One fixed segmentation: two different items start apart and do not overlap. A FIN has no data.
  ghost predicate Segmented(m: multiset<Entry>) {
    && (forall e | e in m :: 0 <= e.priority <= End(e) < TWO_32 && (FIN in e.packet.flags <==> e.packet.data == []))
    && (forall e, f | e in m && f in m && e != f ::
          e.priority != f.priority && (End(e) <= f.priority || End(f) <= e.priority))
  }

  ghost predicate NothingBefore(m: multiset<Entry>, next: int) { forall e | e in m :: next <= e.priority }

  /** Each segment that draining takes off the heap finds room for all of its data. */
  predicate DrainHasRoom(rx: Rx)
    decreases |rx.earlyArrivals|
  {
    var h := rx.earlyArrivals;
    if |h| > 0 && rx.nextExpectedByte == h[0].priority then
      if FIN in h[0].packet.flags then
        DrainHasRoom(rx.(earlyArrivals := PopEntry(h).1))
      else
        |h[0].packet.data| <= Free(rx.readBuffer)
        && DrainHasRoom(WriteSegment(rx, h[0].packet.data).(earlyArrivals := PopEntry(h).1))
    else true
  }

  // No data segment of the contiguous run starting at `next` is queued twice.
  ghost predicate NoCopyInRun(m: multiset<Entry>, next: int) {
    forall e | e in m && m[e] >= 2 && e.packet.data != [] :: exists x | next <= x < e.priority :: !Covered(m, x)
  }

  // `to` is the first position at or after `from` that no item covers.
  ghost predicate FirstGap(m: multiset<Entry>, from: int, to: int) {
    from <= to && !Covered(m, to) && forall x | from <= x < to :: Covered(m, x)
  }

  ghost predicate OnlyBeyond(h: seq<Entry>, next: int) { forall e | e in h :: next < e.priority }

  // ---------- Taking the root away ----------

  lemma RestBeyondRoot(m: multiset<Entry>, rest: multiset<Entry>, root: Entry, next: int)
    requires m == rest + multiset{root} && Segmented(m) && NothingBefore(m, next) && root.priority == next
    requires m[root] == 1 || root.packet.data == []
    ensures Segmented(rest) && NothingBefore(rest, End(root))
  {
    assert root in m;
    forall e | e in rest ensures End(root) <= e.priority {
      assert e in m;
      if e == root { assert m[root] >= 2; }
    }
  }

  lemma WithoutRoot(m: multiset<Entry>, rest: multiset<Entry>, root: Entry, next: int)
    requires m == rest + multiset{root} && Segmented(m) && NothingBefore(m, next) && root.priority == next
    requires m[root] == 1 || root.packet.data == []
    ensures Segmented(rest) && NothingBefore(rest, End(root))
    ensures forall x | End(root) <= x :: Covered(m, x) <==> Covered(rest, x)
    ensures forall x | next <= x < End(root) :: Covered(m, x)
  {
    RestBeyondRoot(m, rest, root, next);
    assert root in m;
    forall x | End(root) <= x ensures Covered(m, x) <==> Covered(rest, x) { CoveredByRest(m, rest, root, x); }
  }

  lemma CoveredByRest(m: multiset<Entry>, rest: multiset<Entry>, root: Entry, x: int)
    requires m == rest + multiset{root} && End(root) <= x
    ensures Covered(m, x) <==> Covered(rest, x)
  {
    if Covered(m, x) {
      var e :| e in m && e.priority <= x < End(e);
      assert e != root && e in rest;
    }
    if Covered(rest, x) {
      var e :| e in rest && e.priority <= x < End(e);
      assert e in m;
    }
  }

  lemma CopiesWithoutRoot(m: multiset<Entry>, rest: multiset<Entry>, root: Entry, next: int)
    requires m == rest + multiset{root} && Segmented(m) && NothingBefore(m, next) && root.priority == next
    requires m[root] == 1 || root.packet.data == []
    ensures NoCopyInRun(m, next) <==> NoCopyInRun(rest, End(root))
  {
    WithoutRoot(m, rest, root, next);
    if NoCopyInRun(m, next) {
      forall e | e in rest && rest[e] >= 2 && e.packet.data != []
        ensures exists x | End(root) <= x < e.priority :: !Covered(rest, x)
      {
        assert e in m && m[e] >= 2;
        var x :| next <= x < e.priority && !Covered(m, x);
        assert End(root) <= x;
      }
    }
    if NoCopyInRun(rest, End(root)) {
      forall e | e in m && m[e] >= 2 && e.packet.data != []
        ensures exists x | next <= x < e.priority :: !Covered(m, x)
      {
        assert e != root && e in rest && rest[e] >= 2;
        var x :| End(root) <= x < e.priority && !Covered(rest, x);
        assert next <= x;
      }
    }
  }

  lemma GapWithoutRoot(m: multiset<Entry>, rest: multiset<Entry>, root: Entry, next: int, to: int)
    requires m == rest + multiset{root} && Segmented(m) && NothingBefore(m, next) && root.priority == next
    requires m[root] == 1 || root.packet.data == []
    requires FirstGap(rest, End(root), to)
    ensures FirstGap(m, next, to)
  {
    WithoutRoot(m, rest, root, next);
  }

  // A root beyond the next expected byte: nothing is drained, and there is a gap right there.
  lemma NothingToDrain(h: seq<Entry>, next: int)
    requires Ordered(h) && (h == [] || next < h[0].priority)
    ensures FirstGap(multiset(h), next, next) && OnlyBeyond(h, next) && NoCopyInRun(multiset(h), next)
  {
    forall e | e in h ensures next < e.priority { RootLeastEntry(h, e); }
    forall e | e in multiset(h) ensures next < e.priority { assert e in h; }
  }

  // A second copy of the segment just taken is now behind the next expected byte, at the root.
  lemma CopyStopsDraining(h: seq<Entry>, next: int)
    requires |h| > 0 && Ordered(h) && h[0].priority == next && h[0].packet.data != [] && multiset(h)[h[0]] >= 2
    ensures var rest := PopEntry(h).1;
      |rest| > 0 && rest[0].priority < End(h[0]) && h[0] in rest && !NoCopyInRun(multiset(h), next)
  {
    PopCorrect(h);
    var rest := PopEntry(h).1;
    assert multiset(rest)[h[0]] >= 1;
    RootLeastEntry(rest, h[0]);
    assert h[0] in multiset(h);
  }

  // The receiver state r is what draining items m from `next` should leave.
  ghost predicate Drained(m: multiset<Entry>, next: int, r: Rx) {
    && (OnlyBeyond(r.earlyArrivals, r.nextExpectedByte) <==> NoCopyInRun(m, next))
    && (NoCopyInRun(m, next) ==> FirstGap(m, next, r.nextExpectedByte))
  }

  lemma DrainedStep(m: multiset<Entry>, rest: seq<Entry>, root: Entry, next: int)
    requires m == multiset(rest) + multiset{root} && Segmented(m) && NothingBefore(m, next) && root.priority == next
    requires m[root] == 1 || root.packet.data == []
    ensures Segmented(multiset(rest)) && NothingBefore(multiset(rest), End(root))
    ensures forall r | Drained(multiset(rest), End(root), r) :: Drained(m, next, r)
  {
    WithoutRoot(m, multiset(rest), root, next);
    CopiesWithoutRoot(m, multiset(rest), root, next);
    forall r | Drained(multiset(rest), End(root), r) ensures Drained(m, next, r) {
      if NoCopyInRun(m, next) { GapWithoutRoot(m, multiset(rest), root, next, r.nextExpectedByte); }
    }
  }

  // The receiver state after the root has been taken off.
  function TakeRoot(rx: Rx): Rx
    requires |rx.earlyArrivals| > 0
  {
    var h := rx.earlyArrivals;
    (if FIN in h[0].packet.flags then rx else WriteSegment(rx, h[0].packet.data)).(earlyArrivals := PopEntry(h).1)
  }

  function StateTaking(state: ConnState, root: Entry): ConnState {
    if FIN in root.packet.flags then StateAfterEarlyFin(state) else state
  }

  lemma TakeRootDrains(state: ConnState, rx: Rx)
    requires |rx.earlyArrivals| > 0 && rx.nextExpectedByte == rx.earlyArrivals[0].priority
    ensures Drain(state, rx) == Drain(StateTaking(state, rx.earlyArrivals[0]), TakeRoot(rx))
  {
  }

  lemma WriteEndsAt(rx: Rx, e: Entry)
    requires rx.nextExpectedByte == e.priority && End(e) < TWO_32 && |e.packet.data| <= Free(rx.readBuffer)
    ensures WriteSegment(rx, e.packet.data).nextExpectedByte == End(e)
  {
  }

  lemma TakeRootStep(rx: Rx)
    requires |rx.earlyArrivals| > 0 && rx.nextExpectedByte == rx.earlyArrivals[0].priority
    requires Segmented(multiset(rx.earlyArrivals)) && DrainHasRoom(rx)
    ensures DrainHasRoom(TakeRoot(rx)) && TakeRoot(rx).nextExpectedByte == End(rx.earlyArrivals[0])
  {
    var root := rx.earlyArrivals[0];
    assert root in multiset(rx.earlyArrivals);
    if FIN !in root.packet.flags { WriteEndsAt(rx, root); }
  }

  /** Draining leaves only segments beyond NextExpectedByte if and only if no segment of the
      contiguous run is queued twice, and then it has moved to the first gap. */
  lemma {:induction false} DrainsToFirstGapIff(state: ConnState, rx: Rx)
    requires Ordered(rx.earlyArrivals) && Segmented(multiset(rx.earlyArrivals))
    requires NothingBefore(multiset(rx.earlyArrivals), rx.nextExpectedByte) && DrainHasRoom(rx)
    ensures Drained(multiset(rx.earlyArrivals), rx.nextExpectedByte, Drain(state, rx).1)
    decreases |rx.earlyArrivals|
  {
    var h, next := rx.earlyArrivals, rx.nextExpectedByte;
    var m := multiset(h);
    if h != [] { assert h[0] in m; }
    if h == [] || next < h[0].priority {
      NothingToDrain(h, next);
    } else {
      var root := h[0];
      PopCorrect(h);
      TakeRootDrains(state, rx);
      TakeRootStep(rx);
      if m[root] >= 2 && root.packet.data != [] {
        CopyStopsDraining(h, next);
      } else {
        DrainedStep(m, PopEntry(h).1, root, next);
        DrainsToFirstGapIff(StateTaking(state, root), TakeRoot(rx));
      }
    }
  }

  // ---------- Accepting an in-order segment ----------

  /** An accepted in-order segment together with the early arrivals beyond it: NextExpectedByte
      ends at the first position from the segment's start that neither it nor they cover. */
  lemma InOrderSegmentFillsRun(state: ConnState, rx: Rx, p: Packet)
    requires Sub32(p.seqNum, rx.remoteISN) == rx.nextExpectedByte && p.flags == {ACK} && p.data != []
    requires var x := Entry(rx.nextExpectedByte, p); var m := multiset(rx.earlyArrivals) + multiset{x};
      && Segmented(m) && NothingBefore(m, rx.nextExpectedByte) && m[x] == 1 && NoCopyInRun(m, rx.nextExpectedByte)
    requires Ordered(rx.earlyArrivals)
    requires |p.data| <= Free(rx.readBuffer) && DrainHasRoom(WriteSegment(rx, p.data))
    ensures var r := AcceptText(state, rx, p).1;
      && OnlyBeyond(r.earlyArrivals, r.nextExpectedByte)
      && FirstGap(multiset(rx.earlyArrivals) + multiset{Entry(rx.nextExpectedByte, p)},
                  rx.nextExpectedByte, r.nextExpectedByte)
  {
    var x, h := Entry(rx.nextExpectedByte, p), rx.earlyArrivals;
    var m := multiset(h) + multiset{x};
    assert x in m;
    DrainedStep(m, h, x, rx.nextExpectedByte);
    assert WriteSegment(rx, p.data).nextExpectedByte == End(x);
    DrainsToFirstGapIff(state, WriteSegment(rx, p.data));
  }

  // ---------- Reachable heaps ----------

  // Two early segments of one sender are equal or lie apart.
  lemma SegmentsLieApart(v: Sent, out: set<Packet>, e: Entry, f: Entry)
    requires SentOk(v) && (forall p | p in out :: PacketOk(v, p)) && OneSegmentation(out)
    requires EarlyOk(v, out, e) && EarlyOk(v, out, f) && e != f
    ensures e.priority != f.priority && (End(e) <= f.priority || End(f) <= e.priority)
  {
    assert PacketOk(v, e.packet) && PacketOk(v, f.packet);
    if IsDataSegment(v, e.packet) && IsDataSegment(v, f.packet) {
      assert e.packet.seqNum - v.isn - 1 in v.cuts && f.packet.seqNum - v.isn - 1 in v.cuts;
    }
  }

  /** In every reachable world the early-arrival heap holds pieces of one fixed segmentation. */
  lemma ReachableHeapSegmented(w: World, side: Side)
    requires Reachable(w)
    ensures var h := w.End(Other(side)).sock.rx.earlyArrivals; Ordered(h) && Segmented(multiset(h))
  {
    ReachableFlow(w, side);
    var v, out := SentBy(w.End(side)), w.Outbox(side);
    var h := w.End(Other(side)).sock.rx.earlyArrivals;
    forall e: Entry | e in multiset(h)
      ensures 0 <= e.priority <= End(e) < TWO_32 && (FIN in e.packet.flags <==> e.packet.data == [])
    {
      assert e in h;
      assert EarlyOk(v, out, e) && PacketOk(v, e.packet);
    }
    forall e: Entry, f: Entry | e in multiset(h) && f in multiset(h) && e != f
      ensures e.priority != f.priority && (End(e) <= f.priority || End(f) <= e.priority)
    {
      assert e in h && f in h;
      SegmentsLieApart(v, out, e, f);
    }
  }

  // ---------- A stale copy at the root ----------

  predicate RootIsStale(rx: Rx) {
    |rx.earlyArrivals| > 0 && rx.earlyArrivals[0].priority < rx.nextExpectedByte
  }

  // If the segment is the expected one, counting its bytes does not wrap NextExpectedByte.
  predicate TextCounts(rx: Rx, p: Packet) {
    Sub32(p.seqNum, rx.remoteISN) == rx.nextExpectedByte ==> rx.nextExpectedByte + |p.data| < TWO_32
  }

  lemma PushKeepsLeast(h: seq<Entry>, x: Entry)
    requires |h| > 0 && Ordered(h)
    ensures |PushEntry(h, x)| == |h| + 1 && PushEntry(h, x)[0].priority <= h[0].priority
  {
    PushCorrect(h, x);
    var g := PushEntry(h, x);
    assert h[0] in multiset(h) + multiset{x};
    assert h[0] in multiset(g);
    RootLeastEntry(g, h[0]);
  }

  /** A stale copy at the root stops draining: whatever text arrives next, nothing leaves the heap,
      the root stays stale, and only the arriving segment itself can be accepted. */
  lemma StaleRootStopsDraining(state: ConnState, rx: Rx, p: Packet)
    requires Ordered(rx.earlyArrivals) && RootIsStale(rx) && TextCounts(rx, p)
    ensures var (st, r) := AcceptText(state, rx, p);
      && st == state && RootIsStale(r) && Ordered(r.earlyArrivals)
      && multiset(rx.earlyArrivals) <= multiset(r.earlyArrivals)
      && rx.nextExpectedByte <= r.nextExpectedByte <= rx.nextExpectedByte + |p.data|
  {
    var rel := Sub32(p.seqNum, rx.remoteISN);
    if rx.nextExpectedByte < rel {
      PushKeepsLeast(rx.earlyArrivals, Entry(rel, p));
      PushCorrect(rx.earlyArrivals, Entry(rel, p));
    }
  }

  // From r to f a stale root has stayed, and nothing has left the heap.
  ghost predicate StillStale(r: Rx, f: Rx) {
    RootIsStale(f) && Ordered(f.earlyArrivals) && multiset(r.earlyArrivals) <= multiset(f.earlyArrivals)
  }

  ghost predicate AllCount(rx: Rx, inbox: set<Packet>) { forall p | p in inbox :: TextCounts(rx, p) }

  lemma StaleFin(rx: Rx, p: Packet)
    requires Ordered(rx.earlyArrivals) && RootIsStale(rx) && rx.nextExpectedByte < Sub32(p.seqNum, rx.remoteISN)
    ensures StillStale(rx, ParkEarly(rx, p))
  {
    var x := Entry(Sub32(p.seqNum, rx.remoteISN), p);
    PushKeepsLeast(rx.earlyArrivals, x);
    PushCorrect(rx.earlyArrivals, x);
  }

  lemma StaleAck(s: Sock, p: Packet)
    requires Ordered(s.rx.earlyArrivals) && RootIsStale(s.rx) && TextCounts(s.rx, p)
    ensures StillStale(s.rx, HandleAck(s, p).0.rx)
  {
    AckFrame(s, p.ackNum);
    StaleRootStopsDraining(ProcessAck(s, p.ackNum).connState, s.rx, p);
  }

  lemma StaleEvent(e: Endpoint, inbox: set<Packet>, ev: Event)
    requires Ordered(e.sock.rx.earlyArrivals) && RootIsStale(e.sock.rx) && AllCount(e.sock.rx, inbox)
    requires e.phase == Running && Enabled(e, inbox, ev)
    ensures StillStale(e.sock.rx, Perform(e, ev).0.sock.rx) && Perform(e, ev).0.phase == Running
  {
    match ev
    case Deliver(p) =>
      if p.flags == {ACK} { StaleAck(e.sock, p); }
      else if FIN in p.flags && e.sock.rx.nextExpectedByte < Sub32(p.seqNum, e.sock.rx.remoteISN) {
        StaleFin(e.sock.rx, p);
      }
    case _ =>
  }

  lemma InvBoundsText(w: World, side: Side)
    requires Inv(w)
    ensures var rx := w.End(side).sock.rx; Ordered(rx.earlyArrivals) && AllCount(rx, w.Inbox(side))
  {
    var v := SentBy(w.End(Other(side)));
    forall p | p in w.Inbox(side) ensures TextCounts(w.End(side).sock.rx, p) {
      assert PacketOk(v, p);
    }
  }

  lemma StaleStep(w: World, side: Side, at: Side, ev: Event)
    requires Inv(w) && w.End(side).phase == Running && RootIsStale(w.End(side).sock.rx)
    ensures var x := Step(w, at, ev);
      StillStale(w.End(side).sock.rx, x.End(side).sock.rx) && x.End(side).phase == Running
  {
    InvBoundsText(w, side);
    if at == side && Enabled(w.End(at), w.Inbox(at), ev) { StaleEvent(w.End(at), w.Inbox(at), ev); }
  }

  /** A stale root is there to stay: in every continuation nothing leaves the heap any more. */
  lemma {:induction false} StaleForever(w: World, side: Side, more: Run)
    requires Inv(w) && NoWrapIn(Exec(w, more)) && w.End(side).phase == Running && RootIsStale(w.End(side).sock.rx)
    ensures StillStale(w.End(side).sock.rx, Exec(w, more).End(side).sock.rx)
    decreases |more|
  {
    InvBoundsText(w, side);
    if more != [] {
      var (at, ev) := more[0];
      RunGrows(Step(w, at, ev), more[1..]);
      StaleStep(w, side, at, ev);
      StepKeepsInv(w, at, ev);
      StaleForever(Step(w, at, ev), side, more[1..]);
    }
  }
}
