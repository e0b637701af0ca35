# Verified model of a user-level TCP/IP stack

This project models the two protocol cores of the stack in Dafny 4.11 and proves what they
promise. `dafny verify dfyconfig.toml` checks all of it.

**TCP.** `Sockets` has one endpoint as a value, with each handler of `pkg/tcp/socket.go` and
`pkg/tcp/api.go` as a function from state and packet to next state and packets sent;
`TcpSockets` has the same handlers updating the fields of a `TCPSocket` object with the
source's loops, proved equal to those functions. `TcpNetwork` joins two endpoints by a network
in which every packet ever sent may be delivered at any later time, repeatedly or never.
`TcpInvariant` states one invariant over sender queue, probe, packets in flight, early-arrival
heap and read buffer; `TcpSenderProofs`, `TcpReceiverProofs` and `TcpRuns` prove that every
event keeps it in both directions, for all runs. The promises follow: in-order delivery
(`TcpDelivery`), no byte lost, queue shape, probing and complete streams (`TcpTheorems`), recovery
from any loss (`TcpProgress`), what is answered (`TcpAnswers`), what an iteration of the writer
sends (`TcpIteration`), the end of probing (`TcpProbing`), the state diagram and closing
(`TcpFinStates`, `TcpClosing`), the in-flight counter (`TcpInFlight`), draining (`TcpDraining`),
window updates (`TcpWindow`, `TcpSendOrder`), and the handshake between any number of sockets
(`Handshake`). `TcpScenarios` builds concrete runs for all initial numbers; `TcpOrderlyClose` and
`TcpProbeRun` are runs that go as they should, and `TcpOverrun`, `TcpLostFin`, `TcpBothClose`,
`TcpStaleCopy` and `TcpWindowRuns` are the runs in which a promise is not kept. `SegmentHeap` and
`PriorityQueues` are the heap of early arrivals, as a function and as a slice of pointers.

**RIP and forwarding.** `FwdTables` has addresses, prefixes and the table; a lookup over the Go
map is modelled by all answers its iteration order can give. `RipRouter` says what a response,
an advertisement and expiry do to a table and to the route of one network, `RipLayer` has the
loops that do it in place. On an arbitrary finite graph `RipNetwork` proves soundness under an
arbitrary network, `RipConvergence` convergence to shortest paths, `RipPoison` the absence of
two-router loops when responses are not delayed, `RipLoop` which delayed delivery makes one, and
`Forwarding` delivery from routers and hosts, within the TTL, to the destination host's handler.
`RipCodec` is the packet format, `Checksum` the IPv4 header checksum (RFC 1071, and the header of
section 3.1 of RFC 791).

## Assumptions

- Sequence numbers are compared as plain unsigned numbers (pkg/tcp/socket.go:50), so the
  theorems about runs require initial number + stream length + 2 < 2^32 (`NoWrap`). All
  arithmetic is otherwise modelled with its wrap-around.
- One event is atomic: handling a packet, cutting one segment, one turn of VWrite or VRead. The
  rendezvous on the unbuffered `ZWPStop` channel is one step of both goroutines.
- The ring buffers are FIFOs of 65535 bytes. A write to a full one is refused; a write that is
  too long keeps what fits and reports an error, as VWrite relies on (pkg/tcp/api.go:315-322).
- A failed `SendIP` is a loss in the network. Initial sequence numbers and the time are parameters.
- RIP: one link per pair of routers, one mask length, at most 64 networks, no static routes on
  routers (`ValidTopology`, `InitialTable`). Routers are plain numbers, a network is its number.

## Where the code and its intent differ

- Drained early segments are not checked against free space: in-order delivery holds exactly on
  the runs where they fit or meet a full buffer (`InOrderIffFits`), and there are runs where they
  do not and the application is given bytes twice (`InOrderDeliveryFails`).
- The FIN counts as length 0 when the queue is pruned: FIN_WAIT_2 does not mean that the FIN was
  acknowledged (`FinWait2Iff`, `ClosedIff`), and the FIN may never be sent again
  (`FinWait2WithoutFin`, `PeerSeesFinIffDelivered`).
- A FIN taken off the heap is not covered by the acknowledgment sent then (`EarlyFinIsKept`).
- The FIN may go out, be acknowledged and be forgotten before VClose; LAST_ACK is then never left
  (`ClosedIff`, `NeverClosesOnceEmpty`). CLOSING is never left at all (`ClosingForever`). There is a
  run in which this happens to both sides at once (`NeitherCloses`).
- A burst may fill the whole window although bytes are in flight, a probe is sent on top of a full
  window, and either can wrap the 16-bit counter (`CountExactIff`, `CounterWraps`, `ProbeWraps`).
- Early arrivals are not deduplicated and a second copy stops draining for good
  (`DrainsToFirstGapIff`, `StaleRootReached`, `StaleForever`).
- The accepting side starts the window-update test at the peer's absolute initial number
  (pkg/tcp/types.go:175) but compares relative numbers with it, so it takes no window update
  before it handles a segment at least that far into the peer's stream
  (`AcceptorTakesNoUpdateIff`), and until then it goes on probing an open window
  (`StuckReached`, `StuckForLong`).
- The acknowledgment of a FIN is one higher than those sent after it, so it shuts out their
  windows (`SendOrderIff`, `OvertakingReached`).
- RIP ignores infinite costs instead of withdrawing the route: a route is lost by expiry only
  (`StoredCostIff`, `LostIffExpired`), and an advertised cost of 2^32 - 1 is stored as 0.
  A response delivered late can make a two-router loop (`DeliveryMakesLoopIff`, `TriangleLoops`).
  A response that lists a network twice can trigger an update although no route has changed in the
  end (`TriggersForNothing`); one that lists each network once cannot (`HandleResponse`).
  `NumEntries` is not decoded (`CountIsLost`).
- README.md:22 of the repository calls `NextExpectedByte` absolute; the code keeps it relative
  to the peer's initial number, and so does the model.
- A header whose checksum comes out as 0 is refused by the next hop (`StampAcceptedIff`), which is
  why the delivery theorems have the checksums of all hops among their conditions.

## Model

| member | source | states |
|---|---|---|
| `SegmentHeap.PushCorrect` | pkg/tcp/queue.go:22-39 | pushing an early arrival keeps the heap order and adds exactly that item |
| `SegmentHeap.PopCorrect` | pkg/tcp/queue.go:22-48 | pop takes the root, the least item, keeps the heap order and loses nothing else |
| `SegmentHeap.RootLeastEntry` | pkg/tcp/queue.go:22-25 | the root of the heap has the least sequence number of all queued segments |
| `SegmentHeap.PopAllSorts` | pkg/tcp/queue.go:33-48 | popping until empty lists exactly the queued items in sequence order |
| `PriorityQueues.PriorityQueue.Swap` | pkg/tcp/queue.go:27-31 | exchanges two items in place and keeps every item's Index equal to its position |
| `PriorityQueues.PriorityQueue.Push` | pkg/tcp/queue.go:33-38 | appends an item whose Index is its position |
| `PriorityQueues.PriorityQueue.Pop` | pkg/tcp/queue.go:40-48 | cuts off the last item, with Index -1, and leaves the others in place |
| `PriorityQueues.HeapPush` | pkg/tcp/socket.go:213 | heap.Push on the slice of pointers computes the specified heap and keeps all Index fields right |
| `PriorityQueues.HeapPop` | pkg/tcp/socket.go:199 | heap.Pop on the slice of pointers computes the specified heap, returns the root and keeps all Index fields right |
| `TcpSockets.TCPSocket.constructor` | pkg/tcp/types.go:133-197 | a new socket has the initial state every run starts from |
| `TcpSockets.TCPSocket.PruneQueue` | pkg/tcp/socket.go:64-101 | the pruning loop over the fields computes the specified pruning, the LAST_ACK exit included |
| `TcpSockets.TCPSocket.UpdateSendWindow` | pkg/tcp/socket.go:123-155 | the window update and the end of probing on the fields; ProbingEndsIff says on which segments probing ends |
| `TcpSockets.TCPSocket.WriteToReadBuffer` | pkg/tcp/socket.go:21-37 | whole, partial or refused write into the read buffer; only a whole one advances NextExpectedByte |
| `TcpSockets.TCPSocket.DrainEarlyArrivals` | pkg/tcp/socket.go:170-203 | the draining loop over the heap of pointers computes the specified draining |
| `TcpSockets.TCPSocket.HandleText` | pkg/tcp/socket.go:165-214 | segment text is accepted and drained, parked or ignored |
| `TcpSockets.TCPSocket.HandlePacket` | pkg/tcp/socket.go:39-298 | the packet handler changes the fields and answers exactly as the state-machine step does, whose states StateDiagram fixes |
| `TcpSockets.TCPSocket.WriteIteration` | pkg/tcp/socket.go:300-473 | one HandleVWrite iteration, with its segmenting loop, is the specified step; IterationSendsData and IterationSendsFinIff say what that sends |
| `TcpSockets.TCPSocket.SendFinPacket` | pkg/tcp/socket.go:536-572 | the FIN takes one sequence number and is queued for retransmission |
| `TcpSockets.TCPSocket.HandleTimeout` | pkg/tcp/socket.go:495-507 | a timeout sends the head of the retransmission queue again and nothing else |
| `TcpSockets.TCPSocket.VRead` | pkg/tcp/api.go:265-295 | the four outcomes of VRead; what is returned is the front of the read buffer, as long as asked for or all of it, and the rest stays |
| `TcpSockets.TCPSocket.VWriteTurn` | pkg/tcp/api.go:310-325 | one turn of the VWrite loop appends the front of the data, as much as fits and at least a byte, or is the error of a buffer still full |
| `TcpSockets.TCPSocket.VClose` | pkg/tcp/api.go:337-396 | which states a close is accepted in and the state it leads to |
| `TcpSockets.TCPSocket.FinishConnect` | pkg/tcp/api.go:207-251 | VConnect on the SYN-ACK: recorded numbers, the ACK sent, or an error and no change |
| `TcpSockets.TCPSocket.BeginAccept` | pkg/tcp/api.go:36-90 | VAccept takes exactly a SYN, makes a socket with its number and answers with the SYN-ACK |
| `TcpSockets.TCPSocket.FinishAccept` | pkg/tcp/api.go:96-111 | VAccept on the final ACK: established with the peer's window, or an error and no change |
| `TcpIteration.IterationSendsData` | pkg/tcp/socket.go:312-436 | with data to write an iteration sends exactly the front of the write buffer in full-size, consecutively numbered segments, all queued, as far as the whole window allows if it is larger than what is in flight, and otherwise one unqueued byte as a probe |
| `TcpIteration.IterationSendsFinIff` | pkg/tcp/socket.go:303-312 | with nothing to write an iteration sends exactly one packet, the FIN numbered after all that was sent, queues it last and ends the writer, if and only if the state is not ESTABLISHED |
| `TcpSenderProofs.ProcessAckOk` | pkg/tcp/socket.go:50-111 | handling any acknowledgment the peer may have sent keeps the sender's queue an exact record of what is unacknowledged |
| `TcpSenderProofs.HeadAtAck` | pkg/tcp/socket.go:64-101 | acknowledgments fall on segment boundaries, so a head not fully acknowledged starts exactly at LargestAck |
| `TcpSenderProofs.SenderStep` | pkg/tcp/socket.go:300-534 | every event of an endpoint keeps the sending half of the connection invariant |
| `TcpReceiverProofs.DrainOk` | pkg/tcp/socket.go:170-203 | draining moves NextExpectedByte along segment boundaries and meets a FIN only at the end of the stream |
| `TcpReceiverProofs.ReceiverStep` | pkg/tcp/socket.go:157-298 | every event of an endpoint keeps the receiving half of the connection invariant |
| `TcpRuns.StepKeepsInv` | pkg/tcp/socket.go:39-572 | one event at either side keeps the two-way invariant over sender queue, probe, packets in flight, heap and read buffer |
| `TcpRuns.ReachableInv` | pkg/tcp/api.go:53-250 | after the handshake the invariant holds in every world any run can reach over a dropping, duplicating, reordering network |
| `TcpAnswers.TextAnsweredIff` | pkg/tcp/socket.go:103-240 | for every socket in every state: a segment with text, in order, early, old or refused, is answered with exactly one ACK of what has then been accepted and the room left, and one without text is not answered |
| `TcpAnswers.TextAnswered` | pkg/tcp/socket.go:215-240 | in every reachable world each segment with text is answered with one ACK of all accepted so far, unless it closes the endpoint |
| `TcpAnswers.FinAnsweredInOrder` | pkg/tcp/socket.go:244-267 | a FIN in order is answered with exactly one ACK, one above its number, and changes nothing but the state |
| `TcpAnswers.OthersIgnored` | pkg/tcp/socket.go:46-298 | a SYN or SYN-ACK that comes again, or any packet without FIN that is not an ACK alone, changes nothing and is not answered |
| `TcpDelivery.EventDelivery` | pkg/tcp/socket.go:166-203 | one event adds uncounted bytes to what the receiver holds exactly when a drained segment fits only in part |
| `TcpDelivery.InOrderIffFits` | pkg/tcp/socket.go:21-37 | over every run, both sides have read or buffered exactly the peer's stream up to NextExpectedByte if and only if every drained segment fits or is refused whole |
| `TcpDelivery.PrefixDelivery` | pkg/tcp/api.go:265-328 | on such runs the bytes read plus those in the read buffer are a prefix of what the peer wrote |
| `TcpDelivery.PartialDrainDuplicates` | pkg/tcp/socket.go:196-199 | the failing case: a segment kept in part and then retransmitted reaches the application with its first bytes twice |
| `TcpOverrun.InOrderDeliveryFails` | pkg/tcp/socket.go:318-326 | for every stream of 65536 bytes and all initial numbers a run, without wrap-around, at whose end the receiver has been given what is not a prefix of the stream |
| `TcpTheorems.NoByteLost` | pkg/tcp/socket.go:326-399 | every byte taken from the write buffer is accepted by the peer, queued, the outstanding probe, or in the burst being cut |
| `TcpProgress.SentCanStillArrive` | pkg/tcp/socket.go:403-534 | from every reachable world, even with all packets on their way lost, retransmissions, probes and reads can bring the peer to accept every byte sent, stale heap roots included |
| `TcpTheorems.LargestAckBound` | pkg/tcp/socket.go:50-52 | LargestAck never passes what the peer has accepted, plus one once it has seen the FIN |
| `TcpTheorems.QueueIsUnackedRun` | pkg/tcp/socket.go:380-399 | NextSequenceNumber follows NumberBytesSent and the queue is one unbroken run from LargestAck to the next segment |
| `TcpTheorems.RetransmitsEarliest` | pkg/tcp/socket.go:500-507 | HandleRT resends one packet, the earliest unacknowledged segment, with the stream's own bytes |
| `TcpTheorems.PruneExact` | pkg/tcp/socket.go:64-101 | pruning removes exactly the fully acknowledged front of the queue |
| `TcpTheorems.InFlightConserved` | pkg/tcp/socket.go:387 | BytesInFlight is the queued data plus the outstanding probe modulo 2^16, which is the span from LargestAck to the queue's end |
| `TcpTheorems.ProbingEndsClean` | pkg/tcp/socket.go:143-153 | leaving probe mode means everything is acknowledged, nothing is in flight, the window is open, and data next goes out as a burst |
| `TcpProbing.ProbingEndsIff` | pkg/tcp/socket.go:123-153 | in every reachable world a packet ends probing if and only if it is an ACK of the probe's byte that passes the window test and advertises a window above 0; then nothing is in flight and the writer goes on |
| `TcpProbeRun.ProbingEnds` | pkg/tcp/socket.go:401-468 | for every stream that fills the window and all initial numbers a run in which the window closes, one byte is probed with, and the answer with window 65534 ends probing |
| `TcpTheorems.CompleteAtCloseWait` | pkg/tcp/socket.go:184-195 | CLOSE_WAIT and later states are entered only with every byte before the peer's FIN accepted |
| `TcpTheorems.CompleteAtFinWait2` | pkg/tcp/socket.go:66-84 | FIN_WAIT_2, TIME_WAIT and CLOSED are entered only with all own data accepted by the peer |
| `TcpTheorems.WholeStreamAtClose` | pkg/tcp/socket.go:244-286 | on a fitting run a side past the peer's FIN holds or has read the peer's whole stream |
| `TcpFinStates.StateDiagram` | pkg/tcp/socket.go:64-286 | in every reachable world every event moves a running endpoint along the state diagram: which ACK ends FIN_WAIT_1 and LAST_ACK, where the peer's FIN leads from each state, in order or off the heap, and what VClose does |
| `TcpFinStates.TimeWaitIff` | pkg/tcp/socket.go:192-195 | a step takes a closer from FIN_WAIT_2 to TIME_WAIT if and only if it accepts the peer's FIN, and any other leaves it there |
| `TcpFinStates.FinMoves` | pkg/tcp/socket.go:243-286 | for any socket and peer: where a FIN in order leads, with and without an ACK, and that one out of order changes no state |
| `TcpFinStates.WriterSendsFinIff` | pkg/tcp/socket.go:303-312 | in every reachable world an idle writer with an empty buffer puts the FIN, numbered after all that was written, on its way if and only if the state is not ESTABLISHED |
| `TcpOrderlyClose.LastAckSendsFin` | pkg/tcp/socket.go:303-312 | for all initial numbers a run that ends with one side in FIN_WAIT_2, the other in LAST_ACK and its FIN on the way |
| `TcpOrderlyClose.OrderlyClose` | pkg/tcp/socket.go:64-286 | for all initial numbers a run of an orderly close, which ends with one side in TIME_WAIT and the other closed and removed |
| `TcpOrderlyClose.EarlyFinIsKept` | pkg/tcp/socket.go:287-295 | for every byte and all initial numbers a run in which the FIN overtakes the byte before it, is kept, and is accepted with the byte |
| `TcpClosing.FinWait2Iff` | pkg/tcp/socket.go:66-73 | a closer leaves FIN_WAIT_1 exactly when an ACK reaches the FIN's own number, one less than acknowledging the FIN, and then has nothing left to retransmit |
| `TcpClosing.ClosedIff` | pkg/tcp/socket.go:74-83 | the passive closer leaves LAST_ACK on a new ACK exactly when its FIN is still queued and the ACK covers the data before it |
| `TcpClosing.NeverClosesOnceEmpty` | pkg/tcp/socket.go:64-88 | a reachable endpoint in LAST_ACK whose FIN is no longer queued stays in LAST_ACK in every continuation |
| `TcpClosing.ClosingForever` | pkg/tcp/socket.go:70-83 | an endpoint in CLOSING stays in CLOSING in every continuation, whatever is acknowledged |
| `TcpBothClose.NeitherCloses` | pkg/tcp/socket.go:303-312 | for all initial numbers a run into both: one side in CLOSING, the other in LAST_ACK with everything acknowledged and nothing queued |
| `TcpClosing.ExhaustedStaysSilent` | pkg/tcp/socket.go:303-312 | in every continuation an endpoint whose writer is done and whose queue is empty sends no FIN and no data again |
| `TcpClosing.PeerSeesFinIffDelivered` | pkg/tcp/socket.go:495-507 | once a closer has nothing left to retransmit, its peer sees the FIN in a continuation if and only if the network still delivers the FIN packet sent before |
| `TcpLostFin.FinWait2WithoutFin` | pkg/tcp/socket.go:66-88 | for all initial numbers a run into that state: FIN_WAIT_2 with an empty queue while the peer is ESTABLISHED and has not received the FIN |
| `TcpInFlight.InFlightAtMostTwiceWindow` | pkg/tcp/socket.go:318-326 | with windows bounded by W <= 32767 at most 2W bytes are outstanding and the 16-bit counter is exact after any events from a bounded state |
| `TcpInFlight.InFlightFromHandshake` | pkg/tcp/api.go:53-251 | the bound and the exact counter hold from the handshake on, for the connecting and the accepting side, after any events |
| `TcpInFlight.IterationKeepsCountIff` | pkg/tcp/socket.go:303-436 | a whole iteration, burst, probe, FIN or wait, keeps an exact counter exact if and only if bytes in flight plus what it adds stay below 2^16 |
| `TcpInFlight.EventKeepsCountIff` | pkg/tcp/socket.go:380-436 | the same for each single event of a reachable endpoint, with acknowledgments between the segments of a burst |
| `TcpInFlight.CountExactIff` | pkg/tcp/socket.go:64-436 | over every run after the handshake the counter is exact throughout if and only if no event makes what is in flight reach 2^16 |
| `TcpInFlight.FullBurstWraps` | pkg/tcp/socket.go:324-387 | the failing state: window 65535, one byte in flight, a full write buffer |
| `TcpOverrun.CounterWraps` | pkg/tcp/socket.go:318-387 | for every stream of 65536 bytes and all initial numbers a run without sequence wrap at whose end all of it is outstanding and the counter is 0 |
| `TcpOverrun.ProbeWraps` | pkg/tcp/socket.go:403-436 | for all initial numbers a run in which a probe on top of a full window wraps the counter to 0 |
| `TcpDraining.DrainsToFirstGapIff` | pkg/tcp/socket.go:170-203 | draining leaves only segments beyond NextExpectedByte if and only if no segment of the contiguous run is queued twice, and then ends at the first gap |
| `TcpDraining.InOrderSegmentFillsRun` | pkg/tcp/socket.go:166-203 | an accepted in-order segment moves NextExpectedByte to the first position neither it nor the early segments cover |
| `TcpDraining.ReachableHeapSegmented` | pkg/tcp/socket.go:207-214 | in every reachable world the heap holds non-overlapping pieces of one fixed segmentation |
| `TcpDraining.StaleRootStopsDraining` | pkg/tcp/socket.go:170-202 | with a stale copy at the root no arriving text takes anything off the heap |
| `TcpDraining.StaleForever` | pkg/tcp/socket.go:170-214 | and in every continuation of the run the root stays stale and nothing leaves the heap |
| `TcpStaleCopy.StaleRootReached` | pkg/tcp/socket.go:207-214 | for all initial numbers a run into that state: one early segment delivered twice |
| `TcpWindow.WindowOfNewest` | pkg/tcp/socket.go:50-141 | after any run the window is that of a newest ACK segment among those that were acceptable when handled, or the old one if all were older |
| `TcpWindow.ProbingNeedsUpdate` | pkg/tcp/socket.go:143-153 | probing with a byte goes on, and the window stays, as long as every acceptable ACK handled is older than the last update |
| `TcpSendOrder.SendOrderIff` | pkg/tcp/socket.go:132-134 | segments are ordered by the window test as they were first sent, except exactly that the ACK of a FIN overtakes a later segment with the same sequence number |
| `TcpSendOrder.ConnectorWindowIsLastSent` | pkg/tcp/socket.go:123-141 | on the connecting side the window is that of the last-sent segment among those acceptable when handled, up to equal numbers and that exception |
| `TcpWindowRuns.OvertakingReached` | pkg/tcp/socket.go:244-258 | a run, for all initial numbers, in which the exception occurs |
| `TcpWindow.AcceptorTakesNoUpdateIff` | pkg/tcp/types.go:173-175 | in every run the accepting side has taken no window update if and only if every acceptable ACK it handled has a relative number below the peer's absolute initial number |
| `TcpWindow.AcceptorIgnoresWindows` | pkg/tcp/types.go:173-175 | in particular while the connecting side has written less than its initial number the accepting side keeps its view of the window and, once probing, its probe |
| `TcpWindowRuns.StuckReached` | pkg/tcp/socket.go:143-153 | for every initial number of the peer from 2 on a run in which the accepting side has handled an acceptable ACK of everything it sent, with an open window, and is still probing |
| `TcpWindowRuns.StuckForLong` | pkg/tcp/socket.go:403-468 | and it goes on probing in every continuation in which the peer writes less than its initial number |
| `Handshake.HandshakeAgreement` | pkg/tcp/api.go:36-263 | every ESTABLISHED end has a peer that recorded its number and whose number it recorded, both at byte 1; unique with distinct numbers |
| `FwdTables.LookupUnique` | pkg/network/network.go:159-170 | with one mask length and disjoint prefixes every map order gives the same lookup |
| `FwdTables.GetEntryByPrefix` | pkg/network/network.go:159-170 | the loop over the map finds an entry containing the address, or there is none |
| `FwdTables.MaskRoundTrip` | pkg/rip/rip.go:141-145 | the mask sent for a prefix length gives the same length back at the receiver |
| `FwdTables.MaskBits` | pkg/rip/rip.go:144 | the mask sent for a prefix length has exactly that many leading ones |
| `FwdTables.ContainsIffMaskedBitsAgree` | pkg/rip/rip.go:209-217 | a prefix contains the addresses that agree with it on the bits of its mask, and the masked prefix stored is the least of them |
| `RipRouter.EntryRoute` | pkg/rip/rip.go:190-234 | one advertised entry updates its own network by the distance-vector rule, keeps prefixes disjoint and touches no other route |
| `RipRouter.ResponseRoute` | pkg/rip/rip.go:188-236 | a response updates each network it offers once, in any order of entries, and nothing else |
| `RipRouter.ResponseOffers` | pkg/rip/rip.go:125-149 | a response lists every network once, poisoned towards its own next hop and attached neighbours |
| `RipRouter.PoisonReverse` | pkg/rip/rip.go:129-139 | a neighbour is told 16 for networks it is the next hop of or attached to, and the route's cost for all others |
| `RipRouter.ExpireRoute` | pkg/rip/rip.go:247-271 | expiry drops exactly the out-of-date or infinite RIP routes |
| `RipRouter.StoredRouteExpiresIff` | pkg/rip/rip.go:198-258 | a stored or refreshed route outlives exactly the ticks up to 12 seconds later |
| `RipRouter.ResponseOnlyLearns` | pkg/rip/rip.go:205-234 | no response and no expiry alters a local or static route; every other change is a RIP route with a next hop |
| `RipRouter.StoredCostIff` | pkg/rip/rip.go:192-234 | when an offer is stored over whatever is held, that no offer, infinity from the next hop included, takes a held route away, and the cost that wraps to 0 |
| `RipRouter.InfiniteResponseIgnored` | pkg/rip/rip.go:192-195 | a response whose costs are all infinite changes nothing, whoever sends it |
| `RipLayer.NetworkLayer.HandleResponse` | pkg/rip/rip.go:172-245 | the handler's loop changes the table as specified and notifies the neighbours if and only if an entry changed a cost or next hop: with each network listed once, if and only if routes differ, so never for a refresh or for infinite costs |
| `RipLayer.TriggersIffChanged` | pkg/rip/rip.go:222-241 | with each network listed once, an entry has been counted as an update if and only if the table's routes differ in the end |
| `RipLayer.TriggersForNothing` | pkg/rip/rip.go:222-241 | the failing case: a response that lists a network twice triggers an update and leaves every route as it was |
| `RipLayer.NetworkLayer.MakeResponse` | pkg/rip/rip.go:125-156 | the loop over the map builds the specified response in the order visited |
| `RipLayer.NetworkLayer.ExpireEntries` | pkg/rip/rip.go:251-269 | the collect-then-delete loops remove exactly the expired entries |
| `RipNetwork.ReachIffPath` | pkg/rip/rip.go:192 | the distance used is the length of a shortest path of links |
| `RipNetwork.ReceivedOk` | pkg/rip/rip.go:188-236 | handling any sound response, however old, keeps a router's table sound |
| `RipNetwork.RoutesAreSound` | pkg/rip/rip.go:190-236 | under any loss, delay, duplication and expiry no route costs less than the true distance, and learned costs are 1 to 15 |
| `RipNetwork.AdvertisementsAreSound` | pkg/rip/rip.go:125-147 | no advertisement in flight is below the true distance |
| `RipNetwork.FarNetworksHaveNoRoute` | pkg/rip/rip.go:25 | networks not reachable in 15 hops have no route |
| `RipNetwork.LostIffExpired` | pkg/rip/rip.go:188-271 | in every run a route disappears in a step if and only if the step is its expiry |
| `RipConvergence.ConvergesToShortestPaths` | pkg/rip/rip.go:188-245 | after k phases a router at distance d <= min(k, 15) holds cost d via a neighbour at distance d - 1 |
| `RipConvergence.ConvergedRoutesAreStable` | pkg/rip/rip.go:222-233 | no further step changes a converged cost or next hop |
| `RipConvergence.RoundsComputeDistances` | pkg/rip/rip.go:273-282 | by rounds, a route exists exactly within min(k, 15) hops and its cost is the distance |
| `RipPoison.NoTwoRouterLoops` | pkg/rip/rip.go:129-139 | with atomic responses no reachable state has two routers as each other's next hop |
| `RipLoop.DeliveryMakesLoopIff` | pkg/rip/rip.go:192-234 | a delivery, however late, makes two routers each other's next hop if and only if the receiver takes the offer while the sender's route leads to the receiver |
| `RipLoop.DelayedResponsesMakeLoop` | pkg/rip/rip.go:188-271 | in every network with three neighbouring routers a run with delayed responses and expiry that ends with such a pair |
| `RipLoop.TriangleLoops` | pkg/rip/rip.go:188-271 | such a run of three routers from their initial tables |
| `RipCodec.Marshal` | pkg/rip/rip.go:48-79 | the writing loop produces the specified layout |
| `RipCodec.Unmarshal` | pkg/rip/rip.go:81-123 | the reading loop accepts exactly the well-formed byte strings and decodes every entry |
| `RipCodec.WireFormat` | pkg/rip/rip.go:48-79 | command, count and the fields of each entry stand at their places in network order |
| `RipCodec.AcceptedFormat` | pkg/rip/rip.go:81-123 | exactly the requests with no entries and the responses of at most 64, of the length their count asks for, are accepted, and are decoded by that format |
| `RipCodec.MarshalUnmarshal` | pkg/rip/rip.go:48-123 | marshalled packets are accepted exactly when valid and come back with the same command and entries |
| `RipCodec.UnmarshalMarshal` | pkg/rip/rip.go:48-123 | accepted bytes are reproduced once the entry count is restored |
| `RipCodec.CountIsLost` | pkg/rip/rip.go:89-122 | without that, only packets with no entries survive, since NumEntries is never filled in |
| `RipCodec.ResponseAcceptedIff` | pkg/rip/rip.go:98-106 | a response is handled whole exactly when it has at most 64 entries |
| `Forwarding.Decide` | pkg/network/network.go:214-255 | the chain of lookups over the map reaches one of the decisions the table allows |
| `Forwarding.HandlePacket` | pkg/network/network.go:195-285 | the verdict on a packet is one that Judges allows: VerdictAtDestination says which at its destination, TransitOutcome and NoRouteIsError elsewhere |
| `Forwarding.SendPacketToDestIP` | pkg/network/network.go:288-363 | what is done with an own packet is what Originates allows: looped back exactly for an own address (LoopsBackIff), and otherwise sent with TTL 16 as the lookups decide |
| `Forwarding.VerdictAtDestination` | pkg/network/network.go:202-231 | at its destination a packet is accepted if and only if its checksum is correct, the interface is up and its protocol has a handler; without a handler it is an error, on a down interface dropped |
| `Forwarding.LoopsBackIff` | pkg/network/network.go:295-347 | a node's own packet is looped back if and only if it is for one of its addresses |
| `Forwarding.LoopbackDelivers` | pkg/network/network.go:346-347 | what is looped back is accepted by the node itself if and only if its stamp is not 0 and its protocol has a handler |
| `Forwarding.TransitOutcome` | pkg/network/network.go:233-265 | over any table a packet for somebody else is never accepted, is passed on only over a link that is up, to its destination or the next hop of a route to it, and is dropped silently only when no TTL is left |
| `Forwarding.NoRouteIsError` | pkg/network/network.go:236-250 | with no route to its destination handling and sending a packet are errors |
| `Forwarding.HopGoesCloser` | pkg/network/network.go:233-249 | over converged tables each hop is forced and leads to the host or to a router one hop closer |
| `Forwarding.ForwardingDelivers` | pkg/network/network.go:195-285 | a packet handled by a router at distance d is accepted by its host if and only if its TTL is at least d + 2, its checksum and the d + 1 that replace it on the way pass, and the host handles its protocol |
| `Forwarding.RipDelivers` | pkg/network/network.go:233-265 | after RIP from tables wired as configured, hosts within 15 hops accept what a router sends, and exactly those within 14 what it handles with TTL 16, if and only if the checksums pass and there is a handler |
| `Forwarding.HostDelivers` | pkg/network/network.go:288-363 | a host's own send leaves for its default router with TTL 16, whatever the map order, and is accepted by the host it is for exactly within 14 hops of that router, if the checksums pass and there is a handler |
| `Forwarding.ForwardedAtMost15Times` | pkg/network/network.go:262-265 | over any tables, looping ones included, a packet is forwarded at most 15 times |
| `Checksum.AcceptedIff` | pkg/network/network.go:202-209 | a header is accepted exactly when its words sum to 0 modulo 65535 and its stamp is not 0 |
| `Checksum.StampAcceptedIff` | pkg/network/network.go:172-189 | a freshly stamped header passes exactly when the stamp is not 0 |
| `Checksum.ForwardedHeaderPasses` | pkg/network/network.go:262-279 | the forwarder's TTL rewrite passes the next hop exactly when the new checksum is not 0 |
| `Checksum.UnluckyHeaderIsRefused` | pkg/network/network.go:202-209 | the failing case: a header stamped 0 and refused |

## Left out

- VRead, VWrite: in `TcpNetwork` an application may read or write a chunk in every state, because a call begun before closing goes on; the theorems therefore cover more runs than the refusals in pkg/tcp/api.go:272 and pkg/tcp/api.go:303 leave.
- Blocking, condition variables, mutexes and goroutine wake-ups: no liveness is claimed; a step that would block is a step not taken.
- Timers, round-trip measurement and the retransmission timeout: a timeout may happen at any time.
- TIME_WAIT expiry and the socket, listener and port tables: a removed socket is one that is delivered nothing more.
- HandshakeAgreement: does not model data segments left over from earlier connections on the same ports.
- InFlightAtMostTwiceWindow, InFlightFromHandshake: are about one endpoint and any peer that advertises at most 32767; this code's own peers advertise up to 65535, where CountExactIff, CounterWraps and ProbeWraps apply.
- RFC 9293 behaviour the code does not have (RST, simultaneous open, urgent data, options, congestion control).
- `Interface` values in a table are copies, where the source shares one pointer per interface; `UpdateInterfaceState` and interfaces going down during forwarding are not modelled.
- HandlePacket: header parsing is not modelled; the fields it reads are given, and the two marshalling errors are left out.
- ForwardingDelivers, RipDelivers, HostDelivers: are about packets for hosts; of one for a router's own address VerdictAtDestination says what that router does.
- HostDelivers: the default router is any router with the gateway's address, and its wiring beyond the tables is given by `AllWired`.
- The netstack TCP header encoding, `ipv4header` parsing, UDP sockets and address resolution: packets are records, header bytes are given.
- RIP requests: answering one is sending a response, which the runs allow at any time.
- Command line, file transfer, printing, configuration parsing and network generation tools: user interface and tooling.
