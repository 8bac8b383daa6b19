# netmap: verified models of its rings, switch, allocator and pipes

netmap gives user programs direct access to packet rings that they share with the kernel, the NIC, other switch ports
and the host stack. Nothing in a single function of netmap says why that is safe: it rests on circular-order invariants
of ring indices, on who owns a slot when, and on protocols between parties that run at the same time. This project
models these parts in Dafny and proves what each step keeps, and what holds over every run.

| file | models |
|---|---|
| `Ring.dfy` | circular indices, `nm_next`, `nm_prev`, and the offset between NIC and netmap indices |
| `Kring.dfy` | the kernel's view of a ring, with the sync prologues and finalize routines |
| `Buffers.dfy`, `Fates.dfy` | which buffers a ring has and what copies leave in them; what becomes of the items of a stream |
| `Lease.dfy`, `LeaseRuns.dfy`, `LeaseBlocks.dfy`, `LeaseRing.dfy` | the VALE lease protocol: its steps and invariant, whole runs with any number of writers, what becomes of the slots of one writer, and the code on arrays |
| `LeaseBytes.dfy` | the same protocol with the bytes of the packets in the buffers of the ring |
| `LeaseBound.dfy` | the same protocol without the bound on outstanding leases |
| `Bytes.dfy`, `Learning.dfy`, `Preflush.dfy`, `Flush.dfy`, `FlushLease.dfy` | the VALE switch: its learning table, the gathering of slots into batches, the two-pass flush, and the flush on top of the lease protocol |
| `IxgbeRx.dfy`, `IxgbeTx.dfy` | ixgbe receive and transmit rings, with the NIC as a party that runs at any time |
| `Pipe.dfy`, `PipeLifetime.dfy` | pipes: the two rings as a bounded FIFO with both ends running at the same time, and the life of the two ends |
| `Mbq.dfy`, `HostRing.dfy` | the mbuf queue and the receive ring of the host stack, with forwarding |
| `ZeroCopy.dfy`, `Streams.dfy` | forwarding by exchange or copy of buffers, in the kernel and in the bridge example |
| `StopRing.dfy` | the handshake that stops a ring |
| `BitmapPool.dfy`, `PoolLayout.dfy`, `MemId.dfy` | the allocator: bitmaps and buffer lists, cluster layout and address translation, allocator ids |
| `Checksum.dfy`, `Gso.dfy`, `GsoLease.dfy` | the two Internet checksum implementations, GSO segmentation, and its segments in the slots of a lease |

Conventions. A party that runs concurrently is a sequence of atomic steps; where the code of one party is a loop, the
other party runs for an arbitrary time between any two of its accesses (`IxgbeRx.RxRing.Nic`,
`IxgbeTx.TxRing.Nic`, `Pipe.PipeRings.Others`, `FlushLease.Others`). Histories of frames, packets and slots are ghost fields that the invariants
tie to the rings.
Ring positions are compared by their distance from a base index (`Ring.Dist`); the lease history uses absolute
positions. Object references in the C code are Dafny objects or, for rings, arrays of slots. Predicates written
`P == true` in contracts and invariants mean `P`; the comparison makes the verifier treat `P` as one obligation.

## Where the code does not do what one would expect

- When the interval wraps, the prologues do not check that `cur` is within the ring; `Kring.TxAccepts` and
  `Kring.RxAccepts` give exactly what is accepted. A refused `nm_txsync_prologue` may have stored a `head` beyond the
  ring, and a refused `nm_rxsync_prologue` has always stored `head` and `cur`.
- `netmap_pipe_rxsync` and `netmap_rxsync_from_host` do not call the receive prologue. They release what the user had
  released at the previous sync and read `head` and `cur` again without a check, so the models assume a user that
  advances them within what it was shown.
- The lease protocol needs fewer than `nkr_num_slots` leases to be issued while one of them is held or unpublished. On
  every ring of at least 3 slots, `nkr_num_slots` leases can leave finished blocks unpublished for ever
  (`LeaseBound.StrandedAtTheBound`, `LeaseBound.StrandedForEver`); a ring of 2 slots needs no bound
  (`LeaseBound.WhenTheBoundMatters`). Empty leases, made when the ring is full, can be overtaken by `hwtail`
  (`LeaseRuns.EmptyLeaseIsOvertaken`).
- The learning table answers port 0 for the zero address while its entry is clear; `Learning.AnswerIsLatest` says that
  this is the only wrong answer.
- When the virtio-net header fills the first fragment, the switch reads the ethernet header from the second one without
  a look at its length, and may learn an address from bytes beyond the frame (`Learning.HeaderBeyondFrame`);
  `Learning.HeaderWithinFrame` says exactly when the header lies within the frame.
- With fewer than 32 buffers, overwriting the first word of the bitmap sets bits of buffers that do not exist;
  `BitmapPool.Pool.SetAside` says that the count of free buffers is right exactly when there are at least 32.
- A ring records the buffer size in 16 bits, so with buffers of 64 KB `NETMAP_BUF` finds buffer 0 only
  (`PoolLayout.BufferThroughRing`).
- A GSO packet without payload yields no segment. The slots that the switch asks for are enough for all segments
  (`Gso.ReservationSuffices`), but it may be granted fewer, and it compares those with the number of fragments. A packet of
  one fragment can need any number of segments (`Gso.OneFragmentTooMany`), so what the code calls a thing that should never
  happen does: a segment is stored where the next block starts (`GsoLease.FragmentFitsSegmentsDoNot`,
  `GsoLease.FirstBeyond`). `GsoLease.WithinLease` says exactly which packets stay within the lease.
- Slots have one owner at a time, buffers need not. A user may store one buffer in two slots of the host ring, and a packet
  that it has not released is then overwritten (`HostRing.HeldIsOverwritten`); `HostRing.HeldIsKept` says exactly when it
  is not, and `HostRing.HeldInRuns` that a user who keeps its buffers is safe. The same goes for the rings of the switch
  (`LeaseBytes.SparesExactly`).
- `move` in the bridge example does not end with a limit of 0 if there is something to move and room for it;
  `ZeroCopy.WhenMoveEnds` gives the exact condition.
- After a refused sync, `netmap_ring_reinit` takes over the indices that the user has stored, unless one is beyond the
  ring; runs of ixgbe rings and of pipes are followed up to there.

## Model

| member | source | states |
|---|---|---|
| `Ring.Dist` | sys/dev/netmap/netmap_kern.h:813-821 | the slots between two indices: less than the ring size, and the number of steps that lead from one to the other |
| `Ring.N2k` | sys/dev/netmap/netmap_kern.h:1416-1426 | a NIC index becomes a ring index, and `K2n` undoes it |
| `Ring.SameDistance` | sys/dev/netmap/netmap_kern.h:1416-1440 | both translations keep distances and successors, so loop indices of the two rings stay related |
| `KringModel.Kring.TxSyncPrologue` | sys/dev/netmap/netmap.c:1506-1570 | whatever the user stored, accepts exactly when all values are in range and head and cur lie in circular order between rhead and rtail, or cur is beyond the ring while the interval wraps and head has not; and what is stored in each case |
| `KringModel.Kring.RxSyncPrologue` | sys/dev/netmap/netmap.c:1585-1645 | the same between hwcur and hwtail, with head and cur stored even when they are refused |
| `KringModel.Kring.TxAcceptsExactly` | sys/dev/netmap/netmap.c:1530-1560 | a user that moved head by x slots from rhead and cur by y is accepted exactly if x <= y and y is no more than the kernel allows |
| `KringModel.Kring.RxAcceptsExactly` | sys/dev/netmap/netmap.c:1604-1629 | the same from hwcur |
| `KringModel.Kring.TxSyncFinalize` | sys/dev/netmap/netmap_kern.h:985-996 | the user's tail and its copy are hwtail |
| `KringModel.Kring.RxSyncFinalize` | sys/dev/netmap/netmap_kern.h:1003-1013 | the user's tail is hwtail, and head and cur are copied for the next round |
| `KringModel.OrderThroughPrologue` | sys/dev/netmap/netmap.c:1506-1570 | indices accepted between rhead and the tail are also in order from hwcur |
| `KringModel.Kring.Tx` | sys/dev/netmap/netmap.c:835-849 | a transmit ring starts in order, with all slots but one available |
| `KringModel.Kring.Rx` | sys/dev/netmap/netmap.c:859-870 | a receive ring starts in order and empty |
| `Lease.ReserveKeeps` | sys/dev/netmap/netmap_vale.c:1293-1320 | reserving keeps the protocol invariant (blocks of unpublished tickets tile the ring from hwtail to hwlease, at most n-1 busy slots, reports stored) and gives the writer its block |
| `Lease.GrantedExactly` | sys/dev/netmap/netmap_vale.c:1507-1511 | what is granted is what is asked for, or all slots that are not busy but one |
| `Lease.StoreKeeps` | sys/dev/netmap/netmap_vale.c:1541-1577 | a slot stored without the lock lies in the writer's own block and keeps the invariant |
| `Lease.RollBackKeeps` | sys/dev/netmap/netmap_vale.c:1592-1603 | the last writer may give back unused slots |
| `Lease.BlankKeeps` | sys/dev/netmap/netmap_vale.c:1604-1609 | other writers may fill unused slots with empty packets |
| `Lease.SettledSays` | sys/dev/netmap/netmap_vale.c:1592-1609 | leftover slots: the last writer moves hwlease back to the first of them, any other sets their length and flags to 0; no other slot and no buffer changes |
| `Lease.ScanConsumes` | sys/dev/netmap/netmap_vale.c:1617-1628 | the scan of reports reaches exactly the first ticket that is still held, and consumes all before it |
| `Lease.PublishKeeps` | sys/dev/netmap/netmap_vale.c:1617-1634 | publishing after the scan keeps the invariant |
| `Lease.ReportKeeps` | sys/dev/netmap/netmap_vale.c:1611-1648 | a completion in any order keeps the invariant |
| `Lease.SyncKeeps` | sys/dev/netmap/netmap_vale.c:1699-1739 | an rxsync of the reader keeps the invariant |
| `Lease.ReleasedSays` | sys/dev/netmap/netmap_vale.c:1716-1731 | released slots lose NS_BUF_CHANGED and nothing else, and no other slot changes |
| `Lease.UserKeeps` | sys/dev/netmap/netmap_vale.c:1717-1732 | whatever the reader writes into slots it was shown, the invariant stays |
| `LeaseRuns.StepGood` | sys/dev/netmap/netmap_vale.c:1502-1648 | every step of every party keeps the invariant and the local state of all writers |
| `LeaseRuns.RunSafe` | sys/dev/netmap/netmap_vale.c:1255-1320 | in every run the invariant holds, the published stream only grows, and hwtail equals hwlease when no writer is active |
| `LeaseRuns.ExclusiveSlots` | sys/dev/netmap/netmap_vale.c:1502-1512 | no two writers hold the same slot |
| `LeaseRuns.WritesBeyondTail` | sys/dev/netmap/netmap_vale.c:1502-1512 | a writer holds no slot between hwcur and hwtail |
| `LeaseRuns.NeverPassed` | sys/dev/netmap/netmap_vale.c:1611-1634 | hwtail never passes a slot of an unfinished writer |
| `LeaseRuns.NothingStranded` | sys/dev/netmap/netmap_vale.c:1586-1648 | with no writer active, everything reserved is published |
| `LeaseRuns.StepStream` | sys/dev/netmap/netmap_vale.c:1502-1648 | what has been published is never changed or withdrawn |
| `LeaseRuns.ReaderSees` | sys/dev/netmap/netmap_vale.c:1699-1739 | the slots from rtail to hwtail are the unseen part of the published stream, in reservation order |
| `LeaseRuns.InitialGood` | sys/dev/netmap/netmap.c:858-870 | a new ring satisfies the invariant |
| `LeaseRuns.EmptyLeaseIsOvertaken` | sys/dev/netmap/netmap_vale.c:1502-1512 | a lease without slots can be overtaken by hwtail |
| `LeaseBound.StrandedAtTheBound` | sys/dev/netmap/netmap_vale.c:1613-1628 | on every ring of at least 3 slots, n leases issued while the first is held are enough: all writers have completed, all blocks but the first are unpublished, and stay so whatever happens next |
| `LeaseBound.StrandedForEver` | sys/dev/netmap/netmap_vale.c:1611-1634 | with no writer active and any number of leases to come, hwtail never moves again exactly if it differs from hwlease |
| `LeaseBound.StuckForEver` | sys/dev/netmap/netmap_vale.c:1611-1634 | once slots are reserved beyond hwtail and no active writer started there, no run of any parties moves hwtail |
| `LeaseBound.WhenTheBoundMatters` | sys/dev/netmap/netmap_vale.c:1613-1628 | blocks can be stranded exactly on rings of at least 3 slots |
| `LeaseBound.TwoSlots` | sys/dev/netmap/netmap_vale.c:1611-1634 | on a ring of 2 slots, with any number of leases, nothing is stranded |
| `LeaseBlocks.WroteRun` | sys/dev/netmap/netmap_vale.c:1541-1610 | in every run the slots that one writer stores stay together, in its order, and unused slots of its block are empty packets |
| `LeaseBlocks.DeliveredInOnePiece` | sys/dev/netmap/netmap_vale.c:1502-1648 | from the reservation on, in any interleaving until no writer is active: what the writer stored is in the published stream, in one piece and behind all that was reserved before |
| `LeaseBytes.StepSafe` | sys/dev/netmap/netmap_vale.c:1541-1577 | every step of any party keeps the buffers of the ring different, and what is in those that the reader has not been shown |
| `LeaseBytes.RunSafe` | sys/dev/netmap/netmap_vale.c:1502-1648 | so does every run, which is a run of the lease protocol |
| `LeaseBytes.ReaderReads` | sys/dev/netmap/netmap_vale.c:1541-1577 | the reader finds in the buffers of new slots what was last put there for their positions in the stream |
| `LeaseBytes.WroteRun` | sys/dev/netmap/netmap_vale.c:1541-1610 | in every run, what one writer stores and copies stays together in its order |
| `LeaseBytes.DeliveredWithBytes` | sys/dev/netmap/netmap_vale.c:1502-1648 | from the reservation on, in any interleaving until no writer is active: what the writer stored is in the stream in one piece, and the buffers of its positions begin with what it copied |
| `LeaseBytes.SparesExactly` | sys/dev/netmap/netmap_vale.c:1548-1574 | a copy to one slot spares the packet of another, whatever the data are, exactly if they have different buffers |
| `LeaseRingImpl.LeaseRing.Reserve` | sys/dev/netmap/netmap_vale.c:1256-1320 | the code on arrays performs the reserve step of the protocol, and grants what is asked for or all that is free but one slot |
| `LeaseRingImpl.LeaseRing.Store` | sys/dev/netmap/netmap_vale.c:1547-1580 | the code on arrays performs the store step, which needs no lock |
| `LeaseRingImpl.LeaseRing.Settle` | sys/dev/netmap/netmap_vale.c:1593-1610 | the leftover of a lease is rolled back or blanked, as the protocol step says |
| `LeaseRingImpl.LeaseRing.Complete` | sys/dev/netmap/netmap_vale.c:1586-1648 | the code on arrays, with its loops, performs the complete step |
| `LeaseRingImpl.LeaseRing.ScanReports` | sys/dev/netmap/netmap_vale.c:1617-1628 | the scan loop ends and computes what the protocol step says |
| `LeaseRingImpl.LeaseRing.RxSync` | sys/dev/netmap/netmap_vale.c:1699-1739 | the reader's code fails exactly when the prologue refuses, and otherwise performs the rxsync step |
| `Learning.AnswerIsLatest` | sys/dev/netmap/netmap_vale.c:1238-1248 | a lookup gives the port of the latest frame from that address, or broadcast if it was never seen or evicted by a collision since; exactly the zero address with a clear entry is answered otherwise |
| `Learning.Bridge.Learn` | sys/dev/netmap/netmap_vale.c:1196-1248 | the table stays what the log of all frames says; on the bytes of the frame, in each layout: the source address is noted with the port unless it is a group address, a group destination is broadcast, and any other destination address gets the port where it was last seen, or broadcast if it was forgotten |
| `Learning.FrameIsAnswered` | sys/dev/netmap/netmap_vale.c:1207-1248 | which bytes are noted and which are looked up, in each layout, with the exception of the zero address; and a frame in no layout is refused |
| `Learning.RtHash` | sys/dev/netmap/netmap_vale.c:1144-1159 | every address has an entry of the table |
| `Learning.RtHashInRange` | sys/dev/netmap/netmap_vale.c:1144-1159 | the theorems about any hash apply to the one of the switch |
| `Learning.ValueInjective` | sys/dev/netmap/netmap_vale.c:1221-1223 | addresses loaded as integers are equal only if their bytes are |
| `Learning.EthernetHeader` | sys/dev/netmap/netmap_vale.c:1207-1219 | the frame is refused, or the buffer that the header is read from has room for one |
| `Learning.HeaderWithinFrame` | sys/dev/netmap/netmap_vale.c:1207-1219 | the header that is read lies within the frame exactly if it is in the first fragment or the second one has 14 bytes |
| `Learning.HeaderBeyondFrame` | sys/dev/netmap/netmap_vale.c:1211-1233 | a frame of 2 bytes from which an address is learned |
| `Learning.Bridge.constructor` | sys/dev/netmap/netmap_vale.c:341-342 | a new table stands for an empty log |
| `Flush.Scratch.Flush` | sys/dev/netmap/netmap_vale.c:1328-1655 | the two-pass flush refines a per-packet switch: exactly the attached ports other than the source that are addressed and accept packets receive something, namely the longest prefix that fits of what is addressed to them, in arrival order; every packet is addressed to exactly those that its bytes and the log call for (`Flush.SwitchForwards`); the queues end empty |
| `Flush.Scratch.FirstPass` | sys/dev/netmap/netmap_vale.c:1345-1384 | the decisions are those of the per-packet switch, each packet is on the linked list of its destination in arrival order, and each destination with packets is listed once |
| `Flush.Scratch.AddBroadcast` | sys/dev/netmap/netmap_vale.c:1393-1405 | broadcast traffic adds exactly the other ports that were not listed |
| `Flush.Scratch.SecondPass` | sys/dev/netmap/netmap_vale.c:1407-1654 | each listed destination gets its packets and all queues are cleared |
| `Flush.Scratch.Append` | sys/dev/netmap/netmap_vale.c:1374-1383 | a packet is appended to its linked list without a change to the others |
| `Flush.Place` | sys/dev/netmap/netmap_vale.c:1354-1372 | learning, and the decision where a packet goes or that it is dropped |
| `Flush.Scratch.Serve` | sys/dev/netmap/netmap_vale.c:1443-1512 | a destination receives the longest prefix that fits its free slots, although only the needed ones are reserved |
| `Flush.Scratch.Deliver` | sys/dev/netmap/netmap_vale.c:1519-1585 | the copy loop follows both lists and writes the slots of the longest prefix that fits |
| `Flush.Scratch.Pick` | sys/dev/netmap/netmap_vale.c:1525-1536 | the next packet in arrival order is taken from the right list |
| `Flush.CopyPacket` | sys/dev/netmap/netmap_vale.c:1546-1580 | all fragments of a packet are written with their count, and only the last without the more-fragments flag |
| `Flush.MergeIsAddressed` | sys/dev/netmap/netmap_vale.c:1530-1536 | merging the unicast and the broadcast list gives the packets for a destination in arrival order |
| `Flush.FittingIsLongest` | sys/dev/netmap/netmap_vale.c:1537-1539 | a prefix of the packets fits the lease exactly if it is no longer than what is delivered |
| `Flush.FittingCapped` | sys/dev/netmap/netmap_vale.c:1508-1511 | asking for no more than needed does not change what is delivered |
| `Flush.SlotsAddressed` | sys/dev/netmap/netmap_vale.c:1452-1452 | the two queue lengths together are the slots that a destination needs |
| `Flush.RenderedLength` | sys/dev/netmap/netmap_vale.c:1546-1580 | the slots written are exactly the fragments of the delivered packets |
| `Flush.Scratch.constructor` | sys/dev/netmap/netmap_vale.c:374-402 | all queues start empty |
| `Flush.CopyIsFaithful` | sys/dev/netmap/netmap_vale.c:1548-1574 | a fragment arrives unchanged exactly if its rounded length fits both buffers or is 64, and otherwise its first 64 bytes do; the flags are the number of fragments, and whether another one follows |
| `Flush.SwitchedRouted` | sys/dev/netmap/netmap_vale.c:1356-1372 | no packet is ever decided to go to its source or to a port that is not attached |
| `Flush.SwitchForwards` | sys/dev/netmap/netmap_vale.c:1345-1392 | for every packet of a batch, on its bytes and what was learned before: with a group destination or one that is not remembered it is on the list of every port, with one remembered at another attached port on the list of that port and no other, otherwise on none; fragments that start no packet are on none |
| `Flush.AddressedExactly` | sys/dev/netmap/netmap_vale.c:1378-1392 | the list of a destination has exactly the packets decided for it or for all, each once, in arrival order |
| `Flush.RenderedAt` | sys/dev/netmap/netmap_vale.c:1537-1590 | fragment k of packet m of those delivered is in the slot after all fragments before it |
| `Preflush.Preflush` | sys/dev/netmap/netmap_vale.c:1051-1120 | for slots that end with a complete packet and any batch size: the batches together are all slots in order, packets are counted by their fragment flags, the switch forwards each packet as `Flush.SwitchForwards` says, with what was learned from all before it, and each batch is delivered as `Flush.Scratch.Flush` says |
| `Preflush.Gather` | sys/dev/netmap/netmap_vale.c:1075-1106 | one batch: complete packets, each up to the first fragment that announces no other, with their fragment counts and cleared links, at least a batch of fragments or all that are left |
| `Preflush.EntrySays` | sys/dev/netmap/netmap_vale.c:1079-1086 | an entry has the bytes of the buffer of its slot, its length and its flags; a bad index is buffer 0 |
| `Preflush.TwoBatches` | sys/dev/netmap/netmap_vale.c:1105-1106 | two batches, one after the other, are switched like one |
| `FlushLease.SwitchedIntoStream` | sys/dev/netmap/netmap_vale.c:1443-1648 | a writer that reserves what its packets need and stores what the switch delivers: in any interleaving with other writers and the reader, the published stream of the port grows by exactly the longest prefix that fits of what is addressed to it, in one piece and with its bytes |
| `FlushLease.ServeRing` | sys/dev/netmap/netmap_vale.c:1443-1648 | the code for one destination, on the ring and the buffers of the port, while other writers and the reader run between any two of its steps: it reserves, copies and stores exactly what the switch delivers, and completes; all of it is a run of the lease protocol |
| `FlushLease.ServedArrives` | sys/dev/netmap/netmap_vale.c:1443-1648 | whatever the others do afterwards until no writer is active, what `FlushLease.ServeRing` stored is in the stream of the port, in one piece and with its bytes |
| `FlushLease.DeliveryFits` | sys/dev/netmap/netmap_vale.c:1508-1539 | what is delivered fits what is granted |
| `IxgbeRx.RxRing.Receive` | LINUX/ixgbe_netmap_linux.h:343-348 | the NIC takes the next frame from the wire exactly if it owns a descriptor, and the ring invariant stays |
| `IxgbeRx.RxRing.ImportLoop` | LINUX/ixgbe_netmap_linux.h:339-352 | the unbounded import loop ends while the NIC keeps running, and has taken all frames received by then, in order |
| `IxgbeRx.RxRing.Import` | LINUX/ixgbe_netmap_linux.h:336-358 | the user gets, in order and in the slots after hwtail, the next frames of the wire: all that were waiting or arrived meanwhile; other slots and all buffers stay |
| `IxgbeRx.RxRing.RecycleLoop` | LINUX/ixgbe_netmap_linux.h:370-389 | succeeds exactly if all released slots have good buffers; their descriptors then hold those buffers with DD clear, and only their changed-buffer flags are cleared |
| `IxgbeRx.RxRing.Release` | LINUX/ixgbe_netmap_linux.h:368-399 | succeeds exactly if all released slots have good buffers; hwcur, and with it RDT (`TailBeforeHwcur`), then moves to head |
| `IxgbeRx.RxRing.RxSync` | LINUX/ixgbe_netmap_linux.h:296-408 | succeeds exactly if there is no carrier or indices and released buffers are good; when it imports, the slots after hwtail carry the next frames of the wire, at least all that had arrived before the sync; released slots lose their changed-buffer flag, all or up to a bad buffer, and all other slots stay; none of the frames is lost, doubled, reordered or invented, and the indices move accordingly |
| `IxgbeRx.RxRing.Reset` | LINUX/ixgbe_netmap_linux.h:475-522 | a reinitialisation keeps the user's slots out of the NIC's reach: RDT is n-1 minus their number, and the offset realigns the rings; exactly the pending frames are lost |
| `IxgbeRx.RxRing.TailBeforeHwcur` | LINUX/ixgbe_netmap_linux.h:390-398 | in every reachable state RDT is just before the descriptor of hwcur, which has DD clear |
| `IxgbeRx.RxRing.NicOwnsNoUserSlot` | LINUX/ixgbe_netmap_linux.h:390-398 | in every reachable state the NIC owns no slot of the user, and its descriptors point to the buffers of their slots |
| `IxgbeRx.RxRing.Run` | LINUX/ixgbe_netmap_linux.h:296-408 | every run of frames, user actions, syncs and resets up to a refused sync keeps the ring invariant, and each event does exactly what it should: a frame is taken if and only if the NIC owns a descriptor, a forced sync imports what is there, a reset loses what is pending; without a reset the user gets the frames of the wire one by one and misses none |
| `IxgbeRx.NothingMissed` | LINUX/ixgbe_netmap_linux.h:296-408 | in every sequence of such events without a reset, all frames that are no longer pending were imported |
| `IxgbeTx.TxRing.Transmit` | LINUX/ixgbe_netmap_linux.h:189-226 | the oldest queued frame, if any, goes to the wire, and the ring invariant stays |
| `IxgbeTx.TxRing.FillLoop` | LINUX/ixgbe_netmap_linux.h:191-218 | while the NIC runs, the descriptors from TDT on receive the user's slots in order, none that the NIC owns is touched, and only the flags of these slots are cleared |
| `IxgbeTx.TxRing.Submit` | LINUX/ixgbe_netmap_linux.h:188-227 | what was ever handed to the NIC grows by exactly the slots from hwcur to head, with lengths cut to the buffer size |
| `IxgbeTx.TxRing.Reclaim` | LINUX/ixgbe_netmap_linux.h:257-275 | all slots but one and those still queued are free again, and hwtail never moves back |
| `IxgbeTx.TxRing.TxSync` | LINUX/ixgbe_netmap_linux.h:128-280 | a whole round (prologue, sync, finalize) fails exactly if the prologue refuses; it hands over one descriptor for each accepted slot, in order, with its buffer, its length or that of a buffer if that is less, and a report exactly if asked for or twice per round; it reclaims exactly when asked to or when out of slots with a completion reported, and leaves hwcur, rhead, rcur, rtail = hwtail in circular order |
| `IxgbeTx.SubmittedStandFor` | LINUX/ixgbe_netmap_linux.h:192-216 | descriptor d has the buffer of slot d, min(length, buffer size), and report status exactly if NS_REPORT is set or its index is 0 or n / 2 |
| `IxgbeTx.TxRing.Reset` | sys/dev/netmap/netmap.c:2888-2936 | a reinitialisation makes all slots but one free and realigns the offset |
| `IxgbeTx.TxRing.FreeSlotsAreNotPending` | LINUX/ixgbe_netmap_linux.h:257-275 | in every reachable state no slot that the user may fill is between n2k(TDH) and hwcur |
| `IxgbeTx.TxRing.Run` | LINUX/ixgbe_netmap_linux.h:128-280 | every run of any user up to a refused sync keeps the ring invariant; what is handed over in a run are exactly the descriptors, as `IxgbeTx.TxRing.TxSync` says, of the slots up to head of each accepted sync, as they were then; without a reset the wire gets all of it, in order |
| `IxgbeTx.NothingDropped` | LINUX/ixgbe_netmap_linux.h:128-280 | in every sequence of such events without a reset, all that is no longer queued was transmitted |
| `Pipe.PipeRings.TxSync` | sys/dev/netmap/netmap_pipe.c:182-244 | for whatever the receiver does between any two swaps: the state of both rings afterwards is that of a transfer; the oldest submitted slots have gone, in order, until none was left or the receive ring was full as seen at the start, and the receiver is where its own steps lead |
| `Pipe.TransferOk` | sys/dev/netmap/netmap_pipe.c:182-244 | a transfer keeps both ends of the FIFO, submits nothing and withdraws nothing, and keeps the books: the buffers of both rings and those taken out are those of the start and those put in |
| `Pipe.TransferMoves` | sys/dev/netmap/netmap_pipe.c:196-241 | a transfer moves the oldest submitted slots, in order, until none is left or the receive ring is full, moves both indices by as many, and gives the sender all other slots of its ring |
| `Pipe.LaidSteps` | sys/dev/netmap/netmap_pipe.c:215-229 | a receiver that runs while slots are exchanged does what it would have done before, so no exchange is seen half done |
| `Pipe.OnlyFreeTouched` | sys/dev/netmap/netmap_pipe.c:215-229 | a send stores only into free slots of the receive ring: all others are as the receiver itself leaves them |
| `Pipe.PipeRings.Limit` | sys/dev/netmap/netmap_pipe.c:196-207 | no more than the new slots and the room in the receive ring, and as many as one of these |
| `Pipe.PipeRings.SwapLoop` | sys/dev/netmap/netmap_pipe.c:215-229 | whatever the receiver does between two turns, the loop exchanges that many slots pairwise, and nothing else changes but by the receiver |
| `Pipe.PipeRings.Others` | sys/dev/netmap/netmap_pipe.c:247-265 | the receiver takes these steps, each as `Pipe.After` says |
| `Pipe.StepOk` | sys/dev/netmap/netmap_pipe.c:247-265 | every step of a receiver that writes and releases what it was shown, and syncs, keeps the order of its ring, touches no free slot and only makes room |
| `Pipe.PipeRings.RxSync` | sys/dev/netmap/netmap_pipe.c:247-265 | everything sent has been shown to the user, and the slots released at the previous sync are recovered |
| `Pipe.PipeRings.Recover` | sys/dev/netmap/netmap_pipe.c:253-253 | the first step of an rxsync moves hwcur to rhead and nothing else |
| `Pipe.PipeRings.Show` | sys/dev/netmap/netmap_pipe.c:256-257 | the second step shows the user all that was sent |
| `Pipe.PipeRings.Send` | sys/dev/netmap/netmap.c:1506-1570 | for any indices: accepted exactly as the prologue says; then the state is that of the accepted slots submitted and transferred, otherwise nothing is submitted or sent |
| `Pipe.InOrderAndBounded` | sys/dev/netmap/netmap_pipe.c:182-265 | what was shown is a prefix of what was sent, that is a prefix of what was submitted, and the differences fit the rings |
| `Pipe.PipeRings.WriteTx` | sys/dev/netmap/netmap_pipe.c:182-243 | the sender may rewrite slots it has not submitted |
| `Pipe.PipeRings.WriteRx` | sys/dev/netmap/netmap_pipe.c:247-264 | the receiver may rewrite slots it was shown |
| `Pipe.PipeRings.Run` | sys/dev/netmap/netmap_pipe.c:182-265 | a run of both users up to a refused send, with the receiver running within each send, has exactly the outcome `Pipe.Played` of its events |
| `Pipe.RunOk` | sys/dev/netmap/netmap_pipe.c:182-265 | every run keeps the FIFO and the books, and what was submitted, sent and shown only grows |
| `Pipe.SameBuffers` | sys/dev/netmap/netmap_pipe.c:220-223 | the two rings have the buffers of the start exactly if the users have put in what they took out |
| `Pipe.NoBufferTwice` | sys/dev/netmap/netmap_pipe.c:220-223 | in every run of such users no buffer is in two slots of the two rings, if that was so at the start |
| `Pipe.SwapConserves` | sys/dev/netmap/netmap_pipe.c:215-229 | however many slots have been exchanged, the two rings together have the same buffers |
| `Pipe.DrainOk` | sys/dev/netmap/netmap_pipe.c:231-236 | the sender keeps what was not moved, in order |
| `Pipe.SupplyOk` | sys/dev/netmap/netmap_pipe.c:231-236 | the receiver gets what was moved, behind what waits already |
| `PipeLifetime.Pipe.Open` | sys/dev/netmap/netmap_pipe.c:526-664 | opening an end, first or not, keeps: one reference per open and one from the other end exactly while that is open and this is closed; two references to the parent |
| `PipeLifetime.Pipe.Close` | sys/dev/netmap/netmap.c:943-1036 | closing keeps the same; the last close frees both ends and all rings and returns both references to the parent |
| `PipeLifetime.Pipe.Put` | sys/dev/netmap/netmap_pipe.c:509-523 | the last reference to an end that holds the other one frees both |
| `PipeLifetime.Pipe.Register` | sys/dev/netmap/netmap_pipe.c:427-440 | an end kept by the other one is now kept by its open |
| `PipeLifetime.Pipe.Unregister` | sys/dev/netmap/netmap_pipe.c:429-453 | a closed end is kept, with its rings hidden, if the other one is open |
| `PipeLifetime.Pipe.CreateRings` | sys/dev/netmap/netmap_pipe.c:315-377 | the first end creates the rings of both, the second only shows its own |
| `PipeLifetime.Pipe.DeleteKrings` | sys/dev/netmap/netmap_pipe.c:478-505 | the rings of the other end are deleted exactly if this one keeps it |
| `PipeLifetime.Pipe.Run` | sys/dev/netmap/netmap_pipe.c:267-293 | every sequence of opens and closes: each end is open as often as the calls say, the pipe exists exactly while one of them is, and the parent has two references then and none otherwise |
| `Mbq.Queue.Enqueue` | sys/dev/netmap/netmap_mbq.c:64-88 | appends a packet to the linked queue |
| `Mbq.Queue.Dequeue` | sys/dev/netmap/netmap_mbq.c:91-124 | removes the oldest packet, or tells that there is none |
| `Mbq.Queue.Purge` | sys/dev/netmap/netmap_mbq.c:128-147 | ends with an empty queue |
| `HostRing.HostRx.Transmit` | sys/dev/netmap/netmap.c:2815-2879 | admits a packet exactly if it fits a buffer and ring occupancy plus queue length leaves room, so that the sum never exceeds n-1; admitted packets are recorded in order |
| `HostRing.HostRx.ImportLoop` | sys/dev/netmap/netmap.c:1247-1269 | although it does not look at hwcur, the loop drains the whole queue, in order, into the slots after hwtail and their buffers |
| `HostRing.HostRx.RxSync` | sys/dev/netmap/netmap.c:1231-1289 | all admitted packets have reached the ring, in order, in the slots after hwtail, and their bytes are in the buffers of these slots, copied one after the other; slots that the user still holds stay; released packets that are wanted went to the transmit rings, in order, until these were full, and no other released slot changed; no buffer is lost or doubled over all rings; with separate buffers all packets keep their bytes |
| `HostRing.HeldIsKept` | sys/dev/netmap/netmap.c:1247-1269 | the bytes of a packet in the ring stay, whatever the next packets are, exactly if no slot that they go to has its buffer |
| `HostRing.StrayIndex` | sys/dev/netmap/netmap_kern.h:1452-1462 | a packet for a slot with an index beyond the table lands in buffer 0 and nowhere else |
| `HostRing.HeldIsOverwritten` | sys/dev/netmap/netmap.c:1251-1257 | a run in which a user stores a buffer twice, and a packet that it has not released is overwritten |
| `HostRing.IntactIfOwned` | sys/dev/netmap/netmap.c:1247-1269 | if all buffers of the ring and of others are different, no packet in the ring is overwritten and every new one can be read from its slot |
| `HostRing.HeldInRuns` | sys/dev/netmap/netmap.c:1231-1289 | in every run of a user that stores no other buffers, with separate buffers at the start, the same holds at every sync |
| `HostRing.BuffersStay` | sys/dev/netmap/netmap.c:1231-1289 | in every such run the buffers of all rings together stay the same |
| `HostRing.HostRx.Run` | sys/dev/netmap/netmap.c:1231-1289 | every run of packets, user actions and syncs: each event does exactly what it should to slots, buffers, indices and queue; packets in the ring are a prefix of those admitted, the rest is queued, and the occupancy bound stays |
| `ZeroCopy.ProcessRings` | examples/bridge.c:55-112 | moves as many packets as limit and both rings allow, in order, with zero copy or without; the packets are the same in both modes, without zero copy if the buffers are separate; no buffer is lost or doubled |
| `ZeroCopy.ForwardedPasses` | examples/bridge.c:81-103 | both slots of a forwarded packet: the length comes along or is 0 above 2048; with zero copy the buffers change places and NS_BUF_CHANGED is set in both, without it buffers and flags stay |
| `ZeroCopy.Move` | examples/bridge.c:116-139 | from any state from which its loop ends: all sources are empty or all destinations full; the buffers of all rings are the same, the count is what left the sources, and the turns that it took are on record; with zero copy no byte is touched |
| `ZeroCopy.MovedInOrder` | examples/bridge.c:116-139 | in every run of move: the packets taken from the source rings, first ring first, are those that the destination rings have got, first ring first, with their lengths and with zero copy their buffers |
| `ZeroCopy.WhenMoveEnds` | examples/bridge.c:123-136 | the loop ends exactly if the limit is not 0, or there is nothing to move, or no room |
| `ZeroCopy.ForwardTo` | sys/dev/netmap/netmap.c:1151-1177 | one transmit ring receives the wanted packets in order until it is full |
| `ZeroCopy.SwToNic` | sys/dev/netmap/netmap.c:1137-1180 | the transmit rings together receive exactly the wanted packets up to the stopping point, in order and each in the slots from its cur on, until there are no more or all rings are full; forwarded slots keep their length and have NS_BUF_CHANGED, and all others stay; no buffer is lost or doubled |
| `ZeroCopy.PickedExactly` | sys/dev/netmap/netmap.c:1153-1176 | the wanted packets are exactly those with NS_FORWARD, or all, in order |
| `Buffers.ExchangeConserves` | sys/dev/netmap/netmap.c:1163-1173 | exchanging the buffers of two slots keeps the multiset of buffers |
| `Buffers.ByteCopied` | sys/dev/netmap/netmap.c:1251-1257 | after packets were copied to buffers one by one, each byte is that of the last packet that reaches it |
| `Buffers.KeptExactly` | sys/dev/netmap/netmap.c:1251-1257 | a buffer keeps its bytes exactly if each byte is the same in the last packet that reaches it |
| `Buffers.KeptWhatever` | sys/dev/netmap/netmap_kern.h:1455-1462 | a buffer keeps its bytes whatever the packets are, exactly if none goes to it |
| `Buffers.ShownWhatever` | sys/dev/netmap/netmap_kern.h:1455-1462 | a packet can be read from its buffer whatever the packets are, exactly if none goes there later |
| `ZeroCopy.UserRing.Space` | sys/net/netmap_user.h:118-124 | so many steps lead from cur to tail, and fewer than the ring has slots |
| `StopRing.StepInv` | sys/dev/netmap/netmap_kern.h:841-865 | every atomic step of any thread keeps the handshake invariant |
| `StopRing.RunInv` | sys/dev/netmap/netmap_kern.h:841-865 | so does every interleaving |
| `StopRing.AtMostOneInside` | sys/dev/netmap/netmap_kern.h:847-865 | in every run at most one thread is inside a sync, and none while another drains the ring |
| `StopRing.DisabledExcludes` | sys/dev/netmap/netmap.c:559-578 | once a disable has returned without an enable since it stopped the ring, and until an enable, no thread is or gets inside a sync and no writer reserves slots |
| `StopRing.StaysExcluded` | sys/dev/netmap/netmap.c:571-578 | without an enable, a stopped and drained ring stays so |
| `StopRing.CanEnter` | sys/dev/netmap/netmap_kern.h:841-865 | no deadlock: in every run every thread can still get inside a sync, and an enable is needed exactly if the ring is stopped |
| `StopRing.CanReserve` | sys/dev/netmap/netmap_vale.c:1501-1507 | so can every writer reserve slots |
| `StopRing.CanStop` | sys/dev/netmap/netmap.c:559-578 | in every run every thread can still stop the ring: its disable returns |
| `BitmapPool.Pool.Malloc` | sys/dev/netmap/netmap_mem2.c:493-535 | returns the lowest free object from the hint on and fails exactly if there is none or the request is too large; the new hint skips no free object |
| `BitmapPool.Pool.Free` | sys/dev/netmap/netmap_mem2.c:543-561 | refuses exactly an index out of range or a free object, and otherwise frees it |
| `BitmapPool.Pool.SetAside` | sys/dev/netmap/netmap_mem2.c:1031-1033 | the free count equals the number of set bits exactly if there are at least 32 buffers |
| `BitmapPool.Pool.ExtraAlloc` | sys/dev/netmap/netmap_mem2.c:611-634 | a list of exactly min(n, objfree) different free buffers, linked through their first words, which are no longer free |
| `BitmapPool.Pool.ExtraFree` | sys/dev/netmap/netmap_mem2.c:637-656 | ends for any list contents, and frees all of a list of buffers in use |
| `BitmapPool.Pool.ExtraRoundTrip` | sys/dev/netmap/netmap_mem2.c:611-656 | freeing the list just allocated restores bitmap and count |
| `BitmapPool.Pool.NewBufs` | sys/dev/netmap/netmap_mem2.c:661-689 | each slot gets its own buffer if there are enough; otherwise all buffers are returned and the slots cleared |
| `BitmapPool.ShowsUnique` | sys/dev/netmap/netmap_mem2.c:513-529 | the bitmap is determined by the set of free objects |
| `BitmapPool.Pool.constructor` | sys/dev/netmap/netmap_mem2.c:885-933 | all objects start free |
| `BitmapPool.Pool.LowestBit` | sys/dev/netmap/netmap_mem2.c:519-521 | the mask loop ends at the lowest set bit |
| `PoolLayout.Config` | sys/dev/netmap/netmap_mem2.c:785-859 | succeeds exactly if sizes are in range and some number of objects fills whole pages; clusters are then the smallest such and hold what was asked for |
| `PoolLayout.SearchEntries` | sys/dev/netmap/netmap_mem2.c:825-834 | finds the smallest number of objects that fills whole pages within 4 MB, or none exists |
| `PoolLayout.SmallSizesFit` | sys/dev/netmap/netmap_mem2.c:821-837 | object sizes of up to 64 KB always fit |
| `PoolLayout.ConfiguredIsMapped` | sys/dev/netmap/netmap_mem2.c:846-856 | every accepted geometry with disjoint clusters satisfies what the translations need |
| `PoolLayout.Finalize` | sys/dev/netmap/netmap_mem2.c:898-932 | the lookup table has the address of each object in its cluster |
| `PoolLayout.FindCluster` | sys/dev/netmap/netmap_mem2.c:447-458 | the scan finds the one cluster that contains an address, or shows that there is none |
| `PoolLayout.ObjOffset` | sys/dev/netmap/netmap_mem2.c:442-462 | the offset of any address within object i is i times the size plus the rest; 0 for a foreign address |
| `PoolLayout.IndexOf` | sys/dev/netmap/netmap_mem2.c:568-587 | the index of any address within object i is i; none for a foreign address |
| `PoolLayout.OfsToPhys` | sys/dev/netmap/netmap_mem2.c:374-403 | a region offset of byte r of object i of pool q becomes the physical address of that byte; 0 beyond the region |
| `PoolLayout.EveryOffsetNamed` | sys/dev/netmap/netmap_mem2.c:374-403 | every offset of the region is that of a byte of an object |
| `PoolLayout.BufferThroughRing` | sys/net/netmap_user.h:91-92 | the address that user code computes from any ring is that of the kernel's buffer, if buffers are smaller than 64 KB, and of buffer 0 otherwise |
| `MemId.Allocators.Assign` | sys/dev/netmap/netmap_mem2.c:303-331 | keeps a doubly linked ring in id order, gives an id in 1..65535 that no allocator has, and fails exactly if all are taken |
| `MemId.Allocators.FindGap` | sys/dev/netmap/netmap_mem2.c:311-328 | the search ends, with a place for a free id or the proof that there is none |
| `MemId.Allocators.ReleaseId` | sys/dev/netmap/netmap_mem2.c:334-347 | keeps the ring without the released allocator |
| `MemId.NoGapsMeansFull` | sys/dev/netmap/netmap_mem2.c:311-328 | a ring without a gap after any id has all 65535 ids |
| `MemId.Insert` | sys/dev/netmap/netmap_mem2.c:318-322 | linking a node in at a gap keeps the doubly linked ring in id order |
| `MemId.Unlink` | sys/dev/netmap/netmap_mem2.c:338-344 | unlinking keeps the ring and its order, and loses no other node |
| `Checksum.Agree` | examples/pkt-gen.c:479-508 | both implementations give the same value for every byte string of up to 65535 bytes: the complement of the one's complement sum |
| `Checksum.Raw` | sys/dev/netmap/netmap_freebsd.c:68-82 | the 32-bit sum of the words, an odd byte counting as a high byte |
| `Checksum.Fold` | sys/dev/netmap/netmap_freebsd.c:88-95 | folding ends and gives the complement of the one's complement sum |
| `Checksum.Running` | examples/pkt-gen.c:479-500 | the sum kept within 16 bits is the one's complement sum |
| `Checksum.Ipv4` | sys/dev/netmap/netmap_freebsd.c:97-104 | the complement of the sum over a header |
| `Checksum.SelfCheck` | sys/dev/netmap/netmap_freebsd.c:97-104 | a header that holds its own checksum has checksum zero |
| `Checksum.OnesIs` | sys/dev/netmap/netmap_freebsd.c:91-92 | sums that differ by a multiple of 65535 have the same one's complement sum |
| `Gso.Datapath` | sys/dev/netmap/netmap_offloadings.c:133-321 | on the bytes of the frame after its virtio-net header, in both layouts of that header: the segments carry the payload in order, all but the last are full, and each has the headers of the frame with length, identification, sequence number, flags and checksums fixed; where the payload starts is read from ethertype and data offset |
| `Gso.Segment` | sys/dev/netmap/netmap_offloadings.c:206-321 | the loop over fragments ends and produces the segments of the payload, fixed |
| `Gso.StreamPreserved` | sys/dev/netmap/netmap_offloadings.c:266-313 | the payloads of the segments concatenate to the original one, and all segments but the last are exactly mfs bytes long |
| `Gso.SegmentSays` | sys/dev/netmap/netmap_offloadings.c:286-303 | segment i carries identification plus i and sequence number plus the bytes before it; bits 0 and 3 of the TCP flags are clear but in the last, and all other bits are those of the packet |
| `Gso.FixSegment` | sys/dev/netmap/netmap_offloadings.c:69-129 | lengths, identification, sequence number and flags are set, the IPv4 header checks, and all other bytes but the TCP or UDP checksum are left alone |
| `Gso.FixIpv4` | sys/dev/netmap/netmap_offloadings.c:78-90 | length and identification, a checksum that makes the header check, and nothing else |
| `Gso.FixTcp` | sys/dev/netmap/netmap_offloadings.c:96-110 | sequence number, flags and checksum, the latter of all other bytes as they are then, and nothing outside these fields |
| `Gso.FixUdp` | sys/dev/netmap/netmap_offloadings.c:111-119 | length and checksum, and nothing outside these fields |
| `Gso.FixIpv6` | sys/dev/netmap/netmap_offloadings.c:91-94 | payload length, and nothing else |
| `Gso.CopyOne` | sys/dev/netmap/netmap_offloadings.c:269-310 | one turn of the loop keeps: segments emitted, bytes in progress and bytes to come make up the payload |
| `Gso.Cut` | sys/dev/netmap/netmap_offloadings.c:223-320 | any division of the payload into fragments gives the same segments |
| `Gso.ChunksCount` | sys/dev/netmap/netmap_vale.c:1472-1473 | how many segments there can be, for any amount of data and a lower bound of the segment size |
| `Gso.ChunksExactly` | sys/dev/netmap/netmap_offloadings.c:269-310 | so many pieces are enough for so many times their size, and for no more |
| `Gso.ReservationSuffices` | sys/dev/netmap/netmap_vale.c:1461-1473 | the segments of a GSO packet never outnumber the slots computed for the reservation |
| `Gso.SegmentsWithin` | sys/dev/netmap/netmap_offloadings.c:223-320 | the segments of a packet take no more than g slots exactly if its payload is no longer than g times the room for payload in a segment |
| `Gso.OneFragmentTooMany` | sys/dev/netmap/netmap_vale.c:1537-1543 | for every number of slots there is a packet of one fragment that needs one more |
| `GsoLease.Emit` | sys/dev/netmap/netmap_offloadings.c:223-400 | the segments are stored from the position of the writer on, however many were granted; the excess is only cut off the count |
| `GsoLease.EmittedAt` | sys/dev/netmap/netmap_offloadings.c:286-309 | segment i has slot i from the position of the writer, with its length and no flags, and no other slot changes, if they do not go round the ring |
| `GsoLease.EmitIsRun` | sys/dev/netmap/netmap_offloadings.c:223-320 | as long as they are no more than granted, storing them is a run of the lease protocol |
| `GsoLease.WithinLease` | sys/dev/netmap/netmap_vale.c:1537-1543 | the segments of a packet stay in the block of its writer exactly if the payload is no longer than the granted slots allow |
| `GsoLease.FirstBeyond` | sys/dev/netmap/netmap_offloadings.c:305-309 | the first segment too many is stored at the position where the block ends |
| `GsoLease.WhoseSlot` | sys/dev/netmap/netmap_offloadings.c:305-309 | which is the first slot of the writer that reserved next, or the one at hwlease |
| `GsoLease.FragmentFitsSegmentsDoNot` | sys/dev/netmap/netmap_vale.c:1537-1543 | in every reachable state, whatever was granted, a packet that passes the test of the switch and whose last segment is stored beyond the block |
| `GsoLease.EndOfLease` | sys/dev/netmap/netmap_offloadings.c:395-400 | position and count that the writer is left with still name the end of its block exactly if the segments were not too many |

## Left out

- Preflush.Preflush: requires that the slots end with a complete packet (the code stores the count of an incomplete one in the entry before it), that packets have at most 64 fragments, and buffers of at least 64 bytes; the code does not check.
- `netmap_vp_txsync`: its prologue is `KringModel.Kring.TxSyncPrologue`, and the rest is the call of preflush.
- The retry path of `nm_bdg_flush` and `NS_INDIRECT` slots: they depend on foreign callbacks and on user addresses.
- Flush.Scratch.Flush: a destination is given by its free slots and buffer size; `FlushLease.ServeRing` does one destination with its ring.
- FlushLease.ServeRing: a slot and its buffer are written in one step, and requires other parties that keep to the protocol.
- LeaseBytes.StepSafe: requires a reader that keeps the buffers of the ring different, see `LeaseBytes.SparesExactly`.
- Flush.Scratch.Flush: destinations have the header length of the source, at most 12; packets go to ring 0, which is what the learning function chooses; buffers have at least 64 bytes.
- bwrap ports, and the mismatch datapath for packets that are not segmented.
- Gso.FixSegment: the TCP and UDP checksums are a function parameter, applied to the segment with the field cleared, because they are computed by foreign functions.
- Gso.Segment: requires fragments that are not empty, headers that lie in the first one with a data offset of at least 5, and room for payload in a segment; the code does not check.
- Gso.ReservationSuffices: is about the header lengths that the reservation formula allows for, and about what is asked for; `GsoLease.WithinLease` is about what is granted.
- `netmap_ring_reinit`: a refused prologue or bad buffer is an error result; `IxgbeRx.RxRing.Run`, `IxgbeTx.TxRing.Run` and `Pipe.PipeRings.Run` end there.
- IxgbeTx.TxRing.TxSync: whether a descriptor with report status has DD set is a parameter, since only a few descriptors report.
- IxgbeRx.RxRing.Reset: that the driver restarts its ring at 0 with DD clear is taken from the driver; frames pending at that time are lost.
- HostRing.HostRx.Run: the users of the transmit rings do nothing in the meantime.
- ZeroCopy.ProcessRings: without zero copy, requires buffers that exist and have at least 2048 bytes; the code does not check.
- ZeroCopy.Move: without zero copy, says which packets go where, not their bytes; `ZeroCopy.ProcessRings` does for one call.
- LeaseRuns.RunSafe: requires fewer outstanding leases than slots, see `LeaseBound.StrandedAtTheBound`.
- BitmapPool.Pool.Malloc: words are sequences of 32 bits, and all clusters were allocated.
- BitmapPool.Pool.constructor: does not model the halving of a pool when memory is short.
- Checksum.Agree: is limited to 65535 bytes, the range of the length parameter of the example's function.
- PoolLayout.OfsToPhys: `memtotal` is unbounded, while the code keeps it in 32 bits.
- MemId.Allocators.ReleaseId: requires another allocator in the list; the global one is never released.
- PipeLifetime.Pipe.Open: allocation does not fail; the parent's table of pipes is not modelled.
- Locks and atomic operations are single steps; memory barriers, DMA maps, wake-ups, ioctl, poll and mmap are not modelled.
- Other NIC drivers, monitors, generic adapters, `netmap_free_bufs`, `nm_inject`, `nm_dispatch`, and the remaining example programs.
