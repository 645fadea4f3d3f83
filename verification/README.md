# A model of the URMA/RDMA ramdisk, and what is proved of it

The repository serves one block of memory as a disk in three ways: a kernel block
device with a direct-IO queue (`kernel-urma/`), a userspace NBD daemon with a URMA
transfer manager and a control socket (`userspace-nbd/`), and an in-process path from
LBA ranges to a mock RDMA transport (`src/`). This project models the two concurrent
request queues as transition systems whose steps are single accesses to shared state,
the sequential code around them as methods on arrays, maps and streams, and proves for
every run, every input and every interleaving what those parts promise together.

`dafny verify dfyconfig.toml` checks everything.

| files | part |
|---|---|
| `KernelQueue*.dfy`, `KernelIoQueue.dfy` | direct-IO queue: machine, invariants, theorems over all runs, and the code refining the machine |
| `Ring.dfy`, `PeerTable.dfy`, `UrmaManager*.dfy` | URMA manager: ring, peer table, machine, byte-level meaning, theorems, and the critical sections refining the machine |
| `Codec.dfy`, `Socket.dfy`, `Backend.dfy`, `BackendSharing.dfy`, `Nbd.dfy`, `NbdSession.dfy` | backend, its lock, and the NBD loop |
| `RangeMap.dfy`, `SchemeA.dfy`, `BlockStore.dfy` | LBA mapping, mock transport, target session |
| `Completion.dfy`, `Eid.dfy`, `CtrlWire.dfy`, `Ctrl.dfy`, `CtrlSession.dfy` | completion polling, EID text, control protocol |

## Where the code does not do what one would expect

- `kernel-urma/README.md:244` limits pending plus in flight to `queue_depth`. The code
  misses it by one, because a popped request is counted nowhere until line 450:
  `DepthBoundIsTight` gives a run for every depth, `DepthBound` the true bound.
  `LimitIffNoOverAdmission` says exactly when a run keeps the limit: if and only if no
  request in it was accepted while pending, in flight and the request in the worker's
  hand together filled the depth. `StrictCheckKeepsLimit`: a submitter that passes the
  check under the lock only while pending + inflight + 1 is below the depth keeps it,
  and `FusedDepthBound` shows that counting at the pop would.
- Lines 693-694 of `userspace-nbd/src/ramdisk_urma.c` replace the requested remote
  address by the start of the segment (`userspace-nbd/DEVELOPMENT.md:364` calls this
  left-over debug code, `userspace-nbd/tests/test_urma_queue.c:84-91` expects the
  requested address). Both variants are modelled, and `EndToEnd` says for each what
  every run does to the bytes. With the override a request is honoured on all contents
  exactly when it names the start (`OverrideHonoursIffStart`), whole runs of such
  requests are right (`OverrideHonestRuns`), every other write and every other read has
  a run that ends with wrong bytes (`OverrideBreaksWrite`, `OverrideBreaksRead`; the
  test's transfer is a read), and of two writes to disjoint places the second
  lies on top of the first (`OverrideCollides`).
- A stream that ends exactly between a header and its payload is not an error for the
  NBD loop (line 183) or for the control server (149-153): `TruncatedWrite` and
  `CutShort` give the exact condition.
- The two EID parsers disagree on some texts: `ParsersAgreeIff` says on which, and
  `ParsersDisagree` gives a family of them.
- Completions are matched by a caller-chosen id. `AttributionIffUnique`: success means
  one's own completion exactly when the ids are unique.
- No document says what becomes of a call that comes between the worker's exit and the
  end of the destroy; it is accepted and never answered. The daemon makes no such call,
  because it stops its control server first (`userspace-nbd/src/nbd_ramdisk.c:424-444`);
  another user of the manager's interface can. `LateSubmitHangs` gives such a run for
  every manager. `AnswerableIffWorker`: an
  accepted request can be answered exactly when the worker had not left by then, and
  for that it is enough that the manager is not stopping.

## Model

| member | source | states |
|---|---|---|
| KernelQueueTheorems.ExactlyOnce | kernel-urma/urma_blkdev.c:364-509 | In every interleaving of submitters, work item and teardown, with any store, allocation and post outcomes: after teardown each accepted request was called back exactly once, any other never, and both containers and counters are empty |
| KernelQueueTheorems.AtMostOnce | kernel-urma/urma_blkdev.c:409-509 | At every moment an accepted request is in exactly one place (list, worker's hand, tracked set, drain list, called back) and a rejected one in none; no callback reports success |
| KernelQueueStatus.CallbackStatus | kernel-urma/urma_blkdev.c:364-508 | In every run, once the teardown is over, the one status of each accepted request is -ESHUTDOWN if the teardown completed it, else the code with which its own store or post failed in that run |
| KernelQueueStatus.EveryStatusCaused | kernel-urma/urma_blkdev.c:441-466 | At every moment each status handed out has such a cause in the run, and a completion by the teardown has handed -ESHUTDOWN |
| KernelQueueStatus.StubStatus | kernel-urma/urma_blkdev.c:379-407 | With the post stub a request is told -ESHUTDOWN by the teardown or -EOPNOTSUPP by the worker |
| KernelQueueTheorems.DepthBound | kernel-urma/urma_blkdev.c:409-450 | In flight never exceeds the depth; queued, in flight and popped-but-uncounted together never exceed depth + 1 |
| KernelQueueTheorems.DepthBoundIsTight | kernel-urma/urma_blkdev.c:610-631 | For every depth a run reaches depth + 1 requests queued and in flight |
| KernelQueueDepth.LimitIffNoOverAdmission | kernel-urma/urma_blkdev.c:618-630 | A run keeps pending + inflight within the depth in all its states, and would were the worker to go on tracking in any of them, if and only if no request was accepted over the one in the worker's hand |
| KernelQueueDepth.NoOverAdmissionKeepsLimit | kernel-urma/urma_blkdev.c:414-450 | Without such an acceptance the limit holds throughout, the popped request included |
| KernelQueueDepth.OverAdmissionExceeds | kernel-urma/urma_blkdev.c:439-450 | After every such acceptance the worker's own tracking steps alone reach depth + 1 |
| KernelQueueDepth.StrictCheckKeepsLimit | kernel-urma/urma_blkdev.c:610-628 | If the check under the lock never gives the last place, the limit holds whatever the worker holds |
| KernelQueueTheorems.FusedDepthBound | kernel-urma/urma_blkdev.c:414-421 | If the pop counted the request as in flight, queued plus in flight would stay within the depth |
| KernelQueueTheorems.NoLostWakeup | kernel-urma/urma_blkdev.c:409-437 | Requests queued on a live device: the work is queued or running, a submitter is about to queue it, or the depth is in flight |
| KernelQueueDepth.StubNeverStalls | kernel-urma/urma_blkdev.c:379-407 | While no post succeeds, as with the stub, the last of these does not happen: at most one request is in flight |
| KernelQueueDepth.FullQueueWaitsForTeardown | kernel-urma/urma_blkdev.c:433-434 | With the whole depth in flight, every continuation without the teardown's splice leaves what is queued queued, in order and without callback |
| KernelQueueTheorems.References | kernel-urma/urma_blkdev.c:587-627 | Module references equal live requests plus submitters between get and alloc; a request lives exactly until its callback; none is left after teardown |
| KernelQueueTheorems.WrIds | kernel-urma/urma_blkdev.c:439-461 | wr_ids are positions in acceptance order, a store never overwrites, and the tracked set matches the counter outside the two windows |
| KernelQueueTheorems.TeardownAlwaysPossible | kernel-urma/urma_blkdev.c:743-762 | From every reachable state, steps of the teardown, the running work item and the lock holder alone complete the teardown, and every request accepted by then has been called back once |
| KernelQueueTheorems.TeardownCanFinish | kernel-urma/urma_blkdev.c:743-757 | The same from any state satisfying the invariants: no new submission and no new start of the work is needed |
| KernelQueueTheorems.RunGood | kernel-urma/urma_blkdev.c:425-509 | All invariants hold in every reachable state |
| KernelQueueInvariants.InvStep | kernel-urma/urma_blkdev.c:409-473 | Every step keeps lock ownership, counters, depth, order, tracked set and freshness |
| KernelQueueConservation.PlacesStep | kernel-urma/urma_blkdev.c:475-509 | Every step conserves the number of places a request is in |
| KernelQueueReferences.SettledStep | kernel-urma/urma_blkdev.c:296-304 | Every step keeps references, live requests and callbacks consistent |
| KernelIoQueue.IoQueue.constructor | kernel-urma/urma_blkdev.c:713-726 | The initial device; a depth of zero means one |
| KernelIoQueue.IoQueue.EnqueueLocked | kernel-urma/urma_blkdev.c:610-631 | ESHUTDOWN when stopping, EBUSY when the depth is reached, else appended at the end; a refusal changes nothing |
| KernelIoQueue.IoQueue.PopFirst | kernel-urma/urma_blkdev.c:409-423 | The oldest request leaves list and counter, or nothing happens |
| KernelIoQueue.IoQueue.SubmitWorkfn | kernel-urma/urma_blkdev.c:425-473 | The loop computes the work function on the device for all outcomes |
| KernelIoQueue.WorkfnTells | kernel-urma/urma_blkdev.c:433-466 | The work function takes requests from the front and tells each the code of its own failed store or post, and nobody else anything |
| KernelIoQueue.IoQueue.TrackAndPost | kernel-urma/urma_blkdev.c:441-466 | A failed store or post leaves no trace but the callback with its own code |
| KernelIoQueue.IoQueue.CompleteReq | kernel-urma/urma_blkdev.c:364-377 | The callback gets the status it is given, after all it got before |
| KernelIoQueue.IoQueue.DrainTracked | kernel-urma/urma_blkdev.c:492-499 | Tracked requests leave in wr_id order, all of them, each counted once |
| KernelIoQueue.IoQueue.FailQueued | kernel-urma/urma_blkdev.c:475-509 | Queued, then tracked requests are called back in that order; each ends with -ESHUTDOWN, nobody else is told anything |
| KernelIoQueue.IoQueue.CleanupIoQueue | kernel-urma/urma_blkdev.c:743-762 | Stop, then fail everything left with -ESHUTDOWN |
| KernelIoQueue.EnqueueRuns | kernel-urma/urma_blkdev.c:610-631 | The locked section of submit is what steps of that submitter alone do, for each of its three outcomes, with what becomes of request and reference |
| KernelIoQueue.WorkfnRuns | kernel-urma/urma_blkdev.c:433-472 | The work function on the device is what steps of the worker alone do |
| KernelIoQueue.CleanupRuns | kernel-urma/urma_blkdev.c:748-757 | The cleanup on the device is what steps of the teardown alone do |
| KernelIoQueue.TrackPostRuns | kernel-urma/urma_blkdev.c:441-461 | One pass of the loop is what the worker's steps from the store on do, for all outcomes |
| UrmaManagerTheorems.RingIsFifo | userspace-nbd/src/ramdisk_urma.c:679-684 | In every run: tail is head + pending mod depth, exactly the pending slots hold the accepted and untaken requests in order, all distinct; at most one in flight; accepted = pending + inflight + completed + failed |
| UrmaManagerTheorems.CountersAreOutcomes | userspace-nbd/src/ramdisk_urma.c:702-707 | In every run `completed` is the number of requests published with 0 and `failed` the number of those published with an error |
| UrmaManagerTheorems.StackLifetime | userspace-nbd/src/ramdisk_urma.c:990-1017 | A request in the ring or with the worker is on the stack of a caller still waiting; who returned was told the published status and nobody refers to its request |
| UrmaManagerOutcome.ToldIsDecided | userspace-nbd/src/ramdisk_urma.c:692-709 | In every run what a call was told is the error of the second validation at its dequeue, -ENODEV if its peer had left the slot when the transfer ran, or 0; never the second without a disconnect under a running transfer |
| UrmaManagerTheorems.DrainedAtExit | userspace-nbd/src/ramdisk_urma.c:671-677 | The worker leaves only when every accepted request is done |
| UrmaManagerTheorems.WorkerAwake | userspace-nbd/src/ramdisk_urma.c:671-673 | The worker never sleeps while something is queued, and can take it |
| UrmaManagerProgress.AcceptedCanFinish | userspace-nbd/src/ramdisk_urma.c:659-720 | From every reachable state with the worker there, at most 3 * depth + 2 steps of the worker and of nobody else publish every accepted request |
| UrmaManagerProgress.WorkerCanDrain | userspace-nbd/src/ramdisk_urma.c:679-711 | The same from any state satisfying the invariants, in no more worker steps than the queue asks for |
| UrmaManagerProgress.EveryRunAnswers | userspace-nbd/src/ramdisk_urma.c:671-711 | In every continuation, whatever interleaves, an accepted request is published once the worker has made the steps still due to it, at most 3 * depth + 2 |
| UrmaManagerProgress.LateSubmitHangs | userspace-nbd/src/ramdisk_urma.c:979-1012 | For every manager a run exists in which a call is accepted after the worker left; in every continuation it is unpublished and its caller waits |
| UrmaManagerProgress.AnswerableIffWorker | userspace-nbd/src/ramdisk_urma.c:674-677 | An accepted request can be answered exactly when the worker had not left at its acceptance, and then from every later state; not stopping suffices |
| UrmaManagerTheorems.ValidStays | userspace-nbd/src/ramdisk_urma.c:518-548 | A valid request stays valid under every step but disable, destroy and the disconnect of its own peer |
| UrmaManagerTheorems.ValidateIff | userspace-nbd/src/ramdisk_urma.c:498-548 | The validation accepts exactly enabled requests with a length, a direction, a range in the backend, whole blocks everywhere and a range in the segment of a connected peer, and answers the first of these that fails |
| UrmaManagerProgress.RevalidationSucceeds | userspace-nbd/src/ramdisk_urma.c:686-694 | From acceptance to dequeue of a request whose own peer is not disconnected, whatever happens to others: the second validation succeeds exactly when the manager is enabled then, so always without a disable in between, and finds its peer |
| UrmaManagerTheorems.EndToEnd | userspace-nbd/src/ramdisk_urma.c:550-576 | In every run without a disconnect under a running transfer: backend and peer memories are those of a sequential execution, at the requested address or with the override at the start of the segment; every transfer in it is the one its call asked for, finds its peer and both ranges, is done once if the call was told 0, else never; transfers follow the order of acceptance |
| UrmaManagerTheorems.ServedMoves | userspace-nbd/src/ramdisk_urma.c:560-572 | Such a transfer puts exactly its bytes in the named place and changes nothing else |
| UrmaManagerTheorems.TransferInBounds | userspace-nbd/src/ramdisk_urma.c:554-572 | With or without the override the memcpy stays inside backend and peer buffer |
| UrmaManagerOverride.OverrideHonestRuns | userspace-nbd/src/ramdisk_urma.c:692-700 | With the override, runs whose transfers all address the start of their segments do what was requested |
| UrmaManagerOverride.OverrideBreaksWrite | userspace-nbd/src/ramdisk_urma.c:693-694 | For every valid write to another address, of data not starting with zero, a run with the override ends with other bytes than requested |
| UrmaManagerOverride.OverrideBreaksRead | userspace-nbd/src/ramdisk_urma.c:692-694 | For every valid read from another address a run with the override, after a byte was put there, ends with other bytes than requested |
| UrmaManagerOverride.OverrideHonoursIffStart | userspace-nbd/src/ramdisk_urma.c:693-702 | The override honours a request on all contents exactly when it addresses the start |
| UrmaManagerOverride.OverrideCollides | userspace-nbd/src/ramdisk_urma.c:694-696 | Two writes to disjoint places: as requested both pieces stay; with the override the second lies on the first, and one at least as long leaves no trace of it |
| UrmaManagerTheorems.BuffersOwnedOnce | userspace-nbd/src/ramdisk_urma.c:809-818 | Every peer buffer has one owner, an active slot or a call in progress, and the segment's length; none survives destroy |
| UrmaManagerTheorems.RunSound | userspace-nbd/src/ramdisk_urma.c:659-1017 | All invariants hold in every reachable state |
| UrmaManagerQueue.InvStep | userspace-nbd/src/ramdisk_urma.c:702-711 | Every step keeps ring, counters, request lifetimes and returned statuses consistent |
| UrmaManagerStore.InvStep | userspace-nbd/src/ramdisk_urma.c:852-958 | Every step keeps the table well formed and the ownership of buffers exact |
| UrmaManagerStore.DestroyKeeps | userspace-nbd/src/ramdisk_urma.c:792-828 | Destroy frees every buffer |
| UrmaManagerData.TransferExplained | userspace-nbd/src/ramdisk_urma.c:560-575 | A transfer of a validated request was in range and is exactly the copy asked for, or with the override the one at the start; nothing else changes |
| UrmaManagerData.ExecStep | userspace-nbd/src/ramdisk_urma.c:692-702 | The peer of a running transfer stays the validated one while it is not disconnected |
| UrmaManagerCode.UrmaMgr.constructor | userspace-nbd/src/ramdisk_urma.c:741-762 | The fields of a new manager are the initial state of the machine |
| UrmaManagerCode.InitMgr | userspace-nbd/src/ramdisk_urma.c:724-739 | A depth of zero means 32, one beyond 1024 is refused, and what is accepted starts the machine |
| UrmaManagerCode.UrmaMgr.ValidateXfer | userspace-nbd/src/ramdisk_urma.c:518-548 | The verdict of the specification, error by error |
| UrmaManagerCode.UrmaMgr.EnqueueXfer | userspace-nbd/src/ramdisk_urma.c:979-993 | The critical section is the machine's submit step, with the exact return code |
| UrmaManagerCode.UrmaMgr.TakeHead | userspace-nbd/src/ramdisk_urma.c:679-695 | The critical section is the machine's take step |
| UrmaManagerCode.UrmaMgr.Publish | userspace-nbd/src/ramdisk_urma.c:702-711 | The critical section is the machine's publish step |
| UrmaManagerCode.UrmaMgr.CheckDone | userspace-nbd/src/ramdisk_urma.c:997-1012 | A wakeup is the machine's wake step: status of a done request, or wait on |
| UrmaManagerCode.UrmaMgr.FillStatus | userspace-nbd/src/ramdisk_urma.c:1020-1042 | A status query reports the machine's flag, peers, depth and counters |
| UrmaManagerCode.UrmaMgr.InsertPeer | userspace-nbd/src/ramdisk_urma.c:889-921 | The critical section of connect is the machine's insert step, with the exact return code |
| UrmaManagerCode.UrmaMgr.ClearPeer | userspace-nbd/src/ramdisk_urma.c:940-949 | The critical section of disconnect is the machine's step, and hands over the buffer to free |
| Ring.RequestRing.Enqueue | userspace-nbd/src/ramdisk_urma.c:985-992 | Appends to the queue, EBUSY exactly when it is full |
| Ring.RequestRing.Dequeue | userspace-nbd/src/ramdisk_urma.c:679-682 | Removes the oldest element |
| Ring.PutContents | userspace-nbd/src/ramdisk_urma.c:990-992 | Storing at the tail appends to the queue and keeps the ring valid |
| Ring.TakeContents | userspace-nbd/src/ramdisk_urma.c:679-681 | Clearing the head removes the first element and keeps the ring valid |
| PeerTable.PeerArray.FindPeer | userspace-nbd/src/ramdisk_urma.c:486-496 | The loop finds the slot the specification names |
| PeerTable.PeerArray.Connect | userspace-nbd/src/ramdisk_urma.c:889-921 | Map insert; EOPNOTSUPP, EEXIST, ENOSPC exactly when disabled, present, full |
| PeerTable.PeerArray.Disconnect | userspace-nbd/src/ramdisk_urma.c:940-949 | Map remove, ENOENT exactly when absent, and the slot that was there |
| PeerTable.PeerArray.Count | userspace-nbd/src/ramdisk_urma.c:1037-1040 | The reported count is the size of the map |
| PeerTable.PeerArray.DestroyAll | userspace-nbd/src/ramdisk_urma.c:809-818 | Every buffer is freed as often as active slots hold it, so once for its slot; no peer is left |
| PeerTable.BuffersOnce | userspace-nbd/src/ramdisk_urma.c:809-817 | The list of freed buffers counts each buffer's slots |
| PeerTable.FindIsLookup | userspace-nbd/src/ramdisk_urma.c:491-495 | The first matching slot is the map's entry, and there is one exactly for its keys |
| PeerTable.InsertIsUpdate | userspace-nbd/src/ramdisk_urma.c:903-920 | Filling a free slot is a map update that keeps ids distinct |
| PeerTable.RemoveIsDelete | userspace-nbd/src/ramdisk_urma.c:946-948 | Clearing a slot is a map removal |
| PeerTable.CountIsSize | userspace-nbd/src/ramdisk_urma.c:903-908 | Active slots count the map, and no slot is free exactly at 32 peers |
| Backend.BlockSizes | userspace-nbd/src/ramdisk_backend.c:13-25 | Exactly the powers of two from 512 to 1 MiB are accepted |
| Backend.RangeRc | userspace-nbd/src/ramdisk_backend.c:86-96 | Accepts exactly ranges inside the backend |
| Backend.RamdiskBackend.Read | userspace-nbd/src/ramdisk_backend.c:114-131 | The bytes of the range, or ERANGE and none |
| Backend.RamdiskBackend.Write | userspace-nbd/src/ramdisk_backend.c:133-150 | The range becomes the data and nothing else changes, or ERANGE and no change |
| Backend.RamdiskBackend.Zero | userspace-nbd/src/ramdisk_backend.c:152-165 | The same with zeros |
| BackendAtomicity.LockOrder | userspace-nbd/src/ramdisk_backend.c:98-165 | In every byte-by-byte interleaving of NBD operations and mock transfers, memory and read results are those of a sequential execution in lock order |
| BackendSharing.BytewiseIsAtomic | userspace-nbd/src/ramdisk_urma.c:560-574 | Hence the transfer and write steps of the manager's transition system may be atomic: byte by byte under the lock they leave the same memory |
| BackendSharing.FitsIsChecked | userspace-nbd/src/ramdisk_backend.c:121-124 | The checks before the lock are the backend's range check and the transfer's bounds, no more and no less |
| Socket.Stream.ReadFull | userspace-nbd/src/nbd_ramdisk.c:76-93 | However reads chunk or are interrupted: the requested bytes, 0 at a clean end, EPIPE inside |
| Socket.Stream.WriteFull | userspace-nbd/src/nbd_ramdisk.c:95-110 | However writes chunk or are interrupted: everything once, in order |
| Codec.NtohllLittle | userspace-nbd/src/nbd_ramdisk.c:62-67 | On a little-endian host the conversion reads big-endian 64-bit fields |
| Codec.NtohllBig | userspace-nbd/src/nbd_ramdisk.c:62-74 | On a big-endian host it is right exactly when the two halves are equal |
| Codec.NtohllTwice | userspace-nbd/src/nbd_ramdisk.c:69-74 | Both conversions undo each other, on either host |
| Codec.BeOfFour | userspace-nbd/src/nbd_ramdisk.c:153-154 | In network order the first byte counts most |
| Nbd.SendReply | userspace-nbd/src/nbd_ramdisk.c:112-130 | The reply goes out in full |
| NbdSession.ReplyReads | userspace-nbd/src/nbd_ramdisk.c:112-129 | A reply is 16 bytes: magic number, error number, the request's handle |
| NbdSession.ClientReads | userspace-nbd/src/nbd_ramdisk.c:173-211 | What a client reads after one command: magic, its own handle, error 0 exactly if it was carried out, else 34, 22 or 5 by its case, then the data of a read |
| NbdSession.DiskAfter | userspace-nbd/src/nbd_ramdisk.c:182-198 | What one command leaves on the disk: the data of a write, zeros for a trim, in the named range and only if carried out |
| Nbd.ServeNbd | userspace-nbd/src/nbd_ramdisk.c:132-220 | For every input and every chunking the output and final disk are those of the stream's meaning |
| Nbd.ServeOne | userspace-nbd/src/nbd_ramdisk.c:137-215 | One pass of the loop is one step of that meaning |
| Nbd.HandleWrite | userspace-nbd/src/nbd_ramdisk.c:182-189 | Payload read and written, or dropped when cut inside; at an end of stream the stale buffer is written |
| NbdSession.SessionServed | userspace-nbd/src/nbd_ramdisk.c:132-215 | For every list of commands: in-order replies with echoed handles and read data, the disk is the fold of the commands, and what follows is read from its own beginning unless a disconnect came |
| NbdSession.SessionAlone | userspace-nbd/src/nbd_ramdisk.c:137-219 | The same for a stream of commands and nothing else |
| NbdSession.PassIsCommand | userspace-nbd/src/nbd_ramdisk.c:153-211 | One whole frame is one command, and the stream stays aligned |
| NbdSession.ParseEncode | userspace-nbd/src/nbd_ramdisk.c:153-156 | Parsing undoes the encoding of every command |
| NbdSession.ParseIs | userspace-nbd/src/nbd_ramdisk.c:153-157 | The fields of a request are the big-endian numbers at their places |
| NbdSession.DisconnectEnds | userspace-nbd/src/nbd_ramdisk.c:199-202 | A disconnect gets its reply and is the last command served |
| NbdSession.BadMagicEnds | userspace-nbd/src/nbd_ramdisk.c:144-161 | After any commands, a short header or a foreign magic number ends the service without reply or trace |
| NbdSession.TruncatedWrite | userspace-nbd/src/nbd_ramdisk.c:183-188 | A write cut short is dropped without a trace exactly when the cut is not right before its payload; there it is acknowledged with stale data |
| RangeMap.RangeIsExact | src/rdma_ramdisk.c:16-49 | The 64-bit checks accept exactly non-empty ranges inside the disk over the naturals, nothing wraps, and which error else |
| RangeMap.DisjointRanges | src/rdma_ramdisk.c:32-47 | Disjoint LBA ranges are disjoint byte ranges |
| RangeMap.MapIoIsExact | kernel-urma/urma_blkdev.c:330-362 | The kernel mapping accepts exactly those with a non-zero block size and a UBVA that does not wrap, and which error else |
| SchemeA.TranslationUndoesMapping | src/mock_rdma.c:68-87 | The transport finds the mapped bytes again exactly when the address does not wrap, else EINVAL |
| SchemeA.SubmitIsTransport | src/target_session.c:63-89 | A request past the session's own checks gets the transport's answer on the blocks it names |
| SchemeA.SubmitIff | src/target_session.c:58-89 | A request succeeds exactly when session and link are up, its blocks are on the disk, direction and address are good and both regions have room; else which error |
| SchemeA.TransportIff | src/mock_rdma.c:68-125 | The transport succeeds exactly when connected, lengths and key agree and both ranges are inside; else which error |
| SchemeA.MockRdma.RegisterMr | src/mock_rdma.c:31-51 | One registration, replaced by the next |
| SchemeA.MockRdma.Submit | src/mock_rdma.c:102-141 | One copy between the translated addresses, or an error and no change |
| SchemeA.RdmaRamdisk.constructor | src/rdma_ramdisk.c:68-96 | A zeroed disk, registered |
| SchemeA.CreateDisk | src/rdma_ramdisk.c:51-97 | Refuses exactly empty sizes, zero block sizes and partial blocks |
| SchemeA.RdmaRamdisk.FillBlocks | src/rdma_ramdisk.c:137-152 | The named blocks hold the value, all other bytes are unchanged |
| SchemeA.RdmaRamdisk.VerifyBlocks | src/rdma_ramdisk.c:154-175 | 0 exactly when every byte of an inside range has the value |
| SchemeA.TargetSession.Connect | src/target_session.c:21-36 | Connects both sides, or neither on an empty endpoint |
| SchemeA.TargetSession.Disconnect | src/target_session.c:38-48 | Clears the session, and the transport too when the session was connected |
| SchemeA.TargetSession.SubmitIo | src/target_session.c:50-90 | Return code and both memories for every request |
| BlockStore.DiskIsLastWritten | src/target_session.c:50-90 | After any sequence of requests each block holds what the last successful write covering it sent |
| BlockStore.ReadDelivers | src/target_session.c:77-89 | A successful read puts exactly those blocks into the initiator's region |
| BlockStore.NothingElse | src/mock_rdma.c:127-136 | A successful request changes no other byte of either memory |
| BlockStore.FailuresInvisible | src/target_session.c:58-71 | Leaving the refused requests out of any sequence changes neither memory, and all others still succeed |
| BlockStore.SubmitAll | src/target_session.c:50-89 | Any sequence of submit calls returns and leaves what the specification of calls says |
| BlockStore.CallsAreRun | src/target_session.c:50-88 | Which is a run of the block store |
| BlockStore.CallAnswers | src/target_session.c:58-89 | And each call answers by the state it finds |
| Completion.Jfc.RealPollCompletion | userspace-nbd/src/ramdisk_urma.c:437-472 | For every completion stream the loop's answer and the entries it consumes |
| Completion.WaitMeans | userspace-nbd/src/ramdisk_urma.c:441-471 | The answer is that of the first decisive poll within 30000, a timeout exactly without one |
| Completion.OwnSuccess | userspace-nbd/src/ramdisk_urma.c:455-467 | With unique ids a success is the request's own completion, whatever late ones are queued |
| Completion.Misattributed | userspace-nbd/src/ramdisk_urma.c:631-649 | Two requests with one id: the second succeeds on the first one's late completion |
| Completion.AttributionIffUnique | userspace-nbd/src/ramdisk_urma.c:437-649 | Success means one's own completion in all histories exactly when ids are unique |
| Eid.ClientParse | userspace-nbd/src/ramdisk_ctrl_client.c:203-231 | Accepts exactly texts with 32 hex digits besides ':', '-' and '.', and their value |
| Eid.AcceptsIff | userspace-nbd/src/ramdisk_ctrl_client.c:192-230 | A parser accepts exactly the texts that are 32 hexadecimal digits once its separators, letter by letter, are removed |
| Eid.SeparatorIgnored | userspace-nbd/src/ramdisk_ctrl_client.c:214-216 | A separator may stand anywhere without changing the result |
| Eid.DaemonParse | userspace-nbd/src/ramdisk_urma.c:30-67 | The same with white space instead of '.', and no change on refusal |
| Eid.FormatEid | userspace-nbd/examples/business_client_example.c:35-45 | 32 lower-case digits and a NUL |
| Eid.ParsePrinted | userspace-nbd/examples/business_client_example.c:40-44 | Parsing a printed EID gives it back, with either parser |
| Eid.PrintParsed | userspace-nbd/src/ramdisk_ctrl_client.c:203-230 | Printing a parsed EID gives the text's digits in lower case |
| Eid.ParsersAgreeIff | userspace-nbd/src/ramdisk_urma.c:41-60 | The parsers disagree exactly on texts of 32 digits that hold a dot or white space but not both |
| Eid.ParsersDisagree | userspace-nbd/src/ramdisk_urma.c:44-49 | A printed EID followed by a dot: the client reads it, the daemon refuses |
| CtrlWire.HeaderRoundTrip | userspace-nbd/include/ramdisk_ctrl.h:25-32 | A header survives encoding |
| CtrlWire.HeaderIs | userspace-nbd/include/ramdisk_ctrl.h:25-31 | Where in the header each field lies |
| CtrlWire.ResponseReads | userspace-nbd/src/ramdisk_ctrl_server.c:52-73 | A response gives back opcode, id, status and payload |
| CtrlWire.PeerRoundTrip | userspace-nbd/include/ramdisk_ctrl.h:52-61 | A connect structure survives encoding |
| CtrlWire.XferRoundTrip | userspace-nbd/include/ramdisk_ctrl.h:67-74 | A transfer structure survives encoding |
| CtrlWire.StateRoundTrip | userspace-nbd/include/ramdisk_ctrl.h:40-50 | A status structure survives encoding |
| Ctrl.Server.SendResponse | userspace-nbd/src/ramdisk_ctrl_server.c:52-73 | Header with echoed opcode and id, status, payload, in this order |
| Ctrl.Server.HandleRequest | userspace-nbd/src/ramdisk_ctrl_server.c:75-124 | One response and at most one manager call, as the request decodes |
| Ctrl.Server.ServeOne | userspace-nbd/src/ramdisk_ctrl_server.c:128-159 | One pass of the loop is one step of the stream's meaning |
| Ctrl.Server.ServeClient | userspace-nbd/src/ramdisk_ctrl_server.c:126-161 | For every input and every chunking the output and the manager are those of the stream's meaning |
| Ctrl.Transact | userspace-nbd/src/ramdisk_ctrl_client.c:80-138 | Sends one request; status and payload of the response, or EPIPE, EPROTO, ENOSPC |
| CtrlSession.ReceivedIs | userspace-nbd/src/ramdisk_ctrl_client.c:111-134 | For every stream: EPIPE if it ends early, EPROTO on a foreign magic or version, ENOSPC without room, else status and payload |
| CtrlSession.SessionServed | userspace-nbd/src/ramdisk_ctrl_server.c:126-160 | Any number of requests, right or wrong in size and opcode: one response each, in order, and what follows is read from its own beginning |
| CtrlSession.RepliesSnoc | userspace-nbd/src/ramdisk_ctrl_server.c:154-158 | Each further request adds exactly its own response, by the manager state then |
| CtrlSession.PayloadIgnored | userspace-nbd/src/ramdisk_ctrl_server.c:82-94 | Status, enable and disable do their work whatever payload comes with them |
| CtrlSession.ReplyEchoes | userspace-nbd/src/ramdisk_ctrl_server.c:58-65 | A response carries its request's opcode and id and its own length |
| CtrlSession.BadHeaderEnds | userspace-nbd/src/ramdisk_ctrl_server.c:140-147 | After any requests, a bad header gets one EINVAL response and ends the connection; the manager is as the requests left it, the rest is not looked at |
| CtrlSession.CutShort | userspace-nbd/src/ramdisk_ctrl_server.c:148-154 | A request cut short is dropped without a trace exactly when the cut is not right after its header |
| CtrlSession.RemoteCallIsCall | userspace-nbd/src/ramdisk_ctrl_client.c:152-190 | Client and server composed: the manager sees exactly the call made and the client returns its answer |
| CtrlSession.RemoteStatusIsStatus | userspace-nbd/src/ramdisk_ctrl_client.c:140-150 | A status query gives the manager's own status and changes nothing |
| CtrlSession.RefusedRemotely | userspace-nbd/src/ramdisk_ctrl_server.c:92-123 | Wrong sizes, unknown opcodes and oversized payloads never reach the manager; EINVAL or EOPNOTSUPP comes back |

## Left out

- Real URMA, ubcore and ib_verbs objects, import and posting: foreign calls. A jetty post and `xa_store` may succeed or fail in any step; completions are an arbitrary stream.
- `kernel/rdma_blkdev.c` and the blk-mq, gendisk and sysfs parts of `kernel-urma/urma_blkdev.c`: kernel plumbing around the same memory; its copy loop has no queue and no shared state of its own.
- Weak memory and workqueue internals: steps are sequentially consistent, one work item does not run twice at once, and a flush waits for the running instance.
- Calls into a manager or device already destroyed: module references and the shutdown order of `userspace-nbd/src/nbd_ramdisk.c:424-444` rule them out; destroy is modelled as happening with no caller waiting.
- NBD ioctls, signals (`g_stop` stays false), socket setup, command line, `ramdiskctl` and logging, including the log line that reads the request after it is done.
- A failing `realloc` in the NBD loop and failing allocations in the userspace manager and in `src/`: allocation succeeds.
- The early checks of the kernel submit (lines 537 and 577) bind nobody, so a submitter may pass or not reach them: the model starts at the module reference.
- KernelQueueTheorems.WrIds: covers runs with fewer than 2^64 numbered requests, as do the other theorems of that module; `atomic_t` counters are unbounded integers, exact for depths below 2^31 - 1.
- KernelIoQueue.IoQueue.SubmitWorkfn: the loop without interference; interference is in the transition system whose steps it takes.
- KernelIoQueue.IoQueue.CleanupIoQueue: the cleanup with the work item over and no submitter inside the lock; the flush and interference are in the transition system.
- BackendSharing.BytewiseIsAtomic: covers the memory operations of the manager, not byte-wise runs of the whole manager.
- UrmaManagerTheorems.EndToEnd: needs the running transfer's peer to stay connected, because the transfer runs outside the manager lock; a mock transfer and a `mock_write_peer`, which share no lock, are atomic with respect to each other in it.
- UrmaManagerCode.UrmaMgr.TakeHead: lines 693-694 are taken only when the second validation succeeded; as written they dereference an unset pointer otherwise.
- Timed waits return success or a timeout only, and the `not_full` condition variable, which nobody awaits, is not modelled.
- C structure layout: fields are little-endian without padding, which is what the structures have on the little-endian hosts the daemon targets; the NBD fields are converted as on such a host. The control structures' EID is one 16-byte number.
- The manager behind the control server is any state machine with the five calls and a status; `Ctrl` does not repeat `UrmaManager`.
- CtrlSession.RefusedRemotely: an oversized payload is assumed to be written in full although the server stops reading.
- The reply to an NBD disconnect is what the code sends, not what the NBD protocol asks for.
- The netlink bridge of `userspace-nbd/DEVELOPMENT.md` and the worker pool of `userspace-nbd/TODO.md` are designs without code.
