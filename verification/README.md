# RK01: a verified model of the kernel's object protocols

RK01 is a small real-time kernel. Its services are protocols written as critical sections over shared
tables: reference-counted message buffers, queues with direct hand-over and broadcast, task messages with
owners, object handles with generations, mutexes with priority inheritance. This project models those
protocols in Dafny and proves what every interleaving of calls keeps.

Each protocol is written three times, and the three are tied together:

- a *specification on values*: a state, one function per critical section, and `Run` over any sequence of
  them; a blocking call is two steps, "enqueue and suspend" and "resume after a wake or a timeout";
- *theorems* about every run of that specification (the modules ending in `Theorems`, and the last section
  of the smaller modules), and for each call, in the modules ending in `Effects`, when it succeeds in a state
  a run reaches, what it then did and what it left alone, said without the functions that define it;
- a *class* with the loops and early returns of the C code; every method ensures that it does to the object
  what the specification function does to its value. Partitions, rings, lease tables, the console ring, the
  record slots and the intrusive list keep the code's own fields. Where the kernel threads tasks or messages
  on lists, the classes of message queues, task messages, mutexes and semaphores keep sequences, or maps of
  sequences, which the methods reassign, and the logger's records are a map by address; `List` stands for
  itself and is used by no other module.

| files | what they model |
|---|---|
| `Mem` | fixed-block partitions, the free list threaded through the blocks |
| `MrmSpec`, `MrmProof`, `MrmTheorems`, `MrmEffects`, `MrmService` | most-recent-message service |
| `RingBuf`, `MesgQueueSpec`, `MesgQueueProof`, `MesgQueueTheorems`, `MesgQueueEffects`, `MesgQueueCalls`, `MesgQueue` | message queues over a word ring |
| `MesgSpec`, `MesgProof`, `MesgTheorems`, `MesgEffects`, `MesgOrder`, `Mesg` | task messages by reference |
| `MesgCopySpec`, `MesgCopyProof`, `MesgCopyEffects`, `MesgCopyOrder`, `MesgCopy` | task messages by copy |
| `Handles`, `DynObjs`, `DynObjEffects` | dynamic object handles |
| `MutexSpec`, `MutexChain`, `MutexOps`, `MutexEffects`, `Mutex` | mutexes and priority inheritance |
| `List`, `TaskQueue`, `Sema` | intrusive list, ordered wait lists, semaphore |
| `LineSpec`, `LineProtocol`, `LineEffects`, `LineRing` | console line ring between driver and task |
| `RecordLog`, `RecordText`, `RecordServer` | record log with text persistence |
| `Logger`, `LoggerProof`, `LoggerTheorems`, `LoggerService`, `LoggerEffects`, `LogText` | logger pool and queue, bounded text |
| `Crc` | nibble-table CRC |

`dafny verify dfyconfig.toml` checks the whole project.

Four things that one might expect do not hold of the code. Each has a failing run or input, and the exact
condition:

- The logger's consumer may refuse a record that is in use, which ends in a failed assertion. Its check walks
  the free list outside any critical section, and a submitter that preempts it may take the very block the
  walk stands on and write its time stamp where the link was (`LoggerTheorems.RefusalHappens`). A check stays on
  its list exactly as long as the links it reads have not been written over
  (`StaysOnListIff`), and only a check that was overtaken in this way refuses (`RefusedOnlyIfOvertaken`).
- A service resolves its handle before its critical section and may work on a younger object in the same slot
  (`DynObjs.UsedMayBeAnother`); it works on the object it resolved exactly if the slot's generation was not
  bumped in between (`UsedIsResolvedIff`).
- Copied messages of one sender may overtake each other (`MesgCopyOrder.OvertakingHappens`), exactly if one is
  received past an older one that is too long for the receiver's buffer (`OutOfOrderIff`).
- Appending a character stays inside the text buffer exactly while the position counter is below its 32-bit
  limit (`LogText.TargetInBoundsIff`).

Where the code and its comments differ the model follows the code:

- The comment on the generation bump says that generation zero never resolves. The generation tables start
  at zero, so the first object of every slot has it; `Handles.GenAfterIs` and `DynObjs.StaleAcceptedIff` state
  what follows, among it that this one generation never recurs.
- `kRingBufOverwrite` leaves its ring in order only if the ring has one slot; `RingBuf.Ring.Overwrite` proves
  exactly that, and the post-overwrite call refuses every other queue.
- `kMesgSend` and `kMesgFree` do not ask whether the caller owns the message; the model lets any task send
  or free any message that is not queued, and the accounting holds all the same.
- A blocked sender does not imply a full queue: a woken sender may hand its message to a receiver directly,
  and that receive wakes nobody. Nothing of the kind is claimed.

## Model

| member | source | states |
|---|---|---|
| Mem.PoolConserves | core/src/kmem.c:223-247 | free blocks and held blocks always add up to the partition |
| Mem.TakeKeeps | core/src/kmem.c:366-405 | an allocation returns a block that was not held, fails only when none is free, and a free of it restores the pool |
| Mem.GiveKeeps | core/src/kmem.c:411-455 | a freed block is exactly the next to be allocated, every other block stays as it was |
| Mem.RunHandsOutOnce | core/src/kmem.c:366-455 | over every run of allocations and frees, good or bad, no block is handed out while it is held |
| Mem.MemPartition.BlockValid | core/src/kmem.c:36-66 | accepts exactly the addresses of blocks of a pool inside the address space |
| Mem.MemPartition.FreeListContains | core/src/kmem.c:73-102 | on any list, corrupted or not: true exactly if the first nFreeBlocks links lead to the pointer or to an address that is no block |
| Mem.MemPartition.LeadsIsMembership | core/src/kmem.c:73-102 | on a well-formed list the walk finds exactly the addresses of free blocks |
| Mem.LeadsAlong | core/src/kmem.c:90-99 | the links of a well-formed list lead to exactly the blocks from there on |
| Mem.MemPartition.ThreadBlocks | core/src/kmem.c:226-240 | the loop links every block to the next and the last to NULL |
| Mem.MemPartition.Init | core/src/kmem.c:172-282 | succeeds exactly on good parameters, and then all blocks are free, lowest address first, in a well-formed list |
| Mem.MemPartition.Alloc | core/src/kmem.c:346-409 | pops the head of the threaded list; NULL exactly when no block is free or the pool is out of range |
| Mem.MemPartition.Free | core/src/kmem.c:411-460 | succeeds exactly on the address of a held block; foreign, misaligned and already free pointers change nothing |
| Mem.MemPartition.HolderWrite | core/src/kmem.c:226-240 | no link lives in a held block, so its holder may write every word of it |
| MrmTheorems.AccountingHolds | core/src/kmrm.c:444-595 | in every reachable state: allocated buffers are the current one and the leased ones, each with its own payload block; user counts are sums of references; leases are unique; a reserved buffer has one reserver and no user |
| MrmTheorems.DestroyRefusedIffLeased | core/src/kdynobjs.c:2465-2476 | over every run, the destroy guard refuses exactly while a lease on the MRM is left |
| MrmTheorems.ReserveBound | core/src/kmrm.c:815-838 | over every run, a reserve succeeds exactly while the lease table has a free entry and fewer than nBufs of the buffers are leased |
| MrmTheorems.CurrentIsLatest | core/src/kmrm.c:846-966 | over every run, the current buffer holds the payload of the last successful publish |
| MrmTheorems.GetReturnsLatest | core/src/kmrm.c:968-1067 | every successful get copies out the payload of the most recent publish |
| MrmTheorems.StepKeepsWords | core/src/kmrm.c:757-1169 | no call writes a buffer in use except the publish of that buffer |
| MrmTheorems.ReaderStable | core/src/kmrm.c:562-595 | from a get to its matching unget or the holder's death, whatever all tasks do, the buffer stays allocated, keeps every word and is never handed out by reserve |
| MrmProof.ReserveSucceedsIff | core/src/kmrm.c:815-838 | reserve succeeds exactly when a lease entry is free and a buffer is free or the current one reusable |
| MrmProof.PublishOk | core/src/kmrm.c:919-966 | publish succeeds exactly for the holder of the reservation and otherwise changes nothing |
| MrmProof.UngetSucceedsIff | core/src/kmrm.c:1069-1169 | unget succeeds exactly for a task that holds a reference and otherwise changes nothing |
| MrmProof.CleanupOk | core/src/kmrm.c:597-660 | task death clears exactly the dead task's leases, reports success, keeps the accounting and touches no buffer still in use |
| MrmEffects.GetSucceedsIff | core/src/kmrm.c:1036-1066 | over every run, a get succeeds exactly if something was published, no live task has reserved the current buffer, and the lease table can take the reference; other readers are no hindrance |
| MrmEffects.GetTakesOne | core/src/kmrm.c:1036-1066 | a get that succeeds returns the current buffer and its payload, gives its task one reference and the buffer one user more, and changes nothing else; one that fails changes nothing |
| MrmEffects.ReadersShare | core/src/kmrm.c:968-1067 | a second reader gets the same buffer and payload as the first |
| MrmEffects.ReserveEffect | core/src/kmrm.c:757-844 | over every run, a reserve that succeeds hands out an allocated buffer nobody had a lease on and takes one free entry for it; one that fails leaves every lease; no buffer in use is written |
| MrmEffects.PublishEffect | core/src/kmrm.c:846-966 | over every run, a publish succeeds exactly for the reserver, makes the buffer current with the payload and ends the lease; else nothing changes |
| MrmEffects.UngetEffect | core/src/kmrm.c:1069-1169 | over every run, an unget succeeds exactly for a task with a reference, takes one away and frees the entry with the last; else nothing changes |
| MrmEffects.CreateMakes | core/src/kmrm.c:712-751 | a new MRM has the buffers and the payload size asked for, all free, and nothing published |
| MrmEffects.DestroyRemoves | core/src/kdynobjs.c:2465-2485 | destruction removes the MRM exactly if no lease on it is left, and touches no other |
| MrmEffects.DeathAndBirth | core/src/kmrm.c:597-660 | a death in a run is the cleanup of CleanupOk; a new task has no lease |
| MrmService.Service.LeaseFind | core/src/kmrm.c:295-317 | the table scan finds the first entry of a task, MRM and buffer, or none |
| MrmService.Service.LeaseFindFree | core/src/kmrm.c:319-336 | the scan finds the first free entry, or none |
| MrmService.Service.LeaseReservedByOther | core/src/kmrm.c:339-371 | true exactly when some other live task holds the reservation |
| MrmService.Service.BufferReserved | core/src/kmrm.c:373-401 | true exactly when some live task holds the reservation |
| MrmService.Service.ActiveLease | core/src/kmrm.c:403-430 | true exactly when a live task has a reservation or a reference on the MRM |
| MrmService.Service.LeaseReserveTrack | core/src/kmrm.c:444-480 | the table gains the reservation, or is unchanged when the call fails |
| MrmService.Service.LeaseReserveDrop | core/src/kmrm.c:482-501 | the reservation goes, and the entry with it when nothing else is in it |
| MrmService.Service.LeaseGetTrack | core/src/kmrm.c:503-534 | one more reference, never beyond the 16-bit counter |
| MrmService.Service.LeaseGetDrop | core/src/kmrm.c:536-555 | one reference less, and the entry goes with the last |
| MrmService.Service.Reserve | core/src/kmrm.c:757-844 | the in-place call refines the step the theorems are about and keeps the invariant |
| MrmService.Service.Publish | core/src/kmrm.c:846-966 | likewise, payload words copied by a loop |
| MrmService.Service.Get | core/src/kmrm.c:968-1067 | likewise, the caller's array ends up with the payload |
| MrmService.Service.Unget | core/src/kmrm.c:1069-1169 | likewise |
| MrmService.Service.TaskCleanup | core/src/kmrm.c:597-660 | the loop over the lease table refines the cleanup step |
| MrmService.Service.Destroy | core/src/kdynobjs.c:2465-2485 | refuses exactly while some lease on the MRM is left, else the MRM is gone |
| RingBuf.Appended | core/src/kringbuf.c:102-110 | a write at the write position appends to the queue the ring stands for |
| RingBuf.Prepended | core/src/kringbuf.c:128-136 | a write before the read position prepends to it |
| RingBuf.Removed | core/src/kringbuf.c:112-119 | moving the read position removes the first message |
| RingBuf.Ring.Advance | core/src/kringbuf.c:43-52 | the pointer of the next slot, with wrap at the end |
| RingBuf.Ring.Retreat | core/src/kringbuf.c:55-64 | the pointer of the slot before, with wrap at the beginning |
| RingBuf.Ring.Write | core/src/kringbuf.c:102-110 | the bounded queue with the message behind, word by word |
| RingBuf.Ring.Read | core/src/kringbuf.c:112-119 | the caller's words are the first message, which leaves the queue |
| RingBuf.Ring.Peek | core/src/kringbuf.c:121-126 | the caller's words are the first message, the queue is unchanged |
| RingBuf.Ring.Jam | core/src/kringbuf.c:128-136 | the bounded queue with the message in front |
| RingBuf.Ring.Overwrite | core/src/kringbuf.c:138-147 | the ring stays well formed exactly when it has one slot, and then holds just the message |
| TaskQueue.EnqPlaceSplits | core/src/ksch.c:629-646 | the newcomer goes behind all of better or equal priority and before the rest |
| TaskQueue.EnqKeepsOrder | core/src/ksch.c:629-646 | a wait list in priority order stays in priority order |
| MesgQueueTheorems.RunRefinesDeque | core/src/kmesgq.c:454-494 | every run, with hand-overs, deferred wakes and timeouts, is a run of a bounded deque in which a hand-over is an enqueue followed by the dequeue of the same message |
| MesgQueueTheorems.SendRecvIsFifo | core/src/kmesgq.c:559-924 | over every run of sends and receives, committed messages are, in order, the received ones followed by the ring |
| MesgQueueTheorems.EveryCopyIsReturned | core/src/kmesgq.c:797-924 | each message copied to a task is returned by one of its receives, in order |
| MesgQueueTheorems.ReceiverNeverMisses | core/src/kmesgq.c:454-494 | a receiver sleeps only while the ring is empty or a broadcast is in flight, and once woken never waits again |
| MesgQueueTheorems.RingWriteWakesNobody | core/src/kmesgq.c:375-389 | over every run, a send, jam or overwrite that writes its message into the ring wakes no receiver, as all who are listed then wait for a broadcast |
| MesgQueueTheorems.BroadcastReadOnce | core/src/kmesgq.c:1649-1851 | over every run, a broadcast is read only by its prepared receivers, by each at most once and with its own payload, and the slot is used for nothing else before all have read it |
| MesgQueueTheorems.BroadcastCount | core/src/kmesgq.c:1649-1715 | the receiver counter is the prepared receivers still listed plus those woken and not resumed, and the pending wake is for exactly those listed |
| MesgQueueTheorems.SlotReserved | core/src/kmesgq.c:1717-1851 | while a broadcast is in flight only its last reader changes the slot; send, jam, overwrite, broadcast and normal receive do not succeed |
| MesgQueueTheorems.ReplayBroadcast | core/src/kmesgq.c:1717-1851 | the readers still awaited are those prepared minus those who read; the payload stays until the last of them |
| MesgQueueEffects.SendEffect | core/src/kmesgq.c:559-681 | over every run, a send, or a jam, succeeds exactly while the ring has room; the message is then in the buffer of the first waiting receiver, if ring and slot are free for that, or at the back, or front, of the ring; else the call is refused, or suspended in its place by priority |
| MesgQueueEffects.ResumedSendEffect | core/src/kmesgq.c:607-661 | a suspended send that runs again does the same with its own message, or returns its timeout and changes nothing |
| MesgQueueEffects.OverwriteEffect | core/src/kmesgq.c:1504-1591 | over every run, a post-overwrite succeeds exactly on a mailbox without a broadcast in flight; a waiting receiver or the slot then has the message |
| MesgQueueEffects.BroadcastEffect | core/src/kmesgq.c:1594-1715 | over every run, a broadcast succeeds exactly on an empty mailbox with a broadcast waiter, and with more than one only if the wake can be deferred; all of them and nobody else are then to read it |
| MesgQueueEffects.RecvEffect | core/src/kmesgq.c:797-924 | over every run, a receive succeeds exactly while the ring holds a message and no broadcast is in flight; the caller has the first message, which has left the ring, and the best sender is woken |
| MesgQueueEffects.ResumedRecvEffect | core/src/kmesgq.c:797-924 | a suspended receive that runs again returns the message it was handed, or its timeout |
| MesgQueueEffects.BroadcastRecvEffect | core/src/kmesgq.c:1717-1851 | a broadcast receive waits for the next broadcast, or is refused |
| MesgQueueEffects.ResumedBroadcastRecvEffect | core/src/kmesgq.c:1717-1851 | a prepared receiver returns the payload; the last one empties the slot and wakes the best sender |
| MesgQueueEffects.TimeoutEffect | core/src/kmesgq.c:607-661 | a bounded waiter whose timeout runs out leaves its list and is marked; ring and slot are as they were |
| MesgQueueEffects.ListsInOrder | core/src/ksch.c:629-646 | over every run, both wait lists are in the order of the tasks' priorities |
| MesgQueueCalls.SuspendedSendKeepsMessage | core/src/kmesgq.c:607-661 | over every run, a suspended send waits with the message it was called with |
| MesgQueueCalls.WritesAreCalls | core/src/kmesgq.c:559-1715 | over every run, the messages put, jammed, overwritten and broadcast are exactly the arguments of the calls that returned with success, in that order |
| MesgQueueCalls.SendsAreReceived | core/src/kmesgq.c:559-924 | over every run of sends and receives, the messages of the successful sends are, in order, those copied to receivers followed by the ring |
| MesgQueueCalls.ReturnsAreReceives | core/src/kmesgq.c:797-924 | over every run, the messages a task returned are the contents of its buffer as its receives ended with success |
| MesgQueueProof.WakeJobOk | core/src/kmesgq.c:329-373 | the deferred wake releases every prepared receiver and keeps the invariant |
| MesgQueueProof.StepOk | core/src/kmesgq.c:518-1851 | every call, resume, timeout and wake keeps the queue's invariant |
| MesgQueue.MessageQueue.DeqNormalReceiver | core/src/kmesgq.c:243-273 | takes off the first listed receiver that does not wait for a broadcast |
| MesgQueue.MessageQueue.CountBroadcastWaiters | core/src/kmesgq.c:276-298 | the number of listed broadcast waiters |
| MesgQueue.MessageQueue.PrepareBroadcastReceivers | core/src/kmesgq.c:305-327 | marks all broadcast waiters and nobody else |
| MesgQueue.MessageQueue.WakeBroadcast | core/src/kmesgq.c:329-373 | takes the prepared receivers off the list |
| MesgQueue.MessageQueue.DirectSendIfAny | core/src/kmesgq.c:454-494 | hands over exactly when the ring is empty, no broadcast is in flight and a normal receiver waits |
| MesgQueue.MessageQueue.WakeSenderIfAny | core/src/kmesgq.c:497-511 | wakes the best sender, if any |
| MesgQueue.MessageQueue.Send | core/src/kmesgq.c:559-681 | the call on the word ring refines the step; with front set it is the jam |
| MesgQueue.MessageQueue.TrySend | core/src/kmesgq.c:1100-1226 | the part of send and jam from the full test on, for a first and for a retried attempt |
| MesgQueue.MessageQueue.Recv | core/src/kmesgq.c:797-924 | refines the receive step |
| MesgQueue.MessageQueue.PostOverwrite | core/src/kmesgq.c:1504-1591 | refines the overwrite step, refused on queues of more than one slot and during a broadcast |
| MesgQueue.MessageQueue.BroadcastTo | core/src/kmesgq.c:1594-1715 | refines the broadcast step with its four refusals |
| MesgQueue.MessageQueue.BroadcastRecv | core/src/kmesgq.c:1717-1851 | refines the broadcast receive |
| MesgQueue.MessageQueue.Peek | core/src/kmesgq.c:1038-1098 | the first message; refused on an empty ring and while a broadcast is in flight; nothing changes |
| MesgQueue.MessageQueue.ResumeCall | core/src/kmesgq.c:607-661 | refines the rest of a blocking call after a wake or a timeout |
| MesgQueue.MessageQueue.RunWakeJob | core/src/kmesgq.c:329-373 | refines the deferred wake |
| MesgTheorems.OwnershipHolds | core/src/kmesg.c:525-648 | over every run, a message that is not free is on exactly its owner's list, and on that task's receive queue exactly while queued |
| MesgTheorems.PoolsBalance | core/src/kmesg.c:596-648 | free blocks and messages in use add up to the pool; allocators wait only on a pool without a free block |
| MesgTheorems.NoMissedMessage | core/src/kmesg.c:689-784 | a blocked receiver never coexists with a queued message its filter takes; a woken call always has its message or its timeout |
| MesgTheorems.SelectsEarliest | core/src/kmesg.c:689-719 | a receive takes the earliest matching message and keeps the order of the others |
| MesgTheorems.DirectIsStoreThenSelect | core/src/kmesg.c:743-784 | delivery to a blocked receiver cannot be told from a store followed by the receive it completes |
| MesgTheorems.GivenBack | core/src/kmesg.c:786-817 | a returned buffer goes to the best waiting allocator, or to the pool when none waits |
| MesgTheorems.DeathReleasesAll | core/src/kmesg.c:819-937 | after every run, a task that dies owns and queues nothing, and all accounting holds |
| MesgEffects.AllocEffect | core/src/kmesg.c:1580-1766 | over every run, an allocation returns a free block whenever there is one, which is then the caller's alone; else it is refused, or suspended in its place by priority |
| MesgEffects.FreeEffect | core/src/kmesg.c:1912-2005 | over every run, a free succeeds exactly on a message that is allocated or received; the first waiting allocator then owns it and waits no more, or it is free, on nobody's list, and the first of its pool; else nothing changes |
| MesgEffects.SendEffect | core/src/kmesg.c:2139-2281 | over every run, a send succeeds exactly to a task with an endpoint, with a message that is allocated or received; the receiver owns it, and has it at once if it waits for it, else last on its queue |
| MesgEffects.WaitEffect | core/src/kmesg.c:2283-2450 | over every run, a receive returns the earliest suitable message while there is one; else it is refused, or suspended |
| MesgEffects.ResumeEffect | core/src/kmesg.c:2283-2450 | a suspended call that runs again returns what it was given, or its timeout, and is over |
| MesgEffects.TimeoutEffect | core/src/kmesg.c:1580-1766 | a bounded waiter whose timeout runs out leaves its list and is marked; no message moves |
| MesgEffects.InitEffect | core/src/kmesg.c:939-1023 | an endpoint is set up once, and nothing else changes |
| MesgEffects.AllocatorsInOrder | core/src/ksch.c:629-646 | over every run, the allocators of each pool wait in the order of their priorities |
| MesgOrder.RunRefinesMailbox | core/src/kmesg.c:2139-2450 | every run, with direct deliveries, timeouts and deaths, is at each receiver a run of a mailbox from which each receive takes the earliest letter it wants |
| MesgOrder.PerSenderFifo | core/src/kmesg.c:689-784 | over every run in which the receiver lives, the messages a sender sent it are, in order, those received from that sender followed by those still queued |
| MesgOrder.EveryTakenIsReturned | core/src/kmesg.c:2283-2450 | its receives return exactly the messages taken for it, in that order; at most one is still in the hands of a suspended receive |
| MesgProof.KillLoops | core/src/kmesg.c:826-852 | both draining loops of the cleanup run to their end: no message is left on either list |
| MesgProof.StepOk | core/src/kmesg.c:1580-2450 | alloc, send, wait, free, resume, timeout and death keep the invariant |
| Mesg.TaskMessages.SetOwner | core/src/kmesg.c:525-566 | refines the move between ownership lists |
| Mesg.TaskMessages.Alloc | core/src/kmesg.c:1580-1766 | refines the allocation, its suspension included |
| Mesg.TaskMessages.HandoffToWaitingAllocator | core/src/kmesg.c:616-648 | refines the hand-over to the first waiting allocator |
| Mesg.TaskMessages.ReturnBuffer | core/src/kmesg.c:786-817 | refines the return to a waiting allocator or the pool |
| Mesg.TaskMessages.Free | core/src/kmesg.c:1912-2005 | refines the free |
| Mesg.TaskMessages.DequeueMatching | core/src/kmesg.c:689-719 | the queue scan refines the selection |
| Mesg.TaskMessages.DeliverToWaiter | core/src/kmesg.c:743-784 | delivers exactly when the receiver waits with a matching filter |
| Mesg.TaskMessages.Send | core/src/kmesg.c:2139-2281 | refines the send |
| Mesg.TaskMessages.WaitFor | core/src/kmesg.c:2283-2450 | refines the wait |
| Mesg.TaskMessages.DrainQueue | core/src/kmesg.c:826-838 | the first cleanup loop terminates with the receive queue empty |
| Mesg.TaskMessages.DrainOwned | core/src/kmesg.c:840-852 | the second cleanup loop terminates with the owned list empty |
| Mesg.TaskMessages.TaskCleanup | core/src/kmesg.c:819-937 | refines the death of a task and leaves nothing to it |
| MesgCopyProof.BlocksConserved | core/src/kmesg.c:217-289 | over every run, each block is free or queued to exactly one task, and the two add up to the pool |
| MesgCopyProof.NoMissedCopy | core/src/kmesg.c:304-434 | a blocked copy receiver never coexists with a queued message from its sender that fits its buffer |
| MesgCopyProof.DirectIsStoreThenSelect | core/src/kmesg.c:348-434 | a direct copy cannot be told from a store followed by the receive, but for the order of the free list; it succeeds even without a free block |
| MesgCopyProof.DrainOk | core/src/kmesg.c:887-900 | the dead task's blocks all return to the free list, in order |
| MesgCopyProof.KillOk | core/src/kmesg.c:488-516 | death wakes exactly the receivers that wait for the dead task alone, with an error, and frees every block queued to it |
| MesgCopyEffects.SendEffect | core/src/kmesg.c:1099-1176 | over every run, a send succeeds exactly with an allowed length, to a task with an endpoint, while that task waits for it or a block is free; the payload is then in its buffer, or in a block last on its queue |
| MesgCopyEffects.RecvEffect | core/src/kmesg.c:1178-1321 | over every run, a receive returns the earliest message that suits while there is one, and its block is free; else it is refused, or suspended |
| MesgCopyEffects.ResumeEffect | core/src/kmesg.c:1178-1321 | a suspended receive that runs again returns what it was given, or its timeout, and is over |
| MesgCopyEffects.TimeoutEffect | core/src/kmesg.c:1178-1321 | a bounded receive whose timeout runs out waits no more and is marked |
| MesgCopyEffects.InitEffect | core/src/kmesg.c:1025-1097 | an endpoint is set up once, and nothing else changes |
| MesgCopyOrder.RunRefinesMailbox | core/src/kmesg.c:1099-1321 | every run, with direct copies, timeouts and deaths, is at each receiver a run of a mailbox from which each receive takes the earliest letter that fits it |
| MesgCopyOrder.OutOfOrderIff | core/src/kmesg.c:401-434 | over every run in which the receiver lives, each message is received once or queued, and the messages of a sender are received out of order exactly if one was taken past an older one of that sender |
| MesgCopyOrder.OvertakenIsTooLong | core/src/kmesg.c:401-434 | an older one passed over is longer than the buffer of the receive |
| MesgCopyOrder.RoomyBuffersKeepOrder | core/src/kmesg.c:1178-1321 | a receiver whose buffers always hold the longest message gets each sender's messages in order |
| MesgCopyOrder.OvertakingHappens | core/src/kmesg.c:401-434 | a run in which a short message is received before the longer one its sender had sent first |
| MesgCopyOrder.EveryTakenIsReturned | core/src/kmesg.c:1178-1321 | the receives return the payloads taken for the receiver, each once and in that order; at most one is still in the hands of a suspended receive |
| MesgCopy.CopyMessages.SendCopy | core/src/kmesg.c:1099-1176 | refines the copying send |
| MesgCopy.CopyMessages.RecvCopy | core/src/kmesg.c:1178-1321 | refines the copying receive |
| MesgCopy.CopyMessages.DequeueMatching | core/src/kmesg.c:401-434 | the scan by sender and size refines the selection |
| MesgCopy.CopyMessages.Store | core/src/kmesg.c:436-463 | refines the store, failing exactly without a free block |
| MesgCopy.CopyMessages.CancelWaitersForSender | core/src/kmesg.c:488-516 | the loop over all tasks cancels exactly the receivers that wait for the sender |
| MesgCopy.CopyMessages.TaskCleanup | core/src/kmesg.c:886-937 | refines the copy half of a task's death |
| Handles.MasksAreArithmetic | core/src/kdynobjs.c:383-394 | on every 32-bit word the or of the masked fields is their sum |
| Handles.FieldsAreArithmetic | core/src/kdynobjs.c:401-434 | on every 32-bit word masks and shifts are quotients and remainders |
| Handles.DecodeEncode | core/src/kdynobjs.c:383-434 | decoding inverts encoding, and only for the encoded type |
| Handles.EncodeDecode | core/src/kdynobjs.c:401-434 | a word decodes as the one handle it is, or is no handle of that type at all |
| Handles.GenAfterIs | core/src/kdynobjs.c:363-376 | generations run 0, then 1 to 65535 over and over |
| Handles.GenRecurs | core/src/kdynobjs.c:363-376 | a generation recurs after d bumps exactly when d is a multiple of 65535, and the initial zero never |
| DynObjs.ResolvesTo | core/src/kdynobjs.c:640-690 | what an old handle resolves to, whatever happened since it was issued |
| DynObjs.HandlesAreSafe | core/src/kdynobjs.c:486-739 | over every create/destroy run, a live handle resolves to its own object and differs from every other live one; a destroyed one is rejected for the first 65534 bumps after its own |
| DynObjs.StaleAcceptedIff | core/src/kdynobjs.c:441-469 | a destroyed object's handle is accepted again exactly when its slot is in use, it was not of generation zero, and the bumps since are a multiple of 65535 |
| DynObjs.ServicesAgree | core/src/kdynobjs.c:537-580 | over every run, a service call resolves a handle, at that instant, exactly to the object a destroy call would find; only an address of no pool is passed through, never an issued handle |
| DynObjs.UsedIsResolvedIff | core/src/ksema.c:206-220 | whatever calls come between resolution and use, the service works on the object it resolved exactly if the slot was not bumped since |
| DynObjs.UsedMayBeAnother | core/src/kdynobjs.c:537-580 | a run in which it works on a younger object of the slot, which its handle does not name |
| DynObjs.OtherFamilyRejects | core/src/kdynobjs.c:401-434 | a handle of one object type resolves to nothing in another |
| DynObjs.RegistryAgrees | core/src/kdynobjs.c:486-739 | over every run, allocated blocks are exactly the registered objects and those under construction |
| DynObjs.PublishOk | core/src/kdynobjs.c:486-530 | publishing a fresh block always succeeds and its handle is live |
| DynObjs.DestroyOk | core/src/kdynobjs.c:1266-1348 | destroy succeeds exactly on a handle that resolves to an idle object |
| DynObjEffects.BeginEffect | core/src/kdynobjs.c:1129-1175 | over every run, creation takes a block exactly if one is free: a vacant slot with its generation |
| DynObjEffects.AbandonEffect | core/src/kdynobjs.c:1129-1175 | an abandoned block is the next free one and its slot vacant |
| DynObjEffects.PublishEffect | core/src/kdynobjs.c:486-530 | over every run, publication succeeds exactly for a block under construction; its handle resolves to the new object, and no other slot changes |
| DynObjEffects.DestroyEffect | core/src/kdynobjs.c:698-739 | over every run, destruction succeeds exactly on a handle that resolves to an idle object; the slot is vacant, of the next generation, its block the next free one, the handle resolves to nothing, and no other slot changes |
| DynObjEffects.AddressEffect | core/src/kdynobjs.c:640-690 | over every run, a block's address resolves to the object registered there, if any |
| DynObjs.ObjectFamily.Allocate | core/src/kdynobjs.c:1129-1175 | the allocation half of a create call refines its step |
| DynObjs.ObjectFamily.PublishHandle | core/src/kdynobjs.c:486-530 | refines the publication |
| DynObjs.ObjectFamily.ResolveDynamicHandle | core/src/kdynobjs.c:640-690 | refines resolution, of encoded handles and of block addresses |
| DynObjs.ObjectFamily.ResolveHandle | core/src/kdynobjs.c:537-580 | refines the resolution of service calls |
| DynObjs.ObjectFamily.GenerationBump | core/src/kdynobjs.c:363-376 | 16-bit increment that skips zero, no other slot touched |
| DynObjs.ObjectFamily.DestroyHandle | core/src/kdynobjs.c:698-739 | refines invalidation, bump and release as one step |
| MutexOps.OwnershipHolds | core/src/kmutex.c:228-380 | over every run, a mutex is locked exactly while it has an owner, is on that owner's list and no other, and only a locked mutex has waiters, in priority order |
| MutexOps.PrioritiesHold | core/src/ksch.c:823-854 | over every run, each task's effective priority is exactly the best of its own and of all who wait for an inheritance mutex it owns |
| MutexOps.SuccessMeansOwner | core/src/kmutex.c:274-366 | a lock call that succeeds, at once or after a wait, returns to the owner |
| MutexOps.UnlockHandsOver | core/src/kmutex.c:589-632 | unlocking with waiters leaves no unlocked gap: the mutex goes to the best waiter |
| MutexOps.FastPathNeedsNoWalk | core/src/kmutex.c:274-300 | taking a free mutex moves no effective priority |
| MutexOps.Kill | core/src/ksch.c:1689-1743 | death releases all the task's mutexes as faulted, without waiters, and keeps the invariant |
| MutexOps.TimeOut | core/src/kmutex.c:137-155 | the waiter, and no other, leaves the wait list, its call is marked timed out, no other call or owned list changes, and the owner's priority is settled again |
| MutexEffects.WalkKeeps | core/src/ksch.c:920-960 | a walk moves priorities, and waiters within their lists; it moves no ownership |
| MutexEffects.LockEffect | core/src/kmutex.c:228-380 | over every run, a lock of a free mutex is granted; one of a mutex whose owner died, of the caller's own, or without waiting, is refused; else the caller joins the waiters; no other mutex or call changes |
| MutexEffects.UnlockEffect | core/src/kmutex.c:531-636 | over every run, an unlock succeeds exactly for the owner; else it says whether the mutex was locked, and changes nothing |
| MutexEffects.UnlockFrees | core/src/kmutex.c:589-599 | over every run, unlocking a mutex nobody waits for frees it, on nobody's list, and any other running task can lock it next |
| MutexEffects.HandOverEffect | core/src/kmutex.c:595-632 | with waiters, the one who gets the mutex is woken, to return with success; no other mutex or call changes |
| MutexEffects.ResumeEffect | core/src/kmutex.c:326-357 | a lock call that runs again returns its timeout, the death of the owner or, exactly if its task owns the mutex, success |
| MutexEffects.TimeoutEffect | core/src/kmutex.c:137-155 | a timeout changes no ownership and no other call |
| MutexEffects.SetBaseEffect | core/src/ksch.c:856-918 | a new base priority changes no ownership, no call and nobody's base but its own |
| MutexEffects.CreateEffect | core/src/kmutex.c:161-226 | a created mutex is free, of the protocol asked for |
| MutexEffects.SpawnEffect | core/src/ksch.c:2251-2300 | a new task runs at its base priority, owns nothing and is in no call |
| MutexEffects.KillEffect | core/src/ksch.c:1689-1743 | death frees and marks exactly the dead task's mutexes, ends exactly the calls that waited for one of them, takes the task off the list it waited on and leaves every other mutex and call |
| MutexEffects.OrphansLearn | core/src/kmutex.c:341-349 | those who waited for such a mutex return with the error as they run again |
| MutexChain.CalcIsBest | core/src/ksch.c:695-720 | the recomputed priority is the best of the base and the first waiters, and is one of them |
| MutexChain.UpdateSettles | core/src/ksch.c:875-918 | one update leaves at most the next task of the walk with a stale priority |
| MutexChain.UpdateDirects | core/src/ksch.c:920-960 | along a walk all priorities move the same way |
| MutexChain.LeftShrinks | core/src/ksch.c:920-960 | so the walk ends, even around a cycle of tasks that wait for each other |
| MutexChain.Chain | core/src/ksch.c:920-960 | after the walk every task has the priority its mutexes ask for |
| MutexService.Mutexes.OwnedMutexPipPrio | core/src/ksch.c:695-720 | the loop over owned mutexes finds the best inherited priority |
| MutexService.Mutexes.UpdateEffectivePrio | core/src/ksch.c:856-918 | refines the update and the requeue in the wait list |
| MutexService.Mutexes.UpdateChain | core/src/ksch.c:920-960 | the loop terminates and refines the walk |
| MutexService.Mutexes.LockMutex | core/src/kmutex.c:228-380 | refines the lock step |
| MutexService.Mutexes.UnlockMutex | core/src/kmutex.c:531-636 | refines the unlock step |
| MutexService.Mutexes.TimeOutWaiter | core/src/kmutex.c:137-155 | refines the timeout of a waiter |
| IntrusiveList.WalksAreInverse | core/src/klist.c:32-105 | next and prev chains from the sentinel are mutual inverses over exactly size distinct nodes |
| IntrusiveList.List.InsertAfter | core/src/klist.c:41-51 | the sequence with the node behind the given one |
| IntrusiveList.List.Remove | core/src/klist.c:53-64 | the sequence without the node, which is left unlinked; refused on an empty list, which stays as it is |
| IntrusiveList.List.AddTail | core/src/klist.c:81-84 | the sequence with the node at the end |
| IntrusiveList.List.AddHead | core/src/klist.c:86-89 | the sequence with the node in front |
| IntrusiveList.List.RemoveHead | core/src/klist.c:66-79 | the first node, or the error of an empty list |
| IntrusiveList.List.RemoveTail | core/src/klist.c:91-105 | the last node, or the error of an empty list |
| IntrusiveList.RemoveHeadBeside | core/src/klist.c:66-79 | another list keeps its nodes and links while the head is removed |
| IntrusiveList.AddTailBeside | core/src/klist.c:81-84 | another list keeps its nodes and links while a node is added |
| Sema.Semaphore.Pend | core/src/ksema.c:196-300 | tokens are conserved: taken from the count, or awaited in priority order |
| Sema.Semaphore.Post | core/src/ksema.c:386-462 | a waiter gets the token directly and the count stays zero; only a full count without waiters refuses |
| LineProtocol.TokensMatchLines | app/src/tiny_console.c:436-590 | over every interleaving, count, claimed line and post on its way are exactly the line ends in the ring; no post finds the semaphore full, no snapshot after a pend finds no line |
| LineProtocol.LinesAreTheSplit | app/src/tiny_console.c:516-590 | over every interleaving, the lines delivered are those of a pure splitter of CR, LF and CRLF, each of at most 64 bytes |
| LineProtocol.TypedLineCanEnd | app/src/tiny_console.c:472-507 | a line of which a byte is in the ring can always be ended |
| LineEffects.TypedByteEffect | app/src/tiny_console.c:516-548 | over every run, of the bytes typed only the line feed of a CRLF and data bytes beyond the 64th of their line are dropped unseen; for every other one the driver looks at the room of the 259 bytes |
| LineEffects.WriteEffect | app/src/tiny_console.c:472-507 | over every run, a byte joins the ring exactly if the driver saw two free bytes for data, one for a line end; else it is refused |
| LineEffects.NothingRefusedIff | app/src/tiny_console.c:472-488 | over every run, nothing is refused exactly if there was always that room |
| LineEffects.RoomyRunIsTheSplit | app/src/tiny_console.c:516-590 | a run with room throughout delivers the split of the whole input |
| LineEffects.EveryLineCanBeFetched | app/src/tiny_console.c:558-590 | from every reachable state with a complete line in the ring, the task's own steps fetch it, after the post that may be under way |
| LineProtocol.ScanOk | app/src/tiny_console.c:558-590 | bytes written during a scan do not disturb it, and the line is taken off whole |
| LineProtocol.CallbackAtOnce | app/src/tiny_console.c:516-548 | the driver's steps, run without interruption, are the callback's effect on the ring |
| LineProtocol.SnapshotAtOnce | app/src/tiny_console.c:558-590 | the steps of a scan, run without interruption, are the snapshot: the first complete line comes off, or nothing changes |
| LineSpec.FirstLineIs | app/src/tiny_console.c:558-590 | the first line end decides the first line, and taking it off leaves the others |
| LineRing.WriteAppends | app/src/tiny_console.c:472-488 | a byte at the write position is the last of the queue between the positions, wrap included |
| LineRing.AppLineRing.Free | app/src/tiny_console.c:453-464 | the room left in the ring, one byte always unused |
| LineRing.AppLineRing.WriteFromConsole | app/src/tiny_console.c:472-488 | the byte is appended exactly when the room asked for is there |
| LineRing.AppLineRing.ByteFromConsole | app/src/tiny_console.c:516-548 | a data byte is stored exactly while its line has fewer than 64 bytes and the ring at most 257, a line end while the ring has at most 258, and as the protocol's steps do it |
| LineRing.AppLineRing.Snapshot | app/src/tiny_console.c:558-590 | copies the first complete line and moves behind it, or leaves the ring alone |
| RecordLog.NewerIsSerialGreater | app/src/record_server.c:143-153 | the comparison is that of section 3.2 of RFC 1982 with SERIAL_BITS 8 |
| RecordLog.NewerIsLater | app/src/record_server.c:143-153 | within half the number space the order of numbers is the order of writes, across wraps |
| RecordLog.OldestIsNextSlot | app/src/record_server.c:178-200 | the slot chosen is always the one of the oldest of the last four writes, or the first free one |
| RecordLog.NextSeqContinues | app/src/record_server.c:155-176 | the number recomputed from the slots is the one that would have come next |
| RecordLog.WriteKeeps | app/src/record_server.c:279-305 | after any number of writes and wraps the slots hold exactly the last four |
| RecordLog.ReadFindsNewest | app/src/record_server.c:202-231 | a read finds the newest of the name among the last four writes, and fails exactly if there is none |
| RecordText.TextRoundTrip | app/src/record_server.c:47-124 | a record's text is read back as the record |
| RecordText.AcceptedTexts | app/src/record_server.c:80-124 | a text is accepted exactly when its first eight characters are hexadecimal digits, and is then the record's text but for letter case |
| RecordText.TextIsOneNumber | app/src/record_server.c:47-78 | a record's text is one big-endian hexadecimal number of sequence number, name and value |
| RecordServer.RestartRestores | app/src/record_server.c:248-277 | loading faithful files restores the slots and the next number |
| RecordServer.FirstBoot | app/src/record_server.c:248-277 | a device without files starts consistent with no writes: the base of the histories |
| RecordServer.RecordState.constructor | app/src/record_server.c:248-277 | the loading loop, over good, bad and missing files |
| RecordServer.RecordState.ScanNextSeq | app/src/record_server.c:155-176 | the loop refines the scan for the newest number |
| RecordServer.RecordState.ScanOldest | app/src/record_server.c:178-200 | the two loops refine the choice of the slot |
| RecordServer.RecordState.FindNewest | app/src/record_server.c:202-231 | the loop refines the search by name |
| RecordServer.RecordState.HandleWrite | app/src/record_server.c:279-305 | invalid names and storage failures change nothing; a write keeps memory and files the last four writes |
| RecordServer.RecordState.HandleRead | app/src/record_server.c:307-328 | not found exactly if no recent write has the name, else the newest one's record |
| LoggerTheorems.SendNeverFails | core/src/klogger.c:418-459 | over every interleaving, whatever the consumer's checks say, a submitter that got a record finds room in the queue |
| LoggerTheorems.PrintsWhatWasAccepted | core/src/klogger.c:418-494 | the accepted texts are printed in order, each once and unaltered, but for those whose record was refused, which are counted; without a refusal all of them |
| LoggerTheorems.RecordsComeBack | core/src/klogger.c:483-494 | with no call under way all records are free again, but for one lost with every refusal |
| LoggerTheorems.StaysOnListIff | core/src/klogger.c:381-416 | over every interleaving, a link read keeps the walk on its list exactly if the block it stands on still begins with its link; it does not only after a submitter wrote that block |
| LoggerTheorems.RefusedOnlyIfOvertaken | core/src/klogger.c:381-416 | no record is refused in a run in which no final check reads the link of a written block with blocks left to compare |
| LoggerTheorems.WrittenFirstSafeIff | core/src/klogger.c:404-413 | if the submitter writes first, the check is safe for every time stamp exactly if no more blocks are left to compare; else a stamp equal to the record's address has it refused while in use |
| LoggerTheorems.ReadFirstIsSafe | core/src/klogger.c:404-413 | if the link is read first, the walk stays on its list whatever is written afterwards |
| LoggerTheorems.RefusalHappens | core/src/klogger.c:483-494 | a run, for every pool address, in which the record of an accepted text is refused while in use |
| LoggerProof.QueueHasRoom | core/src/klogger.c:564-580 | because pool size equals queue depth, and records queued, carried and submitted are distinct |
| LoggerProof.StepOk | core/src/klogger.c:381-562 | every step of submitters and consumer, down to single reads and writes, keeps who holds which record, the threaded free list and the texts on the way |
| LoggerEffects.TakeEffect | core/src/klogger.c:418-435 | over every interleaving, a log call gets a record exactly while one is free, and nobody else has it |
| LoggerEffects.FillEffect | core/src/klogger.c:437-440 | the record then holds the text and begins with the time stamp; every other one is as it was |
| LoggerEffects.SendEffect | core/src/klogger.c:447-458 | over every interleaving, a send gives its record to the consumer if that waits, else puts it behind the queue |
| LoggerEffects.AcceptedAreSubmitted | core/src/klogger.c:418-459 | over every interleaving, the accepted texts are exactly those the log calls were given, in the order of their sends |
| LoggerEffects.ReceiveEffect | core/src/klogger.c:529-562 | a receive takes the first queued record, or waits |
| LoggerEffects.ReleaseEffect | core/src/klogger.c:483-494 | a printed record is free, and the first to be taken |
| LoggerEffects.ConsumerPrintsNext | core/src/klogger.c:529-562 | from every reachable state with a record in its hands and output on, the consumer alone prints the next accepted text and frees the record |
| LoggerEffects.WaitsWhileOff | core/src/klogger.c:540-545 | while output is off the consumer waits with its record and nothing changes |
| LoggerEffects.PrintsOnceOn | core/src/klogger.c:103-106 | once output is switched on it prints |
| LoggerService.Log.TakeRecord | core/src/klogger.c:418-435 | refines the allocation of a submitter |
| LoggerService.Log.FillRecord | core/src/klogger.c:437-440 | refines the writes to the record, the time stamp over the link |
| LoggerService.Log.SendRecord | core/src/klogger.c:447-458 | refines the send, its branch for a full queue included |
| LoggerService.Log.CheckBlock | core/src/klogger.c:404-413 | one turn of the walk refines compare and read, with any submitters' steps before and between |
| LoggerService.Log.CheckRecord | core/src/klogger.c:381-416 | the walk, interrupted anywhere, ends and refines its steps |
| LoggerService.WalkedOk | core/src/klogger.c:404-413 | however often it is interrupted, the walk ends within one turn more than there are records, and keeps the invariant |
| LoggerService.UndisturbedRefusesFree | core/src/klogger.c:381-416 | with nothing in between, the walk refuses exactly the free records; the waiting loop waits on exactly for a record in use while output is off |
| LoggerService.Log.Receive | core/src/klogger.c:529-562 | refines the receive |
| LoggerService.Log.PrintRecord | core/src/klogger.c:483-491 | the line printed is the next accepted text |
| LoggerService.Log.Release | core/src/klogger.c:483-494 | refines the free of the printed record |
| LogText.DigitsRoundTrip | core/src/klogger.c:177-208 | the digits of a number in base 10 or 16 read back as the number, without leading zeros |
| LogText.CopyText | core/src/klogger.c:113-137 | as much of the text as fits, and its NUL |
| LogText.TextBuf.AppendChar | core/src/klogger.c:139-158 | the buffer holds the beginning of everything appended; it is overrun exactly by an append with the position counter at its limit |
| LogText.TargetInBoundsIff | core/src/klogger.c:139-158 | the character is written inside the buffer, or not at all, exactly if the position counter is below its limit |
| LogText.TextBuf.AppendUnsigned | core/src/klogger.c:177-208 | appends exactly the digits; nothing for another base |
| LogText.TextBuf.AppendSigned | core/src/klogger.c:210-228 | the sign and the digits, the least number included |
| Crc.LfsCrc | middleware/littlefs/lfs_util.c:17-33 | for every seed and every data, the nibble-table loop is the bit-at-a-time CRC of section 8 of RFC 1952, polynomial 0xEDB88320, without its inversions |
| Crc.TableIsFourBits | middleware/littlefs/lfs_util.c:18-23 | every table entry is four steps of the bit-at-a-time division |
| Crc.CrcOfConcatenation | middleware/littlefs/lfs_util.c:17-33 | the CRC of a concatenation is the chained CRC |
| Crc.DifferenceSurvives | middleware/littlefs/lfs_util.c:17-33 | different intermediate CRCs stay different over equal data |
| Crc.OneByteIsDetected | middleware/littlefs/lfs_util.c:17-33 | two messages that differ in one byte have different CRCs |

## Left out

- SVC dispatch and the `...Syscall` forms, exception frames, MPU checks of user buffers, critical-section assembly, trace and monitor calls, error handlers: hardware, or pure reporting. User buffers are taken as valid.
- Null, not-initialised, domain and interrupt-context checks at the head of every service: they leave before the modelled part begins.
- The boot case without a running task: leases and ownership are not tracked there.
- Reuse of a task's name: a task name stands for one life of a task.
- `ktimer.c` and the failure of `kTimeoutNodeAdd`: a timeout is a step that may happen to any bounded waiter at any time.
- Change of a waiter's priority while it is listed is modelled for mutexes; in message queues, message pools and semaphores the priorities are fixed during a run.
- Message-queue reset, and signals or task death while a broadcast is in flight: receivers already woken would find the slot empty.
- `kMesgQueueQuery`, `kSemaphoreQuery`, `kMutexQuery`, peeking at attributes, naming and scopes: reads of single fields, or labels.
- The partitions inside the most-recent-message service, the task messages, the object families and the logger are used through their value `Mem.Pool`; `Mem.MemPartition` proves that value for the partition in memory.
- That one endpoint serves either references or copies: the two halves of `kmesg.c` are separate models.
- The ceiling that queued messages and synchronous callers put on a priority: in `MutexSpec` it is part of a task's base priority, which may change at any step.
- What the services do with addresses of statically created objects, which `kDynObjResolveHandle` passes through.
- Sleep queues, timers and shared memory as objects: their create and destroy calls are those of `DynObjs`.
- A failing storage write that leaves the file half written: a write that reports failure is taken to leave the file as it was.
- The command parser of the console and the interpretation of format strings in `logFormatText_`: only framing, digits and bounded appending are modelled.
- The shared send slot the logger uses while a syscall is being served: each submitter sends its own pointer.
- The send-notify callback of message queues, which runs after a message was stored or handed over.
- What a logger walk that left its list reads: it goes on with an arbitrary word, where the hardware may fault; and the system goes on after a refusal, where the code's assertion may stop it.
- Fault-level log records, which abort the system.
