# Verified models of Gazelle's hand-offs

Gazelle is a user-space TCP stack: `lstack` runs inside the application, `ltran` is a forwarding process.  Its threads
hand each other messages, packet buffers and bytes without locks.  This project models these hand-offs in Dafny and
proves what they promise, for every run.

| files | what they model |
|---|---|
| `MpscQueue.dfy`, `LocklessQueue.dfy` | the intrusive queue of RPC messages, with its stub node |
| `Ring.dfy`, `RteRing.dfy` | the ring with four wrapping cursors and two threads |
| `SendPath.dfy`, `SendInv.dfy`, `SendApp.dfy`, `SendFrames.dfy` | the TCP send path: merge, fill, direct write, attach, hand-over with retry |
| `SendRecycle.dfy`, `SendPromises.dfy`, `SendReuseRuns.dfy`, `SendSock.dfy` | the same with the memory of freed buffers allocated anew, and the application's code on it |
| `RecvPath.dfy` | the receive path with its partially read buffer |
| `SameNode.dfy` | the byte ring between two processes of one node |
| `Throttle.dfy` | the throttle on send notifications |
| `Epoll.dfy`, `EpollWait.dfy` | sleeping and waking in epoll_wait |
| `Lifetime.dfy`, `InstanceMgr.dfy` | registration, epoch ticks, and the grace period before freeing |
| `StackTable.dfy`, `Deletion.dfy` | deletion of an instance's stacks by thread id, and what it means for the grace period |
| `Forward.dfy` | packet order and accounting through the ring and the backup buffer |
| `TcpTables.dfy`, `TcpTablesCode.dfy` | the connection and socket tables |
| `Vdev.dfy` | the ring accounting of the shared-memory device |

Where threads race, a module first gives a transition system in which one action is one access to shared memory (the
queue, the ring, the send path, the same-node ring, the throttle, epoll, the lifetimes).  An inductive invariant is
proved for every action and so for every run from the initial state, and the promises follow from it.  Beside it stands
a class with the code's own methods and loops: each method takes a parameter that says what the other threads do before
its accesses, keeps the state equal to that of a run of the transition system, and returns what its contract says.  The
receive path, the packet flush and the device are classes on top of the ring and have no transition system of their own;
there too the other thread moves before each access to the ring.  The tables have one thread, and ticks that move on before any
load.  Fields named as history (`pushed`, `log`, `stream`, `accepted`, `delivered`, ...) record the past for the
statements.

Some promises one might expect do not hold of the code; for each the project has a run that shows it and the exact
condition under which the promise holds:

- pop may answer NULL although all pushes have finished and items wait, if and only if the link behind the tail was
  stored between its loads of that link and of the head (`NullWithFinishedPushes`, `WrongNullOnEveryRun`).
- the count of the queue includes the stub if and only if it lies behind the tail (`StubInTheMiddle`, `Count`).
- call_num is below zero for a moment when a handler runs between the push and the count of its message; as a signed
  number it still never lets a notification be skipped with nothing queued, as an unsigned word it does exactly when more
  messages wait to be counted than handlers have begun (`CallNumDipsBelowZero`, `EmptySkip`).
- a sock is reported with none of its events if and only if it is one-shot (`OneShotReportedEmpty`,
  `NoEventIsDropped`).
- buffers taken from the mailbox are lost if and only if receiving fails after only empty ones (`EmptyMessageIsLost`,
  `ReadLwipData`).
- freeing a sock leaves dangling pointers if and only if a connection still points to it (`DanglingSock`, `SockDel`,
  `DetectSockLogout`).
- the bytes accepted for sending stay in order, and none is lost, as long as nothing is written through the slot before
  prod.tail after the memory of the last released buffer was freed and allocated anew.  The two places that may do so are
  the merge or attach after `gazelle_ring_readlast`, which loads cons.tail before it looks at allow_in, and the store of
  `last` in `app_direct_write`, which comes after the release.  A merge or an attach keeps the stream if and only if the
  memory was not allocated anew, and the store of `last` keeps the invariant if and only if it was not allocated for this
  very ring (`SentOutOfOrder`, `LostBehindOldChain`, `AttachKeepsStreamIff`, `MergeKeepsStreamIff`, `DirectLastIff`,
  `StreamOnEveryRun`).
- logging out an instance frees each stack of its array once if and only if no stack of the same thread lies ahead of it
  in the table but those of lower array index (`RetryIsOutOfOrder`, `CleanIffInOrder`).
- the grace period holds if every logout begins with its array in order; otherwise a stack that a loop holds can be freed, and
  a deletion frees the stack it was meant for if and only if no other of its thread is ahead of it (`GraceByThread`,
  `FreedWhileHeld`, `DelNextIff`).

Assumptions: memory is sequentially consistent.  A ring of power-of-two size keeps element i at i & mask, and its
capacity is its size less one.  The send path sees its ring as a log with unbounded cursors, which is what
`FourCursorRing.RingOnEveryRun` and `LastReleasedIsIntact` provide; a socket has one application thread and one stack
thread.  It names packet buffers by allocation; `SendRecycle` adds freeing and allocating the memory anew, by this socket
and by others, and `TouchesLive` shows that only the slot before prod.tail can lead to another allocation than the one
meant.  The addresses of queue nodes in use, instances, stacks, socks and connections are not handed out again.  One thread
waits on an epoll instance.  `Lifetime` and `InstanceMgr` free the stacks of an array by pointer; `Deletion` replaces
that by deletion by thread id.  The classes take allocation failures, failing receives and answers, retries within a time
limit and the moves of other threads as parameters.

Check the project with `dafny verify dfyconfig.toml`.

## Model

| member | source | states |
|---|---|---|
| MpscQueue.FifoOnEveryRun | src/lstack/include/lstack_lockless_queue.h:60-102 | after any interleaving of any pushers with one popper, what pop returned is a prefix of what was pushed in exchange order, what is missing is exactly the chain, and the stub is in the chain at most once |
| MpscQueue.StepKeepsInv | src/lstack/include/lstack_lockless_queue.h:60-102 | every single access of a pusher or of pop keeps the chain, its half-made links and the stub discipline |
| MpscQueue.RunKeepsInv | src/lstack/include/lstack_lockless_queue.h:28-33 | the same for every run from the initial queue |
| MpscQueue.ReturnedNodeIsFree | src/lstack/include/lstack_lockless_queue.h:83-99 | a node pop has just returned is out of the chain and is nobody's old head: it may be reused at once |
| MpscQueue.NullMeansEmptyOrRaced | src/lstack/include/lstack_lockless_queue.h:74-101 | NULL means that the queue is empty or that a push was between exchange and link during this call; without such a push NULL is answered if and only if the queue is empty; with no push pending at the answer a NULL is wrong if and only if it is given because the head is not the tail |
| MpscQueue.WrongNullOnEveryRun | src/lstack/include/lstack_lockless_queue.h:71-91 | on every run, NULL is answered with items waiting and no push pending if and only if the call found no link behind the tail and that link was stored before it loaded the head |
| MpscQueue.NullWithFinishedPushes | src/lstack/include/lstack_lockless_queue.h:88-91 | a run of this kind: NULL is answered with two items waiting and all pushes finished; the push it met began after the load of tail->next |
| MpscQueue.StubInTheMiddle | src/lstack/include/lstack_lockless_queue.h:88-101 | a queue at rest can hold the stub behind real items |
| MpscQueue.PopAloneTakesFirst | src/lstack/include/lstack_lockless_queue.h:69-102 | with no push under way, pop returns the first item if there is one and leaves the rest |
| MpscQueue.DrainsInOrder | src/lstack/include/lstack_lockless_queue.h:69-102 | once all pushes have finished, repeated pops return every item in order and then NULL |
| LocklessQueueCode.LocklessQueue.constructor | src/lstack/include/lstack_lockless_queue.h:28-33 | initialisation gives the initial state |
| LocklessQueueCode.LocklessQueue.Pop | src/lstack/include/lstack_lockless_queue.h:69-102 | the code of pop, with any pushes before each of its accesses, is one call of the transition system and returns what that delivers |
| LocklessQueueCode.LocklessQueue.InsertStub | src/lstack/include/lstack_lockless_queue.h:93 | the stub is pushed by the two steps of a push, with others in between |
| LocklessQueueCode.LocklessQueue.Count | src/lstack/include/lstack_lockless_queue.h:40-58 | count equals the number of items plus one if the stub lies behind the tail; it is exact if and only if the stub does not |
| FourCursorRing.RingOnEveryRun | src/common/dpdk_common.h:163-223 | in every interleaving with stale loads and any number of wraps: cursor order, dequeues and reads are prefixes of the enqueues, only released objects are dequeued, no slot is overwritten before its dequeue |
| FourCursorRing.StepKeepsInv | src/common/dpdk_common.h:163-223 | every load, slot copy and cursor store keeps it |
| FourCursorRing.RunKeepsInv | src/common/dpdk_common.h:163-223 | and so does every run |
| FourCursorRing.RefusedIffNoRoom | src/common/dpdk_common.h:165-171 | an enqueue is refused if and only if it needs more than the free room |
| FourCursorRing.CountsAreExact | src/common/dpdk_common.h:225-244 | the wrapped differences of the cursors are the true distances |
| FourCursorRing.LastReleasedIsIntact | src/lstack/core/lstack_lwip.c:479-488 | the slot of the last released object still holds it even if it was dequeued after a stale load of the tail |
| RteRingCode.RteRing.constructor | src/common/dpdk_common.h:151-162 | an empty ring of a power-of-two size |
| RteRingCode.RteRing.SpEnqueueAmid | src/common/dpdk_common.h:163-178 | with the reader moving before each load, slot copy and store, all objects are enqueued if there is room for all, and none otherwise; the call is part of a run of the transition system |
| RteRingCode.RteRing.ScDequeueAmid | src/common/dpdk_common.h:180-198 | with the reader moving before each access, the oldest objects, as many as asked for and released when it looked |
| RteRingCode.RteRing.ReadAmid | src/common/dpdk_common.h:200-218 | with the owner moving before each access, the oldest unread objects, as many as asked for and enqueued when it looked; they stay in the ring |
| RteRingCode.RteRing.ReadOver | src/common/dpdk_common.h:220-223 | everything read is released |
| RteRingCode.RteRing.ReadLast | src/lstack/core/lstack_lwip.c:479-488 | with the owner moving between its loads, the last released object if and only if it had not been dequeued when the tail was loaded, even if it is dequeued since |
| RteRingCode.RteRing.Counts | src/common/dpdk_common.h:225-244 | the four counts |
| SendRecycle.StreamOnEveryRun | src/lstack/core/lstack_lwip.c:110-539 | on every run in which no buffer waiting to be filled is written through the slot before prod.tail, the stream is the confirmed bytes, then the chain of send_pre_del, then that of send_lastdata, then the released ring buffers with their chains; and this is all that was accepted, in order, if and only if no merge or attach went to a buffer in use elsewhere |
| SendRecycle.RunOfAllocations | src/lstack/core/lstack_lwip.c:110-539 | with freed buffers allocated anew by replenish or by others, every such run is a run of the transition system that names buffers by allocation |
| SendRecycle.StepKeepsSound | src/lstack/core/lstack_lwip.c:110-539 | every access, every freeing and every new allocation, but the two crossing ones, keeps the invariant of the send path and the record of what is freed and what lies behind the slot |
| SendRecycle.TakenOnEveryRun | src/lstack/core/lstack_lwip.c:506-539 | the bytes accepted are the bytes of the stream if and only if none went to a buffer in use elsewhere |
| SendPromises.AttachKeepsStreamIff | src/lstack/core/lstack_lwip.c:479-499 | an attach that was let in keeps the stream equation if and only if the memory of the last buffer was not allocated anew before allow_in was looked at |
| SendPromises.MergeKeepsStreamIff | src/lstack/core/lstack_lwip.c:506-539 | the same of a merge that finds room |
| SendPromises.DirectLastIff | src/lstack/core/lstack_lwip.c:409-411 | the store of last after the release changes no chain, and keeps the invariant if and only if pbufs[0] was not freed and put into this ring again by then; else a buffer waiting to be filled gets the end of an old chain |
| SendPromises.FrozenUntilFreed | src/lstack/core/lstack_lwip.c:257-322 | on such runs a buffer that write_lwip_data has returned keeps its bytes, length and link until it is freed |
| SendPromises.TouchesLive | src/lstack/core/lstack_lwip.c:110-539 | on such runs no other pointer that either thread follows leads to a freed buffer |
| SendPromises.LockedIsLast | src/lstack/core/lstack_lwip.c:491-499 | with allow_in seen set in the last buffer itself it is not freed, its chain is the end of the stream, and nothing of it was handed to lwip |
| SendReuseRuns.SentOutOfOrder | src/lstack/core/lstack_lwip.c:479-499 | a run in which the application writes 7, 8, 9 and the stack sends 7, 9, 8 |
| SendReuseRuns.LostBehindOldChain | src/lstack/core/lstack_lwip.c:409-411 | a run in which the last of four bytes hangs on a buffer that lwip was given long ago |
| SendPathProof.SendStreamOnEveryRun | src/lstack/core/lstack_lwip.c:257-328 | with buffers named by allocation, on every run the accepted bytes are the confirmed bytes, then the chain of send_pre_del, then that of send_lastdata, then the released ring buffers with their chains |
| SendPathProof.GivenBufferIsFrozen | src/lstack/core/lstack_lwip.c:257-322 | with buffers named by allocation, after write_lwip_data has returned a buffer, its bytes, length and link never change again |
| SendPathProof.ReturnedIsNext | src/lstack/core/lstack_lwip.c:324-328 | the returned buffer is the next unconfirmed piece of the stream, and write_lwip_over confirms exactly it |
| SendPathProof.StepKeepsInv | src/lstack/core/lstack_lwip.c:257-539 | every access of the application and of the stack thread keeps the invariant of the send path |
| SendPathProof.RunKeepsInv | src/lstack/core/lstack_lwip.c:257-539 | and so does every run |
| SendPathProof.LastChain | src/lstack/core/lstack_lwip.c:479-504 | while the allocation released last lets data in, its chain is the end of the stream and none of it is confirmed |
| SendPathProof.LastNotGiven | src/lstack/core/lstack_lwip.c:491-496 | nor has any of it been handed to lwip |
| SendPathProof.MergeCopyKeepsInv | src/lstack/core/lstack_lwip.c:528-536 | appending bytes to the last buffer under its lock |
| SendPathProof.AttachKeepsInv | src/lstack/core/lstack_lwip.c:417-454 | attaching a chain behind the last buffer under its lock |
| SendPathProof.BuffOverKeepsInv | src/lstack/core/lstack_lwip.c:456-477 | releasing filled ring buffers |
| SendPathProof.DirectOverKeepsInv | src/lstack/core/lstack_lwip.c:378-415 | releasing a ring buffer with a new chain |
| SendInvariant.ReturnKeepsInv | src/lstack/core/lstack_lwip.c:264-321 | cutting a buffer off its chain and returning it, in each of the three ways |
| SendInvariant.CloseKeepsInv | src/lstack/core/lstack_lwip.c:268-272 | clearing allow_in under the lock |
| SendInvariant.WriteOverKeepsInv | src/lstack/core/lstack_lwip.c:324-328 | confirming the buffer in hand |
| SendInvariant.ReplenishKeepsInv | src/lstack/core/lstack_lwip.c:135-168 | refilling the ring with new allocations, whatever memory they are in |
| SendSockCode.SendSock.WriteStackData | src/lstack/core/lstack_lwip.c:552-640 | it accepts exactly the first r bytes it reports, whatever the stack thread, lwip and the other users of the buffers do in between; all of them if the ring has buffers for all, what the free buffers hold in the mode without expansion, -1 if none; without expansion no buffer waiting to be filled is written through the slot |
| SendSockCode.SendSock.WriteRest | src/lstack/core/lstack_lwip.c:577-633 | the same for what was not merged, in the three ways to write and in the mode that cuts to the free buffers |
| SendSockCode.SendSock.MergeDataLastPbuf | src/lstack/core/lstack_lwip.c:506-539 | the accepted stream grows by exactly what is merged |
| SendSockCode.SendSock.MergeAllowed | src/lstack/core/lstack_lwip.c:514-538 | the same from the test of next and len on, with the stack thread moving before the test, the length store, the copy and the unlock |
| SendFrames.LastStays | src/lstack/core/lstack_lwip.c:417-454 | while the application holds the last buffer with allow_in seen set, no step of the stack thread changes its link, length or last, or closes it |
| SendSockCode.SendSock.ReadLast | src/lstack/core/lstack_lwip.c:479-499 | a buffer is found if and only if the tail loaded before was behind the last one, its lock was free at the trylock, and allow_in was set at the check in what the slot led to by then |
| SendSockCode.SendSock.DoAppWrite | src/lstack/core/lstack_lwip.c:346-376 | the pieces put together are the data, all but the last are full and none is empty |
| SendSockCode.SendSock.AppBuffWrite | src/lstack/core/lstack_lwip.c:456-477 | all data is accepted, and remain_len is the room left in the last buffer, or what a later allocation of its memory shows |
| SendSockCode.SendSock.AppDirectWrite | src/lstack/core/lstack_lwip.c:378-415 | all or nothing, depending on the allocation, with the others moving before the ring read, the release and the store of last, which crosses if and only if the memory of the first buffer is in the ring again |
| SendSockCode.SendSock.AppDirectAttach | src/lstack/core/lstack_lwip.c:417-454 | all or nothing, depending on the allocation, with the others moving before the link, the store of last and the unlock; the link crosses if and only if the slot leads to a buffer waiting to be filled |
| SendFrames.StepKeepsPositive | src/lstack/core/lstack_lwip.c:346-454 | no buffer is ever released empty |
| RecvPath.RecvSock.ReadStackData | src/lstack/core/lstack_lwip.c:1040-1108 | results concatenate to a prefix of the enqueued payloads, whatever the stack thread does before each access to the ring; all bytes asked for, or the ring is empty, or a copy was cut at 65535; 0 and -1 exactly as the code answers |
| RecvPath.RecvSock.ReadOne | src/lstack/core/lstack_lwip.c:1058-1090 | one round of the loop, with a turn of the stack thread before each access to the ring and before the release |
| RecvPath.RecvSock.CopyOut | src/lstack/core/lstack_lwip.c:1069-1089 | what is not copied is kept as recv_lastdata, else the buffer is released: between calls one buffer is read and unreleased if and only if recv_lastdata is set |
| RecvPath.RecvSock.TakeNext | src/lstack/core/lstack_lwip.c:1059-1067 | the kept buffer, or the next one of the ring if there was one when it looked |
| RecvPath.RecvSock.PbufFreePartial | src/lstack/core/lstack_lwip.c:1020-1038 | the bytes of the chain without the first ones, with the right total length |
| RecvPath.RecvSock.FreeReadOver | src/lstack/core/lstack_lwip.c:707-714 | with the application moving before each access, what was released before is freed and nothing that is not released |
| RecvPath.RecvSock.ReadLwipData | src/lstack/core/lstack_lwip.c:724-789 | with the application taking and copying before each of its accesses to the ring: what was released at its start is freed, the ring never refuses a buffer, and buffers are lost if and only if receiving fails after nothing but empty ones |
| RecvPath.RecvSock.CountAndCollect | src/lstack/core/lstack_lwip.c:732-765 | the part between its two ring operations: what is collected fits the room that was counted |
| RecvPath.RecvSock.Put | src/lstack/core/lstack_lwip.c:767-789 | everything collected is enqueued, whatever the application has done since the room was counted and does between the accesses |
| RecvPath.EmptyMessageIsLost | src/lstack/core/lstack_lwip.c:741-758 | a run in which a message without data is lost because receiving fails at the next one |
| RecvPath.RecvSock.Collect | src/lstack/core/lstack_lwip.c:741-765 | how many buffers are taken from the mailbox, and when the whole read fails |
| RecvPath.RecvSock.DataIn | src/lstack/core/lstack_lwip.c:1048-1050 | the test for readable data |
| SameNodeRing.BytesOnEveryRun | src/lstack/core/lstack_lwip.c:870-936 | in every interleaving received bytes are a prefix of sent bytes, occupancy is at most the length, and unread bytes are in place |
| SameNodeRing.StepKeepsInv | src/lstack/core/lstack_lwip.c:870-936 | every load, byte copy and counter store keeps it |
| SameNodeRing.RefusedIff | src/lstack/core/lstack_lwip.c:876-880 | a send is refused if and only if the ring is full, a receive if and only if it is empty |
| SameNodeRing.PiecesAreBytewise | src/lstack/core/lstack_lwip.c:920-927 | copying one piece, or two at the wrap, is copying byte by byte at the index modulo the length |
| SameNodeRing.FetchedPieces | src/lstack/core/lstack_lwip.c:885-892 | the same for the receiver |
| SameNodeRing.CopyingIsWritten | src/lstack/core/lstack_lwip.c:920-927 | the byte steps of the system, taken together, are that copy |
| SameNodeRing.CopyingIsFetched | src/lstack/core/lstack_lwip.c:885-892 | the same for the receiver |
| SameNodeRing.ByteRing.CopyTo | src/lstack/core/lstack_lwip.c:920-927 | one memcpy of the sender is the byte steps of the system at its indexes, with the receiver moving between them |
| SameNodeRing.ByteRing.CopyFrom | src/lstack/core/lstack_lwip.c:885-892 | the same for the receiver |
| SameNodeRing.ByteRing.Send | src/lstack/core/lstack_lwip.c:906-936 | with the receiver moving before each access and each byte copied: it sends what fits by the sndbegin it loaded; -1 if and only if that is nothing |
| SameNodeRing.ByteRing.Recv | src/lstack/core/lstack_lwip.c:870-903 | with the sender moving before each access and each byte copied: it receives what is there by the sndend it loaded; -1 if and only if the ring is empty by it |
| Throttle.ThrottleOnEveryRun | src/lstack/core/lstack_lwip.c:676-705 | call_num never exceeds the outstanding messages, is exact when nobody is in between, and at 2 or more a message is queued that has not begun; the count itself, read as a signed number or an unsigned word |
| Throttle.EmptySkip | src/lstack/core/lstack_lwip.c:841-851 | a notification is skipped with nothing queued never by a signed call_num, and by an unsigned one if and only if more messages wait to be counted than handlers have begun |
| Throttle.SkipIsServed | src/lstack/core/lstack_lwip.c:841-851 | after a skipped notification a handler begins before the queue is empty again |
| Throttle.RunKeepsInv | src/lstack/core/lstack_lwip.c:688-701 | call_num plus what is pushed and uncounted equals what is queued plus what is begun |
| Throttle.CallNumDipsBelowZero | src/lstack/core/lstack_lwip.c:841-851 | a run in which call_num is -1 for a moment with nothing queued; as an unsigned word it is then taken for a large number |
| Throttle.NotifySock.NoticeStackSend | src/lstack/core/lstack_lwip.c:841-851 | a caller that skips has a message queued at that moment, or took a negative count for a large one; one that does not skip has pushed and counted one |
| Throttle.NotifySock.StackSend | src/lstack/core/lstack_lwip.c:676-705 | the handler ends in the polling loop; it pushes its message again if and only if work is left and call_num was loaded as 0 |
| Throttle.NotifySock.PollRpcMsg | src/lstack/core/lstack_thread_rpc.c:94-121 | at most max_num handlers, fewer only when a pop finds nothing |
| EpollProtocol.NoLostWakeup | src/lstack/api/lstack_epoll.c:464-511 | on every run, if the waiter sleeps with an event on its list and no stack is inside add_sock_event, the token is free, or a stack is about to unlock, or the waiter is on a wake-up list with in_wait true |
| EpollProtocol.StepKeepsInv | src/lstack/api/lstack_epoll.c:49-109 | every access of the application and of any stack keeps the invariant |
| EpollProtocol.QuietMeansAwake | src/lstack/api/lstack_epoll.c:82-109 | when all stacks are idle with empty wake-up lists, nobody sleeps on an event without a free token |
| EpollProtocol.WakerExists | src/lstack/api/lstack_epoll.c:82-109 | from every state in which one sleeps on an event, at most five steps of one stack free the token |
| EpollProtocol.NothingReported | src/lstack/api/lstack_epoll.c:364-403 | nothing is reported if and only if no listed sock has a wanted event, and the list is then left empty |
| EpollProtocol.NoEventIsDropped | src/lstack/api/lstack_epoll.c:364-403 | a ready sock is reported or stays listed, a level-triggered one always stays; it is reported with its events if and only if it is not one-shot |
| EpollProtocol.OneShotReportedEmpty | src/lstack/api/lstack_epoll.c:364-403 | a run in which a one-shot sock with an event it waits for is reported with none |
| EpollProtocol.ReportedAreListed | src/lstack/api/lstack_epoll.c:364-403 | reports come from the list and are at most maxevents |
| EpollWaitCode.ScanList | src/lstack/api/lstack_epoll.c:364-403 | the loop over the list computes the specified scan |
| EpollWaitCode.Waiter.EpollLwipEvent | src/lstack/api/lstack_epoll.c:364-403 | under the lock it is one step of the system and returns what the scan reports |
| EpollWaitCode.Waiter.LstackEpollWait | src/lstack/api/lstack_epoll.c:464-511 | a call that returns reports what the list held at its last look, nothing only with a time limit; one that still sleeps has its token taken and, with an event listed, a stack that will wake it |
| EpollWaitCode.Waiter.AddSockEvent | src/lstack/api/lstack_epoll.c:49-80 | an added event leaves the waiter on the wake-up list of the stack |
| EpollWaitCode.Waiter.WakeupStackEpoll | src/lstack/api/lstack_epoll.c:82-109 | the node is taken off, after the mutex was unlocked if in_wait was seen true |
| Lifetime.GracePeriod | src/ltran/ltran_instance.c:626-718 | on every run no forwarding loop holds a freed instance or stack |
| Lifetime.StepKeepsInv | src/ltran/ltran_instance.c:567-718 | every access of the control thread and of either loop keeps the invariant |
| Lifetime.GraceKeeps | src/ltran/ltran_instance.c:626-635 | a loop whose counter has changed since the snapshot holds nothing of the instance and gets hold of nothing of it again |
| Lifetime.StaysClear | src/ltran/ltran_forward.c:530-550 | a loop that holds nothing of a logged-out instance cannot reach it, by the arrays or by an entry |
| Lifetime.LiveEntryHasItsStack | src/ltran/ltran_forward.c:257-262 | an entry that is on has a stack that is registered and not freed |
| Lifetime.OnMeansReady | src/ltran/ltran_stack.c:131-134 | a stack that is on, or is taken for on by separate loads of its ticks, has its rings and its array slot |
| Lifetime.EntryOffForEver | src/ltran/ltran_instance.c:698 | an entry that is off stays off, whatever happens to the slot |
| Lifetime.StackOffForEver | src/ltran/ltran_instance.c:614-619 | a stack that was on and has gone off stays off |
| Lifetime.InstanceOffForEver | src/ltran/ltran_instance.c:167-170 | a logged-out instance stays off |
| Lifetime.RunSettles | src/ltran/ltran_instance.c:145-179 | ticks only grow, stacks that are set up stay so, and registrations in force do not change |
| DeletionByThread.GraceByThread | src/ltran/ltran_instance.c:626-718 | with stacks deleted by thread id: if every logout begins with its array in order, no forwarding loop ever holds a freed instance or stack |
| DeletionByThread.RunOfPointers | src/ltran/ltran_instance.c:637-662 | then every run is one in which the stacks the array points to are freed |
| DeletionByThread.DelNextIff | src/ltran/ltran_stack.c:143-188 | a deletion frees the stack it was meant for if and only if only stacks of other threads are ahead of it in its chain |
| DeletionByThread.FreedWhileHeld | src/ltran/ltran_instance.c:637-662 | a run out of order in which a loop holds a stack that is freed although its instance has not logged out |
| StackTable.CleanIffInOrder | src/ltran/ltran_instance.c:637-662 | deleting the stacks of the array by thread id looks at no freed stack and frees all of them if and only if each has only stacks of other threads and of lower array index ahead of it in its chain |
| StackTable.InOrderWalk | src/ltran/ltran_instance.c:637-662 | then each stack is freed exactly when it is looked at |
| StackTable.RetryIsOutOfOrder | src/ltran/ltran_instance.c:609-612 | the condition fails for a thread that registers again after an answer that failed |
| StackTable.StackHtable.DelByTid | src/ltran/ltran_stack.c:143-188 | the first stack of the thread in its chain is unlinked and freed, any others stay |
| StackTable.StackHtable.LogoutStacks | src/ltran/ltran_instance.c:648-662 | the walk with its holes gets through with all of the array freed if and only if the array is in order |
| InstanceMgrCode.InstanceMgr.WaitForwardDone | src/ltran/ltran_instance.c:626-635 | with the loops moving before each load, it is over only when both counters have changed; before that nothing is freed |
| InstanceMgrCode.InstanceMgr.HandleInstanceLogout | src/ltran/ltran_instance.c:686-721 | the instance and every stack of its array are freed, or nothing is |
| InstanceMgrCode.InstanceMgr.FreeAll | src/ltran/ltran_instance.c:648-684 | all stacks of the array, then the instance, with the loops running in between; the stacks leave the table |
| InstanceMgrCode.InstanceMgr.AddByPid | src/ltran/ltran_instance.c:145-179 | a new instance is published one tick behind, with the loops running between tick and publication; none only without a free slot or memory |
| InstanceMgrCode.InstanceMgr.ProcAtt | src/ltran/ltran_instance.c:500-547 | the instance is on if it is known, attached and answered, and otherwise nothing changes |
| InstanceMgrCode.InstanceMgr.HandleThrdRing | src/ltran/ltran_instance.c:567-624 | a thread with a live stack keeps it; a new stack is set up with the tick of its instance; one whose answer failed is off; refused only without an instance, a place, room in the table, memory or an answer |
| InstanceMgrCode.InstanceMgr.CheckOn | src/ltran/ltran_forward.c:544-547 | a stack found on is set up and not freed, in whichever order the ticks are loaded |
| InstanceMgrCode.InstanceMgr.ForwardLoop | src/ltran/ltran_forward.c:709-728 | every stack that the walk over instances and stacks takes for on is set up, and not freed before the iteration is over; then nothing is held and the counter has moved |
| Forward.GazelleStack.EnqueueRxPacket | src/ltran/ltran_forward.c:225-240 | what was delivered, then the backup, then pkt_buf is the arrival order without the dropped packets; a drop only with the backup full |
| Forward.GazelleStack.FlushRxRing | src/ltran/ltran_forward.c:196-223 | the same, with pkt_buf empty afterwards |
| Forward.GazelleStack.FlushToStack | src/ltran/ltran_forward.c:206-222 | the packets that survive a flush follow what was delivered and backed up before; any are left in the backup only if every buffer that was in the ring before is used |
| Forward.GazelleStack.BackupBufsEnqueRxRing | src/ltran/ltran_forward.c:88-106 | the oldest backed-up packets go to the ring first |
| Forward.GazelleStack.PktBufsEnqueRxRing | src/ltran/ltran_forward.c:132-194 | the first packets of pkt_buf go to the ring, by two loops |
| Forward.GazelleStack.PktbufsMoveToBackupBufs | src/ltran/ltran_forward.c:108-130 | as many packets as fit are appended to the backup, and exactly the rest is dropped |
| Forward.GazelleStack.Conservation | src/ltran/ltran_forward.c:120-122 | arrivals = rx + rx_drop + backup_pkt_cnt + pkt_cnt |
| Forward.GazelleStack.FreePackets | src/ltran/ltran_stack.c:169-181 | on deletion every packet that ever arrived has been freed exactly once |
| Forward.Moved | src/ltran/ltran_forward.c:196-223 | no packet is lost or doubled by a flush, and the order is kept |
| TcpTables.LookupIsTheLiveOne | src/ltran/ltran_tcp_conn.c:130-153 | the table at a key is the only live entry with it |
| TcpTables.DeleteRemovesLive | src/ltran/ltran_tcp_conn.c:155-182 | deletion, which compares keys only, removes what a lookup returns, and else at most a stale entry; other keys are untouched |
| TcpTables.AddKeeps | src/ltran/ltran_tcp_conn.c:86-128 | adding at the head keeps at most one live entry per key, before all stale ones |
| TcpTables.BumpKeeps | src/ltran/ltran_instance.c:145-179 | when a tick moves on, exactly the entries of that slot go off and no stale entry comes alive |
| TcpTables.AgeLookup | src/ltran/ltran_timer.c:118-161 | aging the chain is aging what the key maps to |
| TcpTables.SweepLookup | src/ltran/ltran_timer.c:79-116 | removing entries seen stale changes no lookup, even if ticks move on between the looks |
| TcpTables.RecoverLookup | src/ltran/ltran_tcp_sock.c:95-118 | taking over connections changes their sock only |
| TcpTables.InsertConn | src/ltran/ltran_tcp_conn.c:86-128 | a new entry: map, total and counts |
| TcpTables.DeleteConn | src/ltran/ltran_tcp_conn.c:155-182 | a deletion: map, total and counts |
| TcpTables.AgeTable | src/ltran/ltran_timer.c:118-161 | every key maps to its aged connection |
| TcpTables.SweepTable | src/ltran/ltran_timer.c:79-116 | one chain is swept while ticks move on: every entry that is left was live before, and at the end no key maps to anything else |
| TcpTables.BumpTable | src/ltran/ltran_instance.c:686-698 | logging out removes exactly the connections of the slot from the map |
| TcpTables.LaterTable | src/ltran/ltran_instance.c:145-179 | when any ticks have moved on, a key maps to the same connection if that is still on, and to nothing else |
| TcpTables.LeaveCounted | src/ltran/ltran_timer.c:146-156 | the count that is decremented without a guard is positive |
| TcpTables.FreeCounted | src/ltran/ltran_tcp_sock.c:165-193 | freeing a sock keeps the counts right if and only if no connection points to it |
| TcpTables.FreeManyCounted | src/ltran/ltran_timer.c:44-78 | the same for the scan of the socks |
| TcpTables.RecoverPointing | src/ltran/ltran_tcp_sock.c:95-118 | the recovered count covers the connections that point to the new sock |
| TcpTables.FreeSock | src/ltran/ltran_tcp_sock.c:165-193 | the sock chains hold exactly the socks in memory |
| TcpTablesCode.Tables.Get | src/ltran/ltran_tcp_conn.c:130-153 | the position of what the map holds at the end of the walk, with ticks moving on before each look |
| TcpTablesCode.Tables.Add | src/ltran/ltran_tcp_conn.c:86-128 | the live entry if there is one, else a new one unless the table is full or memory is out |
| TcpTablesCode.Tables.Del | src/ltran/ltran_tcp_conn.c:155-182 | the first entry of the key goes and the total stays exact |
| TcpTablesCode.Tables.TcpHandle | src/ltran/ltran_forward.c:242-282 | a known connection keeps its stack; a new one goes to a listener with no more connections than any that is live at the end, and is counted there; it is refused only without such a listener, room or memory; ticks move on before each load |
| TcpTablesCode.Tables.TcpHashTableAddConn | src/ltran/ltran_forward.c:431-462 | what the map holds for the key afterwards, case by case, with ticks moving on before each load |
| TcpTablesCode.Tables.TcpHashTableDelConn | src/ltran/ltran_forward.c:413-429 | the key is gone, its sock has one less, other keys are untouched, with ticks moving on before each load |
| TcpTablesCode.Tables.SockGetByMinConn | src/ltran/ltran_tcp_sock.c:195-227 | a listener below the limit that was live, with no more connections than any that still is; none only if no live one is below the limit |
| TcpTablesCode.Tables.AgeChain | src/ltran/ltran_timer.c:131-157 | one chain is aged while it is walked |
| TcpTablesCode.Tables.DeleteAgingConn | src/ltran/ltran_timer.c:118-161 | every key maps to its aged connection; counts stay right |
| TcpTablesCode.Tables.DetectConnLogout | src/ltran/ltran_timer.c:79-116 | no lookup changes, and every entry that is left was live at the beginning, with ticks moving on before each look |
| TcpTablesCode.Tables.SockAdd | src/ltran/ltran_tcp_sock.c:121-163 | an existing live sock of the thread, or else a new one that has taken over and counts the connections of its address; none only without room or memory |
| TcpTablesCode.Tables.RecoverSockInfo | src/ltran/ltran_tcp_sock.c:95-118 | it counts the matching connections, which cover those that now point to the sock |
| TcpTablesCode.Tables.SockDel | src/ltran/ltran_tcp_sock.c:165-193 | one sock of the thread is freed; the tables stay right if and only if no connection points to it |
| TcpTablesCode.Tables.DetectSockLogout | src/ltran/ltran_timer.c:44-78 | the socks live at the end are left, and only such as were live before; the tables stay right if and only if no connection points to a freed one |
| TcpTablesCode.Tables.Listen | src/ltran/ltran_forward.c:474-485 | the sock gets the ticks and the stack; what a new one is, and that the map changes by what it takes over only |
| TcpTablesCode.Tables.Bump | src/ltran/ltran_instance.c:697-698 | exactly the connections of the slot leave the map |
| TcpTablesCode.Tables.Serve | src/ltran/ltran_forward.c:464-501 | any sequence of operations, with ticks moving on before any load of a current tick, keeps the map, the totals and the counts, up to the first that frees a sock while a connection points to it |
| TcpTablesCode.DanglingSock | src/ltran/ltran_tcp_sock.c:165-193 | a run in which a stack listens, a packet makes a connection, and the stack stops listening: the connection points to a freed sock |
| VdevCode.Vdev.LtranRxPoll | src/lstack/netif/lstack_vdev.c:48-69 | rx count + rx_ring_used is the capacity at every return, and a refill is never refused |
| VdevCode.Vdev.LtranTxXmit | src/lstack/netif/lstack_vdev.c:115-135 | tx_ring_used is the tx count at every return; all packets are sent or none; what is freed is what the forwarder has released |
| VdevCode.Vdev.TxRound | src/lstack/netif/lstack_vdev.c:121-131 | one round: at most 512 released packets are freed, which is the size of its array, and the counter keeps the ones sent before apart |
| VdevCode.Vdev.FillMbufToRing | src/lstack/core/lstack_dpdk.c:284-309 | it succeeds if and only if the pool and the ring have room for all |
| VdevCode.Vdev.constructor | src/lstack/core/lstack_dpdk.c:255-282 | both rings start with exact counters if and only if the pool can fill the receive ring |

## Left out

- The light ring and the lock-free queue's empty test: easy members beside the ones modelled.
- DPDK, lwip and kernel calls (bursts, mempools, KNI, mmap, sockets): parameters, or values that are copied.
- Weak memory: all accesses are sequentially consistent.
- Widths of integers other than the ring cursors: ticks, loop counters and the same-node counters are unbounded; the declared type of call_num is not part of this model, and its load is modelled both signed and as an unsigned 32-bit word.
- UDP addressing on the send path, MSG_PEEK, latency and other statistics, prefetching.
- Recycling of addresses other than those of packet buffers and of queue nodes.
- What the send path does after a crossing write, beyond the exact condition and the two runs; and the damage that a lossy or crossing write does to the other user of the memory.
- Of a buffer in use elsewhere only lock and allow_in as one flag, link and length are modelled, and that it holds at least a byte; test and store, or link and `last`, are then one step.
- Closing a socket while it is written to (send_ring becoming NULL), and the resetting of its data.
- Kernel events in epoll_wait and events raised by epoll_ctl of another application thread: the latter are added without a wake-up, so the claim is about add_sock_event.
- lstack_poll and the choice of a stack thread for a waiter.
- stack_send for a socket that is gone (it does not touch call_num), and that poll_rpc_msg looks at a message after its handler.
- That data left in the send ring always has a pending stack_send: call_num is counted after the push, and only the one-sided bound holds.
- The socket table as a map of ip, port and thread: adding and deleting compare only the thread id inside a chain.
- Configuration parsing, gazellectl, POSIX wrappers, signal handling and the control socket.
- SendSockCode.SendSock.WriteStackData: starts where no buffer waiting to be filled has been written through the slot, since nothing holds of the chains afterwards.
- RecvPath.RecvSock.ReadStackData: does not model the same-node branch at its start, which is SameNodeRing.ByteRing.Recv.
- InstanceMgrCode.InstanceMgr.HandleInstanceLogout: frees the stacks of the array for every registration state, although an instance that has not come as far as its memory request is not freed, and leaves out detaching memory and unmapping.
- InstanceMgrCode.InstanceMgr.FreeAll: deletes the stack that the array points to, not the first one of its thread; StackTable says when that is the same, and DeletionByThread what follows when it is not.
- InstanceMgrCode.InstanceMgr.ProcAtt: one parameter stands for the ways in which attaching can fail, with the argument count and the memory calls left out.
- EpollWaitCode.Waiter.LstackEpollWait: leaves out the kernel events that are polled beside the list.
- EpollWaitCode.Waiter.WakeupStackEpoll: one node of the wake-up list, not the walk over the nodes of several waiters.
- Throttle.NotifySock.PollRpcMsg: that a pop finds nothing although messages are queued is a parameter; MpscQueue says when that happens.
- VdevCode.Vdev.constructor: leaves out that the creation of a ring may fail.
- VdevCode.Vdev.LtranTxXmit: the time limit and the registration state are a bound on the number of retries.
