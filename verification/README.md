# Verified model of the RT-Thread kernel core

A Dafny model, with proofs, of the parts of this repository that keep state under hard rules:

- the small-memory heap (`mem.c`), on the bytes of memory, with aligned allocation on top;
- the inter-thread communication objects (`ipc.c`, `mempool.c`, the lists of `rtservice.h`): semaphore,
  recursive mutex with priority inheritance, event flags, mailbox, message queue, block pool;
- the formatter of `kservice.c` (`rt_vsnprintf`, `print_number`);
- the worst case stack analysis of `WCS.py`;
- the Base64 codec of `wifi_config.c` (section 4 of RFC 4648).

Run `dafny verify dfyconfig.toml`.

## How it is built

Each component comes twice. A specification module (`HeapBlocks`, `MutexSpec`, `MailboxSpec`, ...) says on plain
values what one operation does; the theorems over all runs and all inputs are proved about it. Beside it stands a
class with the fields of the C structure (or a method with the loop of the source), whose methods are proved to do
exactly what the specification says.

For the communication objects one step is one section with interrupts disabled, and any interleaving of sections is
allowed; sends and receives of the message queue are two sections with the copy between them. The thread layer is an
abstract contract: suspension takes the running thread off the ready list, resumption takes the first waiter off the
wait list, a time-out takes a waiter off its list, a priority change sets the current priority. A thread that was
resumed and has not looked at the object again is kept in a ghost set; "no wakeup is lost" says that as long as
somebody waits, the available units are at most the threads in that set.

The heap's chain of blocks is read off the header bytes: `Describe` ties magic, `used`, `next` and `prev` of every
header to a sequence of blocks; `Kept` says that no byte of a live payload changed.

| file | contents |
|---|---|
| `rtdef.dfy` | shared definitions |
| `heap_memory.dfy`, `heap_chain.dfy` | header bytes in memory, and what writing them does to the chain |
| `heap_blocks.dfy`, `heap_theorems.dfy` | the chain of blocks and its theorems |
| `heap.dfy`, `heap_align.dfy` | `mem.c`; `rt_malloc_align` |
| `rt_list.dfy`, `wait_queue.dfy` | pointer rings; wait queues, turns and coverage |
| `semaphore.dfy`, `mutex.dfy`, `event.dfy`, `mailbox.dfy`, `message_queue.dfy`, `mempool.dfy` | the objects |
| `numerals.dfy`, `format.dfy` | number printing; the formatter |
| `wcs.dfy`, `base64.dfy` | worst case stack; Base64 |

## What the proofs found

- The scan bound of `rt_malloc` is strict, so an exact fit in the last free block is never found (`HeapBlocks.NoFitExactly`).
- Sizes above 0xfffffffc wrap to 0 when rounded up (`HeapTheorems.AlignUpCovers`), and on a heap below 12 payload
  bytes the scan of `rt_malloc` does not end (`HeapTheorems.TinyHeapScanNeverEnds`).
- Releasing nested mutexes in the order they were taken can leave a thread with a borrowed priority for good
  (`MutexInvariant.NestingLeavesBoost`): a release restores the priority at acquisition, borrowed or not
  (`MutexNesting.ReleaseRestoresAcquired`). Giving up last the mutex got first is enough to avoid it
  (`MutexNesting.DisciplineKeepsOwn`).
- Threads waiting for a block of a pool are served last in, first out, unlike on the other objects
  (`MemPoolSpec.RunIsLastInFirstOut`).
- A message queue for messages of more than 65532 bytes gets smaller slots than asked for, because the size is kept
  in 16 bits (`MessageQueue.SlotSizeCovers`).
- `%o` prints hexadecimal digits (`Numerals.OctalReadsBack`), a precision of 0 prints no digits but pads as if it did,
  and for strings the width cuts off as well as pads.
- For unbounded functions the unresolved calls reported by `WCS.py` can be incomplete (`CallGraphSpec.PointerCallLosesCalls`);
  exactly when is `CallGraphSpec.CompleteExactly`.
- `str_base64_decode` looks for padding in the last two characters one by one: a lone `=` before the last one shortens the
  length it returns (`Base64Spec.LonePaddingShortens`); exactly when that length is right is `Base64Spec.DecodedLengthExactly`.
  Only canonical texts survive decoding and encoding again (`Base64Spec.EncodeDecode`).

## Model

| member | source | states |
|---|---|---|
| HeapTheorems.RunKeepsChain | stm32h750-artpi-h750/rt-thread/src/mem.c:156-194 | Over every run of allocations, frees and reallocations the blocks tile the heap from offset 0 to `heap_end` in increasing order and no two neighbours are both free. |
| HeapTheorems.MallocThenFree | stm32h750-artpi-h750/rt-thread/src/mem.c:553-616 | Freeing the block just handed out restores the exact chain of blocks, whether it was split off or taken whole. |
| HeapTheorems.FreeAllCollapses | stm32h750-artpi-h750/rt-thread/src/mem.c:577-615 | Freeing all live blocks, in any order, leaves one free block spanning the heap, with the lowest-free pointer at its start and nothing counted as used. |
| HeapTheorems.PayloadsSeparate | stm32h750-artpi-h750/rt-thread/src/mem.c:389-391 | Payloads are aligned, inside the heap, disjoint from each other and from every header. |
| HeapTheorems.ResizedKeepsChain | stm32h750-artpi-h750/rt-thread/src/mem.c:459-515 | Every branch of a reallocation (unchanged, split in place, moved, no room) keeps the chain invariant. |
| HeapTheorems.ResizedExactly | stm32h750-artpi-h750/rt-thread/src/mem.c:459-515 | Which branch a reallocation takes, and what it leaves: a block of the size asked for stays; one larger by more than 24 bytes is cut in place to exactly that size; any other one moves to the first fit, which becomes used with as much as an allocation hands out while the old block is freed, or stays if nothing fits. |
| HeapBlocks.NoFitExactly | stm32h750-artpi-h750/rt-thread/src/mem.c:304-310 | Allocation fails exactly when every free block that is large enough is the last one and fits exactly: the strict bound of the scan makes an exact fit flush with the heap end unreachable. |
| HeapBlocks.ScanFromLowestFree | stm32h750-artpi-h750/rt-thread/src/mem.c:304-306 | Starting first fit at the lowest free block selects the same block as starting at offset 0. |
| HeapBlocks.AllocatedKeepsChain | stm32h750-artpi-h750/rt-thread/src/mem.c:312-370 | Handing out a block that is large enough, split or whole, keeps the chain invariant. |
| HeapBlocks.AllocatedCharges | stm32h750-artpi-h750/rt-thread/src/mem.c:348-368 | `used_mem` grows by exactly the extent of the block handed out, which has at least the requested payload. |
| HeapBlocks.AllocatedExactly | stm32h750-artpi-h750/rt-thread/src/mem.c:312-370 | How much is handed out: with at least 24 bytes (a header and a minimal payload) to spare exactly the bytes asked for, and what is left becomes a free block up to the old end; otherwise the whole block. No other block changes. |
| HeapBlocks.FreedKeepsChain | stm32h750-artpi-h750/rt-thread/src/mem.c:156-194 | Freeing and merging with both neighbours keeps the chain invariant, and only the freed block stops being live. |
| HeapBlocks.FreedReturns | stm32h750-artpi-h750/rt-thread/src/mem.c:609-611 | `used_mem` shrinks by exactly the extent of the freed block, however its neighbours merge. |
| HeapBlocks.ShrunkKeepsChain | stm32h750-artpi-h750/rt-thread/src/mem.c:471-504 | The splitting branch of realloc keeps the chain invariant and the set of live blocks, even when the kept payload is below the minimum. |
| HeapBlocks.ShrunkReturns | stm32h750-artpi-h750/rt-thread/src/mem.c:474-476 | The splitting branch gives back exactly the bytes it cuts off. |
| HeapTheorems.AlignUpCovers | stm32h750-artpi-h750/rt-thread/src/mem.c:287-299 | Rounding a 32-bit size up covers the request if and only if it does not wrap around. |
| HeapTheorems.RequestIsLeast | stm32h750-artpi-h750/rt-thread/src/mem.c:286-299 | The size looked for is the least multiple of 4 that has room for the request and is at least 12. |
| HeapTheorems.ScanGuardExact | stm32h750-artpi-h750/rt-thread/src/mem.c:304-306 | The 32-bit loop guard means what it says, except on a heap smaller than a minimal payload, where the difference wraps and the guard always holds. |
| HeapTheorems.TinyHeapScanNeverEnds | stm32h750-artpi-h750/rt-thread/src/mem.c:304-306 | On such a tiny heap no block can be accepted and the scan never reaches its bound, so `mem_size_aligned >= MIN_SIZE_ALIGNED` is needed. |
| HeapTheorems.HeapBounds | stm32h750-artpi-h750/rt-thread/src/mem.c:203-227 | The first address and size taken from the bounds: aligned, inside them, wasting less than one alignment unit on each side; none exactly when two headers do not fit or the end is below 28, where the strict comparison refuses even two bare headers at address 0. |
| Heap.SmallMem.constructor | stm32h750-artpi-h750/rt-thread/src/mem.c:203-255 | After initialisation the invariant holds for a single free block, of any size down to none. |
| Heap.SmallMem.Scan | stm32h750-artpi-h750/rt-thread/src/mem.c:304-310 | The loop from `lfree` terminates at the first block from offset 0 that fits, or finds none. |
| Heap.SmallMem.AdvanceLowestFree | stm32h750-artpi-h750/rt-thread/src/mem.c:379-386 | `lfree` becomes the lowest free block again, or `heap_end`. |
| Heap.SmallMem.PlugHoles | stm32h750-artpi-h750/rt-thread/src/mem.c:156-194 | On the bytes of memory: merging forward and backward yields the merged chain, moves `lfree` with it, and touches no live payload. |
| Heap.SmallMem.Malloc | stm32h750-artpi-h750/rt-thread/src/mem.c:271-409 | On the bytes of memory: NULL exactly for size 0, too large a size or no fit, and then nothing changes; otherwise the chain with the first fit handed out, with exactly the bytes asked for unless fewer than 24 would be left over, `used_mem` grown by these and a header, the invariant (headers, `lfree`, `used_mem`, `max_mem`) and every byte of every live payload kept. |
| Heap.SmallMem.Free | stm32h750-artpi-h750/rt-thread/src/mem.c:553-616 | On the bytes of memory: the chain with the block freed and merged, the invariant, and every byte of every other live payload kept; NULL changes nothing. |
| Heap.SmallMem.Realloc | stm32h750-artpi-h750/rt-thread/src/mem.c:421-515 | On the bytes of memory: the first min(old, new) bytes are kept whether the block is split or moved; without room NULL is returned and chain and memory are unchanged; size 0 frees; for NULL it hands out the first fit and returns its address, or NULL and nothing changes; no other live payload changes. |
| Heap.SmallMem.Shrink | stm32h750-artpi-h750/rt-thread/src/mem.c:471-504 | The in-place branch: the tail becomes a free block merged with what follows, counters follow, the kept bytes stay. |
| HeapAlign.MallocAlign | stm32h750-artpi-h750/rt-thread/src/kservice.c:1306-1343 | For a power of two whose padded request covers size and alignment: NULL exactly when the heap has no block for the padded request, and then nothing changes; otherwise the address is a multiple of the alignment, the word below it names the block, word and user range lie inside that block, and the chain is the old one with the first fit for the request handed out. |
| HeapAlign.PaddedCovers | stm32h750-artpi-h750/rt-thread/src/kservice.c:1317-1321 | The 32-bit request covers size and alignment if and only if neither the roundings nor their sum wrap around. |
| HeapAlign.AlignedFreeRestores | stm32h750-artpi-h750/rt-thread/src/kservice.c:1352-1358 | Freeing the block that an aligned allocation took restores the exact chain. |
| HeapAlign.FreeAlign | stm32h750-artpi-h750/rt-thread/src/kservice.c:1352-1358 | Frees exactly the block named below the aligned address and keeps all other live payloads. |
| HeapAlign.UserWrite | stm32h750-artpi-h750/rt-thread/src/kservice.c:1336-1340 | A write by the owner inside the aligned range does not disturb the stored way back. |
| HeapAlign.AlignedInside | stm32h750-artpi-h750/rt-thread/src/kservice.c:1317-1340 | Word and user range fit between the block address and the end of the padded request. |
| RtList.InsertAfter | stm32h750-artpi-h750/rt-thread/include/rtservice.h:58-65 | The ring represents the sequence with the node inserted behind. |
| RtList.InsertBefore | stm32h750-artpi-h750/rt-thread/include/rtservice.h:73-80 | The ring represents the sequence with the node inserted before; before the head is at the end. |
| RtList.Remove | stm32h750-artpi-h750/rt-thread/include/rtservice.h:86-92 | The ring represents the sequence without the node, which becomes a ring of its own. |
| RtList.Len | stm32h750-artpi-h750/rt-thread/include/rtservice.h:107-118 | Terminates with the number of nodes besides the head. |
| RtList.IsEmpty | stm32h750-artpi-h750/rt-thread/include/rtservice.h:98-101 | Empty exactly when the ring holds only its head. |
| RtList.Suspend | stm32h750-artpi-h750/rt-thread/src/ipc.c:109-156 | On the pointers: suspending a thread on a ring is the abstract enqueue of its wait queue, by arrival or by priority. |
| RtList.LinkFirst | stm32h750-artpi-h750/rt-thread/src/mempool.c:345-346 | On the pointers: a thread goes to the front of a wait queue. |
| RtList.Unlink | stm32h750-artpi-h750/rt-thread/include/rtservice.h:86-92 | On the pointers: taking a thread off a ring removes it from the wait queue and keeps the others in place. |
| WaitQueue.EnqueueKeepsSorted | stm32h750-artpi-h750/rt-thread/src/ipc.c:125-146 | Suspension by priority keeps the waiters sorted. |
| WaitQueue.EnqueueIsStable | stm32h750-artpi-h750/rt-thread/src/ipc.c:119-146 | Among waiters of one priority the newcomer is last and the others keep their order. |
| WaitQueue.EnqueueMembers | stm32h750-artpi-h750/rt-thread/src/ipc.c:109-156 | Suspension adds exactly the thread, once. |
| WaitQueue.EnqueuePlace | stm32h750-artpi-h750/rt-thread/src/ipc.c:109-156 | The newcomer stands behind exactly those it has to wait for: all, or with the priority flag those at least as urgent. |
| ParkingTurns.RunServesInTurn | stm32h750-artpi-h750/rt-thread/src/ipc.c:109-189 | Over every run of suspensions, wake-ups, time-outs and flushes, each wake-up resumes the thread whose turn it is: the one that came first, or with the priority flag the first to come of the most urgent ones; and the threads counted as resumed are those that have not looked since. |
| Parking.WakeCovers | stm32h750-artpi-h750/rt-thread/src/ipc.c:178-189 | Making one unit available and resuming the first waiter keeps the units covered by resumed threads that have yet to look. |
| Parking.ParkCovers | stm32h750-artpi-h750/rt-thread/src/ipc.c:2008-2069 | A thread that found nothing and is suspended keeps the coverage. |
| SemaphoreSpec.RunBalanced | stm32h750-artpi-h750/rt-thread/src/ipc.c:467-637 | Over every run units are neither created nor lost, and while the value is positive no thread waits. |
| SemaphoreSpec.TakeAnswers | stm32h750-artpi-h750/rt-thread/src/ipc.c:490-552 | Over every run and for every timeout: a take gets a unit if and only if fewer were taken than there were and were released; otherwise a timeout of 0 gives up and any other one waits. |
| SemaphoreSpec.RunServesInTurn | stm32h750-artpi-h750/rt-thread/src/ipc.c:589-637 | Over every run a release wakes the thread whose turn it is, by arrival or by urgency and then arrival; without waiters it raises the value up to 65535 and then fails. |
| Semaphore.Sem.Take | stm32h750-artpi-h750/rt-thread/src/ipc.c:467-552 | On the pointers of the wait list: take, time out or suspend, as the state machine says. |
| Semaphore.Sem.Release | stm32h750-artpi-h750/rt-thread/src/ipc.c:589-637 | On the pointers of the wait list: the first node is unlinked and its thread gets the unit; only an empty list lets the value rise, and at its maximum the release fails. |
| Semaphore.Sem.TimeOut | stm32h750-artpi-h750/rt-thread/src/ipc.c:521-544 | On the pointers of the wait list: the thread whose timer ran out leaves, wherever it stands. |
| Semaphore.Sem.Reset | stm32h750-artpi-h750/rt-thread/src/ipc.c:655-689 | The loop unlinks all waiters, the value is the 16-bit argument. |
| SemaphoreSpec.RunKeepsOrder | stm32h750-artpi-h750/rt-thread/src/ipc.c:589-622 | With the priority flag the waiters stay sorted over every run, so the unit released goes to a most urgent waiter. |
| MutexInvariant.RunKeepsInv | stm32h750-artpi-h750/rt-thread/src/ipc.c:896-1187 | For any number of threads and mutexes, each thread holding at most one mutex (recursively), over every interleaving: value is 1 iff there is no owner iff hold is 0; waiters imply an owner; hold counts the unreleased takes; the owner is at least as urgent as every waiter, also right after a hand-off; its saved priority is its own; threads holding nothing run at their own priority; waiters stay sorted. |
| MutexInvariant.NoOverflow | stm32h750-artpi-h750/rt-thread/src/ipc.c:944-961 | In no reachable state can a take or release of an enabled thread reach the overflow exits. |
| MutexInvariant.OwnersAreUrgent | stm32h750-artpi-h750/rt-thread/src/ipc.c:981-993 | A waiting thread always waits for a thread that itself waits for nothing and is at least as urgent, so holders cannot deadlock. |
| MutexInvariant.FullReleaseRestores | stm32h750-artpi-h750/rt-thread/src/ipc.c:1120-1128 | The last release puts the thread back to exactly its own priority and gives the mutex away. |
| MutexNesting.ReleaseRestoresAcquired | stm32h750-artpi-h750/rt-thread/src/ipc.c:1120-1143 | For any number of threads holding any mutexes at once, over every run, however the mutex was got (taken or handed over) and even if priorities are changed from outside: the release that gives a mutex away puts the thread back to exactly the priority it had when it became the owner, which is its own if and only if it held no borrowed one then. |
| MutexNesting.DisciplineKeepsOwn | stm32h750-artpi-h750/rt-thread/src/ipc.c:1120-1143 | Over every run in which each thread gives up last the mutex it got first, as releasing in reverse order does, a thread that holds nothing runs at its own priority, however deeply mutexes are nested. |
| MutexNesting.DoAllCoheres | stm32h750-artpi-h750/rt-thread/src/ipc.c:896-1187 | Over every run with arbitrary nesting: value is 1 iff there is no owner iff hold is 0, waiters imply an owner that does not wait for the same mutex, no thread waits twice in a queue, and the saved priority is that of the acquisition. |
| MutexNesting.NeverOverflows | stm32h750-artpi-h750/rt-thread/src/ipc.c:944-961 | The overflow exits are unreachable with arbitrary nesting, too. |
| MutexNesting.TakeAnswers | stm32h750-artpi-h750/rt-thread/src/ipc.c:916-1007 | Over every run with arbitrary nesting and for every timeout: a free mutex is taken at the priority of the thread; its owner takes it up to 255 times; of a mutex owned by another thread a timeout of 0 gives up and changes nothing, any other one waits, and the priority of the owner becomes the more urgent one of the two. |
| MutexNesting.ReleaseAnswers | stm32h750-artpi-h750/rt-thread/src/ipc.c:1095-1180 | Over every run: only the owner releases; all but the last of its takes leave the mutex held; the last one restores the priority and hands the mutex to the first waiter, or leaves it as it was initialised. |
| MutexInvariant.NestingLeavesBoost | stm32h750-artpi-h750/rt-thread/src/ipc.c:1120-1128 | With nested mutexes a thread need not get its own priority back: after a concrete run of five calls it holds nothing and keeps a borrowed one. |
| MutexInvariant.HandOffSettles | stm32h750-artpi-h750/rt-thread/src/ipc.c:1131-1159 | Direct hand-off to the head of the queue re-establishes the whole invariant. |
| MutexInvariant.BlockSettles | stm32h750-artpi-h750/rt-thread/src/ipc.c:981-993 | Blocking lends the newcomer's priority to a less urgent owner and re-establishes the whole invariant. |
| Mutex.Mutex.constructor | stm32h750-artpi-h750/rt-thread/src/ipc.c:725-747 | A fresh mutex is free. |
| Mutex.Mutex.Suspend | stm32h750-artpi-h750/rt-thread/src/ipc.c:125-146 | The walk over the live priorities finds the stable place. |
| Mutex.Mutex.Take | stm32h750-artpi-h750/rt-thread/src/ipc.c:896-1041 | On the fields and the thread table: recursion, acquisition, time-out, boost and suspension as the state machine says, including the full counter and the overflow exit. |
| Mutex.Mutex.Release | stm32h750-artpi-h750/rt-thread/src/ipc.c:1079-1187 | On the fields and the thread table: ownership check, 8-bit hold counter, priority restoration, hand-off or release, including both overflow exits. |
| EventSpec.RunKeepsInv | stm32h750-artpi-h750/rt-thread/src/ipc.c:1429-1719 | In every reachable state no suspended thread's AND/OR condition is met by the event set, and no request is malformed, so the -RT_EINVAL exit of a send is unreachable. |
| EventSpec.DeliverSettles | stm32h750-artpi-h750/rt-thread/src/ipc.c:1449-1508 | Whoever keeps waiting after a send is not satisfied by what remains, whatever was cleared for others. |
| EventSpec.SendWithoutClear | stm32h750-artpi-h750/rt-thread/src/ipc.c:1449-1508 | When nobody asks for clearing, a send wakes exactly those whose condition the new set meets, each receiving its own bits. |
| EventSpec.RunKeepsOrder | stm32h750-artpi-h750/rt-thread/src/ipc.c:1429-1719 | With the priority flag the waiters stay sorted over every run, though a send and a time-out take them out of the middle. |
| EventSpec.SendWithClear | stm32h750-artpi-h750/rt-thread/src/ipc.c:1461-1508 | When everybody asks for clearing, each bit of the set goes to exactly one waiter or stays in the set. |
| EventSpec.RecvAnswers | stm32h750-artpi-h750/rt-thread/src/ipc.c:1579-1665 | Bit by bit: an AND receive gets an answer if and only if every bit wanted is set, an OR receive if and only if some bit wanted is; it gets exactly the bits wanted that were set, and clears those wanted only if it asks for it; otherwise a timeout of 0 gives up and any other one waits in its place. |
| EventSpec.DeliverInTurn | stm32h750-artpi-h750/rt-thread/src/ipc.c:1461-1508 | Bit by bit: each waiter in list order is judged, as AND or OR, by what those before it have left, receives exactly its bits of that, and leaves the rest to those behind it. |
| EventSpec.RunLeavesUnmet | stm32h750-artpi-h750/rt-thread/src/ipc.c:1429-1665 | Bit by bit, in every reachable state: a thread waiting for all its bits lacks one of them, a thread waiting for any lacks all of them. |
| Event.Event.Send | stm32h750-artpi-h750/rt-thread/src/ipc.c:1429-1518 | On the pointers of the wait list: the walk, which moves on before a thread is unlinked, with its own case distinction, equals OR-ing the bits in and letting every waiter poll in list order: same received bits, same remaining set, same waiters left. |
| Event.Event.Turn | stm32h750-artpi-h750/rt-thread/src/ipc.c:1461-1506 | One turn of that walk: a satisfied thread leaves the ring with the bits it received in its event_set. |
| Event.Event.Recv | stm32h750-artpi-h750/rt-thread/src/ipc.c:1554-1673 | On the pointers of the wait list: poll, time out or suspend; what is received, what is cleared, and that the list gains the thread exactly when it is suspended. |
| Event.Event.Reset | stm32h750-artpi-h750/rt-thread/src/ipc.c:1691-1719 | The loop unlinks all waiters, the set is empty. |
| Event.Event.TimeOut | stm32h750-artpi-h750/rt-thread/src/ipc.c:1634-1656 | On the pointers of the wait list: the thread whose timer ran out leaves, wherever it stands. |
| MailboxSpec.RunKeepsInv | stm32h750-artpi-h750/rt-thread/src/ipc.c:1979-2351 | Over every interleaving of sends, urgent sends, receives, time-outs and resets no wakeup is lost, for receivers and for senders, and the box never holds more than its size. |
| MailboxSpec.RunConserves | stm32h750-artpi-h750/rt-thread/src/ipc.c:2071-2087 | Delivered mails and those in the box are, with multiplicity, the accepted ones. |
| MailboxSpec.RunIsFifo | stm32h750-artpi-h750/rt-thread/src/ipc.c:2317-2329 | Without urgent mails delivery is first in, first out. |
| MailboxSpec.StepMoves | stm32h750-artpi-h750/rt-thread/src/ipc.c:2150-2183 | Per kind of section: a send with room accepts its own value at the back, an urgent send at the front, a receive takes the first mail off, a reset empties, and nothing else touches mails. |
| MailboxSpec.RunAnswers | stm32h750-artpi-h750/rt-thread/src/ipc.c:2011-2183 | Over every run and for every timeout: a send is accepted if and only if fewer mails than the size are accepted and not delivered, a receive gets one if and only if there are any; otherwise a timeout of 0 gives up and any other one waits in its place, but an urgent send always answers. |
| MailboxSpec.ResetClears | stm32h750-artpi-h750/rt-thread/src/ipc.c:2370-2402 | After a reset nobody waits, nothing can be received, and a send is accepted unless the size is 0. |
| MailboxSpec.RunKeepsOrder | stm32h750-artpi-h750/rt-thread/src/ipc.c:1979-2351 | With the priority flag both wait queues stay sorted over every run. |
| Mailbox.Mailbox.constructor | stm32h750-artpi-h750/rt-thread/src/ipc.c:1768-1797 | A fresh mailbox is empty and has the given size modulo 2^16: `rt_mb_init` keeps it in 16 bits. |
| Mailbox.Mailbox.Send | stm32h750-artpi-h750/rt-thread/src/ipc.c:1979-2105 | The ring write refines appending to the sequence of mails; a full box answers or suspends; the first receiver is resumed; the overflow exit after the write is not taken. |
| Mailbox.Mailbox.Urgent | stm32h750-artpi-h750/rt-thread/src/ipc.c:2150-2205 | The ring write before the front refines prepending. |
| Mailbox.Mailbox.Recv | stm32h750-artpi-h750/rt-thread/src/ipc.c:2224-2351 | The ring read refines taking the first mail; an empty box answers or suspends; the first sender is resumed. |
| Mailbox.Mailbox.Reset | stm32h750-artpi-h750/rt-thread/src/ipc.c:2370-2402 | Empties the box and sends all waiters away. |
| Mailbox.Mailbox.OffsetsAgree | stm32h750-artpi-h750/rt-thread/src/ipc.c:2071-2083 | `in_offset` is `out_offset + entry` modulo the size in every valid state. |
| MessageQueueSpec.RunKeepsInv | stm32h750-artpi-h750/rt-thread/src/ipc.c:2726-3183 | Over every interleaving of the two-step sends, urgent sends and receives, time-outs and resets, each slot is in exactly one place (queued, free, being filled, being read) and no wakeup is lost on either side. |
| MessageQueueSpec.QueueHasRoom | stm32h750-artpi-h750/rt-thread/src/ipc.c:2856-2865 | A slot in the hands of a thread leaves room in the queue, so the -RT_EFULL exits after linking are unreachable. |
| MessageQueueSpec.RunDelivers | stm32h750-artpi-h750/rt-thread/src/ipc.c:2830-2865 | From the sender's buffer on: over every run the messages passed by senders are neither lost nor duplicated, leave in linking order unless an urgent one was put first, and every filled, queued or outgoing slot begins with the message it stands for, although copies happen with interrupts enabled. |
| MessageQueueSpec.FillDisturbsNothing | stm32h750-artpi-h750/rt-thread/src/ipc.c:2836-2839 | A copy into a slot being filled changes neither queued nor outgoing messages nor those of other senders. |
| MessageQueueSpec.StepMoves | stm32h750-artpi-h750/rt-thread/src/ipc.c:2841-2865 | Per kind of section, on what the queued slots hold: linking puts the slot at the back, urgent linking at the front, a receive takes the first one off, a reset empties, and nothing else, not even a copy, changes it. |
| MessageQueueSpec.CopiedMessage | stm32h750-artpi-h750/rt-thread/src/ipc.c:3153-3154 | What a receiver copies out, at any time while the slot is its own, begins with the message that was passed to the send, as far as its buffer goes, and never exceeds the buffer. |
| MessageQueueSpec.SendAnswers | stm32h750-artpi-h750/rt-thread/src/ipc.c:2742-2834 | Over every run, every timeout, for normal and urgent sends: a message is refused if and only if it is longer than `msg_size`; one that is not gets a slot that is nobody else's if and only if not all slots are queued or in the hands of threads; otherwise a timeout of 0 gives up and any other one waits in its place, but an urgent send always answers. |
| MessageQueueSpec.RecvAnswers | stm32h750-artpi-h750/rt-thread/src/ipc.c:3060-3130 | Over every run and for every timeout: a receive gets the first slot if and only if one is queued; otherwise a timeout of 0 gives up and any other one waits in its place. |
| MessageQueueSpec.FreedIsNext | stm32h750-artpi-h750/rt-thread/src/ipc.c:3160-3165 | The slot a receiver gives back is the next one a sender gets. |
| MessageQueueSpec.ResetClears | stm32h750-artpi-h750/rt-thread/src/ipc.c:3201-3249 | After a reset nobody waits, nothing is queued, and all slots but those in the hands of threads are free. |
| MessageQueueSpec.RunKeepsOrder | stm32h750-artpi-h750/rt-thread/src/ipc.c:2726-3183 | With the priority flag both wait queues stay sorted over every run. |
| MessageQueue.MessageQueue.constructor | stm32h750-artpi-h750/rt-thread/src/ipc.c:2463-2513 | Slot size and number of slots are computed from the message and pool sizes in 16-bit fields, and all slots are threaded onto the free list. |
| MessageQueue.SlotSizeCovers | stm32h750-artpi-h750/rt-thread/src/ipc.c:2488-2489 | A slot has room for a message of the size asked for if and only if that size, rounded up, fits 16 bits; it wastes at most three bytes. |
| MessageQueue.SlotsApart | stm32h750-artpi-h750/rt-thread/src/ipc.c:2488-2502 | Slots with their headers do not overlap and lie inside the pool. |
| MessageQueue.CountExactly | stm32h750-artpi-h750/rt-thread/src/ipc.c:2488-2489 | The slots are as many as fit into the pool, unless that number exceeds 16 bits. |
| MessageQueue.MessageQueue.SendBegin | stm32h750-artpi-h750/rt-thread/src/ipc.c:2726-2834 | Take a slot off the free list, or answer or suspend. |
| MessageQueue.MessageQueue.Fill | stm32h750-artpi-h750/rt-thread/src/ipc.c:2836-2839 | Clearing the link and copying the message touch only the slot in hand. |
| MessageQueue.MessageQueue.SendLink | stm32h750-artpi-h750/rt-thread/src/ipc.c:2841-2884 | Linking at the tail refines appending; the first receiver is resumed. |
| MessageQueue.MessageQueue.UrgentBegin | stm32h750-artpi-h750/rt-thread/src/ipc.c:2935-2969 | Take a slot off the free list or fail. |
| MessageQueue.MessageQueue.UrgentLink | stm32h750-artpi-h750/rt-thread/src/ipc.c:2974-3013 | Linking at the head refines prepending, also into an empty queue. |
| MessageQueue.MessageQueue.RecvBegin | stm32h750-artpi-h750/rt-thread/src/ipc.c:3036-3151 | Taking the head off refines popping; the tail pointer is reset with the last message; an empty queue answers or suspends. |
| MessageQueue.MessageQueue.CopyOut | stm32h750-artpi-h750/rt-thread/src/ipc.c:3153-3154 | The receiver gets the first min(size, msg_size) bytes of the slot, and nothing changes. |
| MessageQueue.MessageQueue.RecvEnd | stm32h750-artpi-h750/rt-thread/src/ipc.c:3156-3183 | The slot returns to the free list and the first sender is resumed. |
| MessageQueue.MessageQueue.Reset | stm32h750-artpi-h750/rt-thread/src/ipc.c:3201-3249 | All queued slots return to the free list one by one, all waiters leave. |
| MemPoolSpec.RunKeepsInv | stm32h750-artpi-h750/rt-thread/src/mempool.c:311-457 | Over every run every block is either free, once, or handed out, and no wakeup is lost. |
| MemPoolSpec.RunIsLastInFirstOut | stm32h750-artpi-h750/rt-thread/src/mempool.c:345-346 | Over every run the wait queue is the reverse of the order in which the waiting threads came; a free resumes the one that came last, and the one that has waited longest if and only if nobody else waits. |
| MemPoolSpec.LaterIsResumed | stm32h750-artpi-h750/rt-thread/src/mempool.c:345-346 | A concrete run: of two threads waiting for the one block of a pool the later one is resumed. |
| MemPoolSpec.RunAnswers | stm32h750-artpi-h750/rt-thread/src/mempool.c:327-398 | Over every run and for every timeout: an allocation gets a block if and only if not all of them are handed out; otherwise a timeout of 0 gives up and any other one waits; a block just given back is the next one handed out. |
| MemPoolSpec.CountExactly | stm32h750-artpi-h750/rt-thread/src/mempool.c:101-109 | The pool has as many blocks as fit into its memory with their headers. |
| MemPoolSpec.PayloadsDisjoint | stm32h750-artpi-h750/rt-thread/src/mempool.c:101-123 | Payloads of different blocks are disjoint, also from headers, and inside the pool's memory; they have room for the size asked for if and only if rounding it up does not wrap around. |
| MemPool.MemPool.constructor | stm32h750-artpi-h750/rt-thread/src/mempool.c:81-128 | All blocks are threaded onto an acyclic free list as long as the counter says. |
| MemPoolSpec.LastLinkInside | stm32h750-artpi-h750/rt-thread/src/mempool.c:122-123 | The link that ends the free list is written inside the pool if and only if the pool has room for a block. |
| MemPool.MemPool.Alloc | stm32h750-artpi-h750/rt-thread/src/mempool.c:327-398 | On the link words and on the pointers of the wait list: the first free block is handed out with its header naming the pool; an empty pool answers or suspends the thread, whose node then stands right behind the head of the list. |
| MemPool.MemPool.Free | stm32h750-artpi-h750/rt-thread/src/mempool.c:407-457 | On the link words and on the pointers of the wait list: the block becomes the first free one and the node behind the head, if any, is unlinked and its thread resumed. |
| MemPool.MemPool.TimeOut | stm32h750-artpi-h750/rt-thread/src/mempool.c:345-377 | On the pointers of the wait list: the thread whose timer ran out leaves, wherever it stands; the free list is untouched. |
| Formatter.VsnPrintf | stm32h750-artpi-h750/rt-thread/src/kservice.c:845-1108 | For every format and argument list: the value returned is the length of the full output, whatever the size; the buffer gets its longest prefix that fits with the NUL; no other byte of memory changes; a buffer running past the last address is cut there. |
| Formatter.FilledIs | stm32h750-artpi-h750/rt-thread/src/kservice.c:1095-1108 | What is in memory afterwards, character by character: the longest beginning of the text that leaves room for a NUL, the NUL, and everything else as before. |
| Formatter.Sink.PrintNumber | stm32h750-artpi-h750/rt-thread/src/kservice.c:661-830 | The loops print the closed form of padding, sign, zeros and digits, for every combination of flags, width and precision. |
| Formatter.Sink.CutDigits | stm32h750-artpi-h750/rt-thread/src/kservice.c:731-738 | The digits fall off in reverse order and never overrun the 16-character buffer. |
| Formatter.Sink.PrintString | stm32h750-artpi-h750/rt-thread/src/kservice.c:981-1011 | Width limits the string as precision does; a precision of 0 limits nothing. |
| Formatter.Sink.Pad | stm32h750-artpi-h750/rt-thread/src/kservice.c:753-758 | A `while (size-- > 0)` loop prints that many characters and leaves the counter below zero. |
| Formatter.ParseDirective | stm32h750-artpi-h750/rt-thread/src/kservice.c:888-951 | The pointer walk reads flags, width, precision and qualifier as specified. |
| FormatSpec.StringLength | stm32h750-artpi-h750/rt-thread/src/kservice.c:985-988 | How many characters of a string are printed: the least of its length, the width if there is one, and the precision if it is positive. |
| FormatSpec.DirectiveReadsBack | stm32h750-artpi-h750/rt-thread/src/kservice.c:888-951 | Any flags, width, precision, qualifier and conversion are read back as they were written in a format. |
| FormatSpec.IntegerRoundTrip | stm32h750-artpi-h750/rt-thread/src/kservice.c:1034-1093 | From format and argument to text and back, for every integer directive: the text reads, in the base of the directive, as what the word means (a signed number for `d` and `i`, an unsigned one for `u`, `x`, `X`, `o`, of 32 bits or with `h` of 16) if and only if the precision is not 0 or the value is 0, and for octal only if the value is below 8. |
| FormatSpec.IntegerLayout | stm32h750-artpi-h750/rt-thread/src/kservice.c:1034-1093 | A sign for `d` and `i` alone, `-` for negative numbers, otherwise `+` or else a blank by the flags; then digits, with upper case letters for `X` alone; a width only pads this, with blanks behind for `-`, else with zeros behind the sign for `0`, else with blanks before. |
| FormatSpec.TextLayout | stm32h750-artpi-h750/rt-thread/src/kservice.c:957-1011 | A character directive prints the low byte of its argument, a string directive what width and precision leave of the string; both are padded with blanks up to the width, behind for `-`, otherwise before. |
| FormatSpec.PointerRoundTrip | stm32h750-artpi-h750/rt-thread/src/kservice.c:1013-1029 | A pointer reads back in base 16 as its word, except with precision 0. |
| FormatSpec.PointerLayout | stm32h750-artpi-h750/rt-thread/src/kservice.c:1013-1029 | Without width and precision a pointer takes eight characters, which without `-` are lower case digits. |
| FormatSpec.FormatIsPiecewise | stm32h750-artpi-h750/rt-thread/src/kservice.c:870-1093 | A format prints its directives one after the other, each its own argument; `%%` and unknown conversions use up none. |
| FormatSpec.TextIsLiteral | stm32h750-artpi-h750/rt-thread/src/kservice.c:870-878 | Text between directives is printed as it is. |
| FormatSpec.FormatEnds | stm32h750-artpi-h750/rt-thread/src/kservice.c:1060-1075 | A NUL ends the format; a format that ends within a directive prints its `%`. |
| FormatSpec.FlagReads | stm32h750-artpi-h750/rt-thread/src/kservice.c:880-895 | Flags come in any order and number, each sets its own, `#` sets none. |
| FormatSpec.StarReads | stm32h750-artpi-h750/rt-thread/src/kservice.c:897-935 | A `*` takes the next argument: a negative width means left justification and its size, a negative precision means 0. |
| FormatSpec.DotReads | stm32h750-artpi-h750/rt-thread/src/kservice.c:920-935 | A lone dot means precision 0. |
| Numerals.NumberReadsBack | stm32h750-artpi-h750/rt-thread/src/kservice.c:661-830 | The printed text reads back as the number, for bases 10 and 16 and all flags and widths, if and only if the precision is not 0 or the number is 0. |
| Numerals.NumberLength | stm32h750-artpi-h750/rt-thread/src/kservice.c:740-829 | The length is max(width, sign + max(digits, precision)); with precision 0 the digits count for the padding but are not printed. |
| Numerals.NumeralFits | stm32h750-artpi-h750/rt-thread/src/kservice.c:685-690 | A 32-bit number has at most ten digits. |
| Numerals.OctalReadsBack | stm32h750-artpi-h750/rt-thread/src/kservice.c:623-640 | A conversion to octal divides by 16: what is printed, with any flags and width, reads back in octal if and only if the number has a single octal digit (with precision 0: is 0). |
| WorstCaseStack.Analysis.CalcAllWcs | stm32h750-artpi-h750/rt-thread/tools/WCS.py:292-299 | For every call graph and any visiting order: a function is unbounded iff a call chain from it reaches a pointer call or repeats a function; otherwise its result is the maximum over its call chains of the summed local stacks, and its unresolved calls are those of all functions it can reach. The unresolved calls of an unbounded function are its own and, unless it makes a pointer call, those of all functions reachable through the callees that stand before its first unbounded one. |
| WorstCaseStack.Analysis.CalcWcs | stm32h750-artpi-h750/rt-thread/tools/WCS.py:246-290 | The recursion terminates, keeps all earlier results, and gives up on everything above a function it comes back to. |
| CallGraphSpec.UnboundedThroughCallee | stm32h750-artpi-h750/rt-thread/tools/WCS.py:259-281 | A function without a pointer call of its own is unbounded only through a callee, even if the cycle runs through the function itself. |
| CallGraphSpec.BackEdge | stm32h750-artpi-h750/rt-thread/tools/WCS.py:264-267 | Coming back to a function under examination proves it unbounded. |
| SearchState.ComeBack | stm32h750-artpi-h750/rt-thread/tools/WCS.py:264-267 | A function to which the search comes back has by then collected exactly the unresolved calls of the callees before its first unbounded one, although its own loop has not ended. |
| CallGraphSpec.DeepestThroughCallees | stm32h750-artpi-h750/rt-thread/tools/WCS.py:269-290 | The deepest chain of a function is its own stack on top of its deepest callee's. |
| CallGraphSpec.RightIsUnique | stm32h750-artpi-h750/rt-thread/tools/WCS.py:292-299 | What is found, stack and unresolved calls alike, does not depend on the visiting order. |
| CallGraphSpec.CompleteExactly | stm32h750-artpi-h750/rt-thread/tools/WCS.py:259-281 | The unresolved calls of an unbounded function are all that it needs if and only if every name that one of its callees needs is its own or needed by a callee before the first unbounded one (with a pointer call: its own). |
| CallGraphSpec.PointerCallLosesCalls | stm32h750-artpi-h750/rt-thread/tools/WCS.py:259-262 | A concrete graph in which the unresolved calls of an unbounded function are incomplete. |
| SearchState.LeafRight | stm32h750-artpi-h750/rt-thread/tools/WCS.py:193-200 | A stack given by hand is what the search would find for a leaf. |
| CallResolution.Analyse | stm32h750-artpi-h750/rt-thread/tools/WCS.py:420-424 | Resolution followed by the search gives a right result for every function read. |
| CallResolution.ResolveAllCalls | stm32h750-artpi-h750/rt-thread/tools/WCS.py:223-242 | Every called name is resolved to the global, else the local function of that name, or recorded as unresolved, and nothing else is. |
| CallResolution.CallsNearest | stm32h750-artpi-h750/rt-thread/tools/WCS.py:84-99 | A call is of the global function of that name if there is one, else of the one local to the unit, else it is unresolved; there are no other calls. |
| Base64Spec.DecodeEncode | stm32h750-artpi-h750/board/port/wifi_config.c:68-145 | Decoding undoes encoding for every non-empty sequence of bytes, with the right length. |
| Base64Spec.EncodeDecode | stm32h750-artpi-h750/board/port/wifi_config.c:68-145 | Encoding undoes decoding if and only if the text is canonical: groups of table characters, padding only in the last, cut-off bits zero. |
| Base64Spec.TablesAgree | stm32h750-artpi-h750/board/port/wifi_config.c:42-62 | Both tables are that of RFC 4648; every other character reads as 0. |
| Base64Spec.EncodesBits | stm32h750-artpi-h750/board/port/wifi_config.c:68-110 | Every group of an encoding is, as a number of four digits of base 64, the number its three bytes are in base 256; in a last group of one or two bytes zero bits and padding follow. |
| Base64Spec.DecodesBits | stm32h750-artpi-h750/board/port/wifi_config.c:112-145 | Every byte of a decoding, of whatever text, is its part of the number that its group is; a text not made of groups decodes to nothing. |
| Base64Spec.EncodedLength | stm32h750-artpi-h750/board/port/wifi_config.c:68-110 | Four characters for every three bytes begun. |
| Base64Spec.BufferFits | stm32h750-artpi-h750/board/port/wifi_config.c:181-204 | Text and NUL fit into `len * 4 / 3 + 4` bytes, and need all of them exactly when one byte is left over. |
| Base64Spec.DecodedLengthExactly | stm32h750-artpi-h750/board/port/wifi_config.c:118-125 | The length returned is that of the bytes the groups carry if and only if the last but one character, where it is padding, is followed by padding and not preceded by it. |
| Base64.Encode | stm32h750-artpi-h750/board/port/wifi_config.c:68-110 | The loop writes exactly the encoding and its NUL and nothing behind it. |
| Base64.Decode | stm32h750-artpi-h750/board/port/wifi_config.c:112-145 | The loop writes exactly the decoded bytes and nothing behind them; a length that is not a multiple of 4 yields 0. |
| Base64.WriteCfg | stm32h750-artpi-h750/board/port/wifi_config.c:181-204 | The buffer allocated for the configuration is long enough. |

## Left out

- Hardware drivers, board ports, `main.c`, `mpu_port.c`: register plumbing over code that is not part of this model.
- Hooks, debug output, memory tracing, object names and registry, signals, SMP.
- Creation, deletion and detaching of communication objects; only initialisation is modelled.
- Thread, scheduler and timer internals: replaced by the contract above. The rest of a timeout after a wakeup is a parameter of the next section, not computed from ticks.
- The heap's own semaphore: calls of the heap are atomic in the model.
- Semaphore, event and block pool are proved on the pointers of their wait lists; in the classes of mutex, mailbox and message queue the wait lists are sequences, refined by the rings of `RtList`.
- `heap_end->prev`, which is never maintained or read, and the word and byte loops of `rt_memcpy`, modelled as one loop over bytes.
- Heap.SmallMem.Malloc: called only when it terminates; with less than 12 payload bytes a request that passes the size check makes the scan loop for ever (`HeapTheorems.TinyHeapScanNeverEnds`).
- HeapAlign.MallocAlign: called only when the 32-bit request covers size and alignment (`HeapAlign.PaddedCovers` says exactly when); otherwise the source may store its pointer outside the block.
- MutexInvariant.RunKeepsInv: that owners are at least as urgent as their waiters is for threads that hold at most one mutex at a time; the source neither boosts transitively nor re-sorts waiters. What holds with nesting is in `MutexNesting`.
- Event sets are sets of the 32 bit numbers; `rt_uint32_t` operations are the set operations.
- MemPool.MemPool.constructor: for at least one block; with none the source writes a link outside the pool (`MemPoolSpec.LastLinkInside`).
- MemPool.MemPool.Free: for blocks the pool has handed out, as the header word of any other address is not defined.
- Formatter.VsnPrintf: output that would carry the write pointer past the last address, widths and precisions beyond 31 bits, and the variants for `long long` and `#` are not modelled; an argument beyond the list reads as zero.
- FormatSpec.DirectiveReadsBack: a width of 0 cannot be written without being read as a flag.
- WorstCaseStack.Analysis.CalcAllWcs: functions are compared by identity; reading the compiler's files, and printing, are left out.
- Base64.WriteCfg: `len * 4` overflows a 32-bit `int` from 2^29 bytes on; the model does not.
- Base64.Decode: not for the empty text, where the source reads in front of its buffer.
- `rt_calloc`, `rt_memory_info`, clock conversions, device table, idle hooks, string helpers: easy members.
