# RT-Thread kernel core, allocators and JSON codec

This project models the single-processor kernel core of RT-Thread 4.0.3, its three
allocators and the bundled cJSON text codec, and proves what they promise.

Code that works in place is modelled in place: a C structure whose fields are assigned is
a class with those fields, a list node's links are maps from node to node, a buffer is an
array, and a loop is a loop with its invariants. Each method performs the assignments of
one C function, or of one of its sections with interrupts disabled, and is proved against
a function or a value that says what it computes. The promises are then proved about those
values: what every step keeps, what holds over every run, what a transformation preserves.

## Files

| file | content |
|---|---|
| `Rings.dfy`, `Lists.dfy`, `Chains.dfy`, `Ordered.dfy` | circular and NULL-terminated lists at pointer level, queues sorted with ties in arrival order |
| `ReadyBitmap.dfy`, `Kernel.dfy` | `__rt_ffs`, the one-word and two-level ready index, the scheduler, thread states, the suspend-list helpers of `ipc.c` |
| `Waiting.dfy`, `Mutex.dfy`, `Semaphore.dfy`, `Event.dfy`, `Mailbox.dfy`, `MessageQueue.dfy`, `MemPool.dfy` | blocking objects: a value-level state machine with theorems over its runs, and a class whose methods make exactly its steps on the kernel's lists |
| `TimerList.dfy` | the skip list of timers over wrapping ticks |
| `Blocks.dfy`, `MemHeap.dfy`, `SmallMem.dfy` | tilings of a pool by blocks with headers, `memheap.c`, `mem.c` |
| `Pages.dfy`, `SlabSizes.dfy`, `Slab.dfy`, `SlabHeap.dfy` | page runs, size classes, zones, and the slab allocator over both |
| `JsonStrings.dfy`, `Json.dfy`, `JsonTexts.dfy`, `JsonLayout.dfy` | cJSON: what the code computes of texts and trees, the texts of RFC 8259 as trees of tokens, and what parsing, printing and minifying make of them |
| `JsonParser.dfy`, `JsonPrinter.dfy`, `PowerOfTwo.dfy`, `Words.dfy` | the C functions on buffers |

## Main results

* Every kernel section keeps each READY thread in exactly the queue of its priority, the
  running thread in none, each suspended one in at most one list, and the ready index in
  agreement with the queues. `rt_thread_delete` and `rt_thread_resume` consist of several
  sections; `Kernel.Kernel.Withdraw`, `BurySafe` and `RequeueSafe` say exactly when each of
  them is safe, and `DeleteGap` gives the input for which deleting with interrupts enabled is not.
* `rt_schedule` replaces a running thread exactly when a ready thread is more urgent, or as
  urgent while its slice is over, and leaves one that no ready thread outranks; an expired
  slice means round robin among equals.
* The priority-ordered mutex is free of priority inversion in every reachable state, and
  every priority is back when it is free. Its hold count is the owner's takes less its
  releases, and only the release that brings it to 0 ends the ownership. With
  first-in-first-out waiting the handoff avoids inversion exactly under the condition of
  `FifoHandoff`; `FifoInverts` and `HoldWraps` are runs in which these promises are lost.
* No wake-up is lost at mailboxes, message queues and memory pools, over all interleavings
  with timeouts and resets. For these and for semaphores the history of calls and answers
  decides the next answer (`NextAnswer`): mails and messages are neither lost nor doubled,
  come in the order they were sent or linked, with urgent ones where `DeliveryOrder` says, and
  a call is refused or waits exactly when nothing is there for it.
* In one event send, bits cleared for one waiter reach no later one, each resumed waiter
  reports exactly the bits that satisfied it, and nobody is left waiting on a condition that
  holds.
* Both block allocators keep their pool tiled and fully merged, with exact byte counts, and
  `rt_realloc` keeps the old content and all other blocks. `rt_memheap_realloc` does so for
  every size except those `Spoils` names, on which it ruins the pool.
* A slab request fails exactly when no chunk, no spare zone and no run of pages serves it;
  slab blocks never overlap, the page map leads every chunk back to its zone, the counters
  of every zone agree with its chunks, and the free list of pages depends only on what is
  still out.
* A timer is placed exactly where a linear scan would place it, whatever the number of rows,
  and a check fires exactly the due timers, in order, restarts exactly the periodic ones not
  stopped meanwhile, and leaves those no timeout function touches as they were. Start and stop consist of several
  sections; `InsertSafe` and `ClearFlag` say exactly when each is safe.
* The parser accepts every text of RFC 8259 with its meaning, and `JsonTexts.TextTaken` says
  exactly what it accepts beyond. Parsing a printed tree gives the tree. Minifying leaves
  exactly the tokens of a text, so of the formatted text the unformatted one. Buffered and
  unbuffered printing agree as far as the buffer can grow, and it is said exactly how far;
  the loops of the parser, the printers and the in-place minifier compute exactly that.

## Where the code does not do what its comments or names say

* `mem.c:305-307`: a free block that fits exactly in the last place is passed over
  (`SmallMem.PassedOver`, and `WholeHeapRefused` for an input).
* `memheap.c:350`: the sum in the test for room can wrap (`Spoils`, `OverrunExample`).
* `slab.c:631-636` announces power-of-two alignment for power-of-two chunks; beyond the
  size of a page it is not given (`SlabSizes.ChunkUnaligned`).
* `thread.c:434-468`: deleting a READY thread leaves it READY in no queue for a moment
  (`Kernel.DeleteGap`).
* `ipc.c:842-861`: with RT_IPC_FLAG_FIFO, priority inheritance ends at the handoff
  (`Mutexes.FifoInverts`).
* `cJSON.c:124`: `pow2gt` is negative exactly beyond 2^30 (`PowerOfTwo.Pow2gtSign`, and
  `Pow2gtOverflows` for the first input); buffered printing then fails, as
  `JsonPrinter.PrintBuffered` says.
* `cJSON.c:223-233`: \u0000 and halves of surrogate pairs without their other half stand for
  nothing (`JsonStrings.LiteralMeans`); elsewhere the parser takes more than RFC 8259 allows
  (`JsonTexts.TextTaken`).
* `cJSON.c:752`: the end mark of a comment may share its star with the opening one
  (`JsonLayout.OddComment`, and `OddExample` for an input).
* `timer.c:318-338`: a timeout function that starts the same timer between the two sections
  of `rt_timer_start` makes the second one link it twice (`Timers.InsertSafe`, `StartGap`).
* `timer.c:439-453`: a start behind the section of `rt_timer_stop` leaves a listed timer
  inactive (`Timers.TimerList.ClearFlag`).

## Model

| member | source | states |
|---|---|---|
| `MemHeap.RequestCovers` | Rt-thread AT32/Rt-thread/src/memheap.c:147-150 | A request is rounded to a multiple of 4 that covers it, for every size a 32-bit `rt_size_t` can hold except the three above 2^32 - 4, where `RT_ALIGN` wraps and 12 bytes are granted. |
| `MemHeap.RequestIdempotent` | Rt-thread AT32/Rt-thread/src/memheap.c:300-307 | Rounding a rounded size changes nothing, so the sizes `rt_memheap_realloc` hands on to `rt_memheap_alloc` are granted as they are. |
| `MemHeap.Pool.constructor` | Rt-thread AT32/Rt-thread/src/memheap.c:50-121 | The new pool is one free block and the used tailer; nothing is allocated, and available and peak counts are those of the two headers. |
| `MemHeap.Pool.Search` | Rt-thread AT32/Rt-thread/src/memheap.c:169-183 | The walk stops at the first block of the free list that is long enough, or tells that none is. |
| `MemHeap.ShapeCarve` | Rt-thread AT32/Rt-thread/src/memheap.c:188-236 | Handing out the front of free block k and listing the rest keeps the tiling, the absence of free neighbours, the exactness of the free list and the byte count, which drops by the block and one header. |
| `MemHeap.ShapeTake` | Rt-thread AT32/Rt-thread/src/memheap.c:237-258 | Handing out a whole free block keeps the same four properties. |
| `MemHeap.Pool.Split` | Rt-thread AT32/Rt-thread/src/memheap.c:190-236 | The in-place writes of a split keep both circular lists linked and leave exactly the new block list, free list, flags, count and peak. |
| `MemHeap.Pool.Alloc` | Rt-thread AT32/Rt-thread/src/memheap.c:138-281 | NULL with nothing changed exactly when the size reaches the available count or no free block is long enough; otherwise the first long enough block of the free list, cut exactly when the rest can hold a block. Every other allocated block keeps its place and its bytes, and the peak count is the running maximum. |
| `MemHeap.ShapeRelease` | Rt-thread AT32/Rt-thread/src/memheap.c:535-591 | Releasing a block and merging it with a free left and right neighbour keeps the pool well formed in all four cases; the count gains the block and one header per merge. |
| `MemHeap.Pool.Merge` | Rt-thread AT32/Rt-thread/src/memheap.c:540-578 | The pointer writes of the two merges drop exactly the headers that disappear, on the block list and on the free list. |
| `MemHeap.Pool.Free` | Rt-thread AT32/Rt-thread/src/memheap.c:495-595 | NULL changes nothing; otherwise exactly that block leaves the allocated blocks, its free neighbours are absorbed, and all other allocated bytes stay. |
| `MemHeap.Pool.Extend` | Rt-thread AT32/Rt-thread/src/memheap.c:350-402 | Growing into the free block behind: the block has exactly n bytes, the header of the neighbour moves behind it, and the count drops by the growth. |
| `MemHeap.Pool.Relocate` | Rt-thread AT32/Rt-thread/src/memheap.c:408-417 | Growing elsewhere: NULL exactly when the allocation fails, and then nothing changed; otherwise a new block starting with the old content replaces the old one. |
| `MemHeap.Pool.Trim` | Rt-thread AT32/Rt-thread/src/memheap.c:420-491 | Shrinking in place: the block has exactly n bytes and the rest is a free block, joined with a free block behind it. |
| `MemHeap.Pool.Realloc` | Rt-thread AT32/Rt-thread/src/memheap.c:284-492 | For every 32-bit size: the pool is well formed afterwards if and only if the sum in the test for room does not wrap over a free right neighbour (`Spoils`). When it does not, the result is in place, extended, moved or NULL exactly as the sizes and the free list decide, the old content is kept and no other allocated byte changes. |
| `MemHeap.Pool.Overrun` | Rt-thread AT32/Rt-thread/src/memheap.c:350-401 | On the inputs `Spoils` names, the free header is written inside the header of the block itself, and the pool is not well formed any more. |
| `MemHeap.OverrunExample` | Rt-thread AT32/Rt-thread/src/memheap.c:350 | A concrete request of 2^32 - 15 bytes on a 12-byte block for which the wrapped test passes though the room is not there. |
| `MemHeap.BlocksAhead` | Rt-thread AT32/Rt-thread/src/memheap.c:327-331 | In every well formed pool a block ends behind its own header, which the assertion of `rt_memheap_realloc` relies on and an overrun breaks. |
| `MemHeap.RedoneCovers` | Rt-thread AT32/Rt-thread/src/memheap.c:300-303 | A block that `rt_memheap_realloc` returns holds the bytes asked for, for all sizes up to 2^32 - 4. |
| `MemHeap.Pool.Accounting` | Rt-thread AT32/Rt-thread/src/memheap.c:50-121 | In every reachable pool, available bytes, allocated bytes and one header per block add up to the pool size. |
| `MemHeap.Pool.FreeListExact` | Rt-thread AT32/Rt-thread/src/memheap.c:540-591 | In every reachable pool the free list names exactly the unused blocks, each once, and no two of them are neighbours. |
| `MemHeap.Pool.LiveApart` | Rt-thread AT32/Rt-thread/src/memheap.c:138-281 | Allocated blocks are disjoint and inside the pool. |
| `MemHeap.Pool.LiveClear` | Rt-thread AT32/Rt-thread/src/memheap.c:263-270 | No data area of an allocated block contains a header. |
| `Blocks.BytesConserved` | Rt-thread AT32/Rt-thread/src/memheap.c:85-110 | Headers, used and free bytes of a tiling add up to its length, for any marking of the blocks. |
| `Blocks.LiveRelease` | Rt-thread AT32/Rt-thread/src/memheap.c:535-591 | After a release with any merges, the allocated blocks are the old ones less the released one, with the same sizes. |
| `Blocks.RelocateBytes` | Rt-thread AT32/Rt-thread/src/mem.c:507-513 | Allocate, copy the shorter length and free: the new block starts with the old content and all other allocated blocks keep theirs. |
| `SmallMem.AlignCovers` | Rt-thread AT32/Rt-thread/src/mem.c:288-300 | The rounded size covers the request except for the three sizes above 2^32 - 4, where it is zero. |
| `SmallMem.MallocCovers` | Rt-thread AT32/Rt-thread/src/mem.c:288-300 | A block that `rt_malloc` returns holds the bytes asked for if and only if the size is at most 2^32 - 4. |
| `SmallMem.Heap.constructor` | Rt-thread AT32/Rt-thread/src/mem.c:204-257 | The new heap is one free block, from the start to the used end marker, with nothing in use. |
| `SmallMem.Heap.Scan` | Rt-thread AT32/Rt-thread/src/mem.c:305-312 | The scan from the lowest free block finds the lowest block that fits, or there is none; an exact fit in the last place counts as no fit, because the bound is strict. |
| `SmallMem.PassedOver` | Rt-thread AT32/Rt-thread/src/mem.c:305-312 | A free block holds the request and yet none fits, exactly when the last block is the only one that holds it and holds no byte more. |
| `SmallMem.WholeHeapRefused` | Rt-thread AT32/Rt-thread/src/mem.c:305-312 | In a new heap of any size no block fits a request for all of it, although the one block holds it. |
| `SmallMem.LowestTake` | Rt-thread AT32/Rt-thread/src/mem.c:380-387 | Taking a block behind the lowest free one, whole or cut, leaves the lowest free block what it was. |
| `SmallMem.Heap.AdvanceLfree` | Rt-thread AT32/Rt-thread/src/mem.c:382-386 | The loop stops at the first free block or at the end marker, so `lfree` is the lowest free block again. |
| `SmallMem.Heap.Malloc` | Rt-thread AT32/Rt-thread/src/mem.c:272-410 | NULL with nothing changed exactly for size 0, a size beyond the heap, or no fitting block; otherwise the lowest fitting block, cut when the rest can hold a minimal block. `used_mem` grows by header and data, its peak is kept, and no other allocated byte changes. |
| `SmallMem.Heap.PlugHoles` | Rt-thread AT32/Rt-thread/src/mem.c:156-194 | Both halves of `plug_holes` drop exactly the headers of free neighbours and move `lfree` off a header that disappears. |
| `SmallMem.ShapeRelease` | Rt-thread AT32/Rt-thread/src/mem.c:596-613 | Releasing a block with any free neighbours keeps the tiling and the absence of free neighbours, and takes its header and data off the bytes in use. |
| `SmallMem.LowestRelease` | Rt-thread AT32/Rt-thread/src/mem.c:602-613 | After a release, the lower of the block and the old lowest free block is the lowest free block, although merges may remove headers. |
| `SmallMem.Heap.Free` | Rt-thread AT32/Rt-thread/src/mem.c:552-615 | NULL changes nothing; otherwise exactly that block leaves the allocated blocks, `used_mem` drops by its header and data, and all other bytes stay. |
| `SmallMem.LowestTrim` | Rt-thread AT32/Rt-thread/src/mem.c:493-497 | A free header cut into a used block becomes the lowest free block exactly when it lies below the old one. |
| `SmallMem.LowestMove` | Rt-thread AT32/Rt-thread/src/mem.c:493-499 | The same when the free block behind is absorbed, even if it was the lowest itself. |
| `SmallMem.Heap.Shrink` | Rt-thread AT32/Rt-thread/src/mem.c:471-504 | Cutting a block in place leaves it n bytes, whatever follows it, and takes the rest off `used_mem`. |
| `SmallMem.Heap.Relocate` | Rt-thread AT32/Rt-thread/src/mem.c:507-515 | Growing: NULL exactly when no block fits, with nothing changed; otherwise a new block starting with the old content replaces the old one. |
| `SmallMem.Heap.Realloc` | Rt-thread AT32/Rt-thread/src/mem.c:421-516 | For every pointer and 32-bit size: NULL beyond the heap, free on a rounded size of 0, allocation on NULL, an address outside the heap given back untouched, and otherwise kept, cut or moved as the sizes decide, with the old content and all other blocks kept. |
| `SmallMem.Heap.LiveApart` | Rt-thread AT32/Rt-thread/src/mem.c:329-348 | In every reachable heap the data areas of allocated blocks are disjoint and inside the heap. |
| `SmallMem.Heap.LiveAligned` | Rt-thread AT32/Rt-thread/src/mem.c:390-392 | Every data area is aligned to 4, as `rt_malloc` asserts. |
| `Lists.ListSpace.constructor` | Rt-thread AT32/Rt-thread/include/rtservice.h:47-50 | Every list is empty and every node points at itself. |
| `Lists.ListSpace.InsertBefore` | Rt-thread AT32/Rt-thread/include/rtservice.h:73-80 | The four assignments put the node before list entry j (at the end when j is the head) and leave every other list as it is. |
| `Lists.ListSpace.InsertAfter` | Rt-thread AT32/Rt-thread/include/rtservice.h:58-65 | The four assignments put the node behind entry j and leave every other list as it is. |
| `Lists.ListSpace.Remove` | Rt-thread AT32/Rt-thread/include/rtservice.h:86-92 | The node leaves whatever list it is on, without being told which; a node on no list is not an error and nothing changes. |
| `Lists.ListSpace.Len` | Rt-thread AT32/Rt-thread/include/rtservice.h:107-119 | The walk counts the elements of the list. |
| `Rings.RingInsertAfter` | Rt-thread AT32/Rt-thread/include/rtservice.h:58-65 | The insertion keeps the forward and backward links inverse all round the ring. |
| `Lists.OthersKept` | Rt-thread AT32/Rt-thread/include/rtservice.h:58-92 | Writes confined to the nodes of one list leave every other list intact. |
| `Ordered.SlotSorts` | Rt-thread AT32/Rt-thread/src/ipc.c:95-117 | Inserting where the scan stops keeps a queue sorted and puts the newcomer behind all equals. |
| `ReadyBitmap.FfsCorrect` | Rt-thread AT32/Rt-thread/src/kservice.c:1286-1330 | `__rt_ffs` with its 256-entry table returns the place of the lowest set bit counted from one, and 0 for 0, on every 32-bit word. |
| `ReadyBitmap.FfsLeast` | Rt-thread AT32/Rt-thread/src/scheduler.c:173 | `__rt_ffs(group) - 1` is the least priority whose bit is set. |
| `ReadyBitmap.MaskOps` | Rt-thread AT32/Rt-thread/src/scheduler.c:734 | Or-ing a thread's mask sets exactly its priority's bit, and-ing the complement clears exactly that bit. |
| `ReadyBitmap.TwoLevel.Insert` | Rt-thread AT32/Rt-thread/src/scheduler.c:730-734 | With more than 32 priorities, the group and the table together then record the set of non-empty priorities plus p. |
| `ReadyBitmap.TwoLevel.Remove` | Rt-thread AT32/Rt-thread/src/scheduler.c:820-829 | They record the set without p, and the group bit goes exactly when its byte becomes 0. |
| `ReadyBitmap.TwoLevel.Highest` | Rt-thread AT32/Rt-thread/src/scheduler.c:167-174 | The two lookups return the least non-empty priority of up to 256. |
| `Kernel.Kernel.constructor` | Rt-thread AT32/Rt-thread/src/thread.c:117-209 | The system with one running thread and the others initialised satisfies every invariant below. |
| `Kernel.Kernel.RemoveThread` | Rt-thread AT32/Rt-thread/src/scheduler.c:805-835 | The thread is on no list any more, and bit p of the group still says whether queue p is empty. |
| `Kernel.Kernel.InsertThread` | Rt-thread AT32/Rt-thread/src/scheduler.c:708-742 | The current thread is marked RUNNING and not queued; another becomes READY at the end of the queue of its priority, and the group agrees with the queues. |
| `Kernel.Kernel.Schedule` | Rt-thread AT32/Rt-thread/src/scheduler.c:418-538 | Every invariant is kept. Unlocked, a RUNNING thread is replaced if and only if some READY thread is more urgent, or as urgent while its slice is over, and whoever is current then is outranked by nobody. Locked, with nobody ready, or when the current thread stays, nothing changes; suspend lists stay. |
| `Kernel.SwitchEffect` | Rt-thread AT32/Rt-thread/src/scheduler.c:438-486 | That decision in terms of states, priorities and YIELD bits alone, and all it does: the first thread of the most urgent queue leaves it and runs, a replaced one goes to the end of its own queue and loses its YIELD bit, every other queue and state stays; if the current thread stays, nothing changes. |
| `Kernel.SwitchedMostUrgent` | Rt-thread AT32/Rt-thread/src/scheduler.c:431-463 | Whatever the decision, no ready thread is more urgent than the thread that is current afterwards. |
| `Kernel.RoundRobin` | Rt-thread AT32/Rt-thread/src/scheduler.c:444-463 | When its slice is over and its peers are the most urgent ready threads, the current thread goes behind all of them and the one that waited longest runs; no other queue changes. |
| `Kernel.TopFound` | Rt-thread AT32/Rt-thread/src/scheduler.c:162-184 | The lookup finds the most urgent priority with a ready thread, and the group is 0 exactly when there is none. |
| `Kernel.Kernel.Suspend` | Rt-thread AT32/Rt-thread/src/thread.c:721-760 | Succeeds exactly for a READY or RUNNING thread, which then is SUSPENDED, on no list and without a timer; otherwise nothing changes. |
| `Kernel.Kernel.Unlink` | Rt-thread AT32/Rt-thread/src/thread.c:788-797 | First section of `rt_thread_resume`: the thread is on no list and its timer is stopped, and every thread is still placed. |
| `Kernel.Kernel.Requeue` | Rt-thread AT32/Rt-thread/src/thread.c:799-800 | Second section: the thread becomes READY in the queue of its priority, or RUNNING if it is the current one. |
| `Kernel.RequeueSafe` | Rt-thread AT32/Rt-thread/src/thread.c:791-800 | The second section links the thread once if and only if it is on no list by then. |
| `Kernel.Kernel.Resume` | Rt-thread AT32/Rt-thread/src/thread.c:770-804 | With interrupts disabled throughout: succeeds exactly for a SUSPENDED thread and moves it from its suspend list to the end of its ready queue, with its timer stopped. |
| `Kernel.Kernel.Expire` | Rt-thread AT32/Rt-thread/src/thread.c:813-831 | A timer that fires finds its thread SUSPENDED, as the code asserts; it is taken off its suspend list, gets -RT_ETIMEOUT and is made ready. |
| `Kernel.Kernel.ChangePriority` | Rt-thread AT32/Rt-thread/src/thread.c:636-677 | A READY thread moves to the end of the queue of its new priority, any other stays where it is; mask, group and placement agree afterwards. |
| `Kernel.Kernel.SetUp` | Rt-thread AT32/Rt-thread/src/thread.c:296-311 | The assignments before the resume leave the thread SUSPENDED on no list, with its initial priority and mask. |
| `Kernel.Kernel.Startup` | Rt-thread AT32/Rt-thread/src/thread.c:289-313 | An initialised thread ends up READY at the end of the queue of its initial priority. |
| `Kernel.Kernel.Withdraw` | Rt-thread AT32/Rt-thread/src/thread.c:341-348 | First section of delete and detach: afterwards every thread is where its state says if and only if the deleted one was not READY. |
| `Kernel.Kernel.StopTimer` | Rt-thread AT32/Rt-thread/src/thread.c:350-351 | Second section: the timer is off, and what held before holds after. |
| `Kernel.Kernel.Bury` | Rt-thread AT32/Rt-thread/src/thread.c:455-465 | Last section: if the thread is on no list by then, it is CLOSED, dead-listed when it is to be reclaimed, and every invariant holds again. |
| `Kernel.BurySafe` | Rt-thread AT32/Rt-thread/src/thread.c:462 | Putting a thread on the list of the dead links it once if and only if it is on no list. |
| `Kernel.DeleteGap` | Rt-thread AT32/Rt-thread/src/thread.c:446-462 | Deleting any READY thread with interrupts enabled: between the sections it is READY in no queue, a requeue there puts it back, and the last section then links it into a second list. |
| `Kernel.Kernel.Close` | Rt-thread AT32/Rt-thread/src/thread.c:434-468 | With interrupts disabled throughout, or for a thread not READY: a CLOSED thread is left alone, any other is CLOSED, off all lists but that of the dead, with its timer stopped. |
| `Kernel.Kernel.Exit` | Rt-thread AT32/Rt-thread/src/thread.c:80-112 | The running thread is CLOSED and dead-listed; no other queue changes. |
| `Kernel.Kernel.Tick` | Rt-thread AT32/Rt-thread/src/clock.c:84-97 | The slice is over exactly when one tick was left; it is reloaded and only then the YIELD bit is set. |
| `Kernel.Kernel.ListSuspend` | Rt-thread AT32/Rt-thread/src/ipc.c:80-123 | The thread is SUSPENDED at the end of the suspend list, or behind the last waiter that is at least as urgent; the other suspend lists stay. |
| `Kernel.Kernel.FindSlot` | Rt-thread AT32/Rt-thread/src/ipc.c:98-115 | The search stops at the first less urgent waiter, or at the list head. |
| `Kernel.Kernel.ListResume` | Rt-thread AT32/Rt-thread/src/ipc.c:134-147 | The first waiter leaves the list and is queued, or running if it is current; the others keep their places. |
| `Kernel.Kernel.ListResumeAll` | Rt-thread AT32/Rt-thread/src/ipc.c:157-185 | Every waiter is woken with -RT_ERROR in list order behind the threads already ready, the list is empty, and no other thread, queue or error is concerned. |
| `Kernel.Kernel.EnterCritical` | Rt-thread AT32/Rt-thread/src/scheduler.c:878-893 | The scheduler is locked one level deeper, and nothing else changes. |
| `Kernel.Kernel.ExitCritical` | Rt-thread AT32/Rt-thread/src/scheduler.c:940-965 | One level less but never below none, and the caller is told to reschedule exactly when none is left. |
| `Mutexes.TakeKeeps` | Rt-thread AT32/Rt-thread/src/ipc.c:681-732 | Taking a priority-ordered mutex, free, recursively or by blocking with inheritance, keeps it balanced, sorted and free of inversion if and only if the caller does not already hold it 255 times. |
| `Mutexes.HandoffKeeps` | Rt-thread AT32/Rt-thread/src/ipc.c:842-861 | Handing the mutex to the first waiter keeps the invariant although the new owner is not raised again: the first of the sorted queue is as urgent as the rest. |
| `Mutexes.ReleaseRestores` | Rt-thread AT32/Rt-thread/src/ipc.c:829-871 | The final release gives the owner the priority it had when it acquired the mutex, whatever it was raised to in between, and passes the mutex to the first waiter or frees it. |
| `Mutexes.LeaveKeeps` | Rt-thread AT32/Rt-thread/src/thread.c:813-831 | A waiter's timeout keeps the invariant and lowers nobody's priority. |
| `Mutexes.RunKeeps` | Rt-thread AT32/Rt-thread/src/ipc.c:654-881 | In every state that any sequence of takes, releases and timeouts reaches: value is 1 iff nobody owns the mutex iff it is held zero times, a free mutex has no waiters, the waiters are sorted by priority with ties in arrival order, every other thread has its base priority, and the owner is at least as urgent as every waiter. |
| `Mutexes.RunRestores` | Rt-thread AT32/Rt-thread/src/ipc.c:654-881 | Whenever the mutex is free again, every priority is back to its base. |
| `Mutexes.TakeOutcome` | Rt-thread AT32/Rt-thread/src/ipc.c:681-742 | A take succeeds at once exactly when nobody else owns the mutex; otherwise it is refused with nothing changed, or waits, as the caller says. |
| `Mutexes.WaitRaises` | Rt-thread AT32/Rt-thread/src/ipc.c:722-747 | A wait adds the thread to the waiters and raises the owner to the more urgent of the two; everything else of the mutex and every other priority stays. |
| `Mutexes.OwnerChanges` | Rt-thread AT32/Rt-thread/src/ipc.c:681-871 | The owner loses the mutex by its own release while it holds it once and by nothing else; a thread gets it by taking a free mutex or as the first waiter of such a release, and holds it once then. |
| `Mutexes.HoldCounts` | Rt-thread AT32/Rt-thread/src/ipc.c:684-831 | Over every run in which a thread stays the owner, `hold` grows by its takes less its releases, counted from the events. |
| `Mutexes.HoldHistory` | Rt-thread AT32/Rt-thread/src/ipc.c:681-871 | Over every run, whoever owns the mutex was given it by some event, once, and holds it that one time plus its takes less its releases since. |
| `Mutexes.BoostCause` | Rt-thread AT32/Rt-thread/src/ipc.c:725-732 | While a thread owns the mutex, its priority is what it was, or the base priority of a thread that has waited for the mutex since. |
| `Mutexes.BoostOutlivesWaiter` | Rt-thread AT32/Rt-thread/src/thread.c:813-831 | A run in which the owner stays raised after the waiter it was raised for has timed out. |
| `Mutexes.FifoHandoff` | Rt-thread AT32/Rt-thread/src/ipc.c:842-861 | With first-in-first-out waiting, the handoff leaves the new owner as urgent as its waiters if and only if the longest waiting thread is a most urgent one. |
| `Mutexes.FifoInverts` | Rt-thread AT32/Rt-thread/src/ipc.c:842-861 | A run of three takes and a release after which the owner is less urgent than its waiter. |
| `Mutexes.NestedTakes` | Rt-thread AT32/Rt-thread/src/ipc.c:681-685 | Any number of nested takes up to 255 in all is a run that only counts up. |
| `Mutexes.NestedReleases` | Rt-thread AT32/Rt-thread/src/ipc.c:829-831 | Any number of releases by the owner that leave it the mutex is a run that only counts down. |
| `Mutexes.NestedPairs` | Rt-thread AT32/Rt-thread/src/ipc.c:681-831 | As many releases as takes, nested at any depth, leave mutex and priorities as they were. |
| `Mutexes.HoldWraps` | Rt-thread AT32/Rt-thread/src/ipc.c:684 | A run of 255 nested takes, after which one more leaves the mutex owned and held zero times. |
| `Mutexes.Mutex.constructor` | Rt-thread AT32/Rt-thread/src/ipc.c:530-550 | The new mutex is free, with the priorities of the system as they are. |
| `Mutexes.Mutex.Take` | Rt-thread AT32/Rt-thread/src/ipc.c:670-774 | On the real lists and priorities, the section makes exactly the transition of the proofs above, sets the error and timer accordingly, and changes no other thread unless it blocks. |
| `Mutexes.Mutex.Release` | Rt-thread AT32/Rt-thread/src/ipc.c:809-874 | The same for release; -RT_ERROR exactly when the caller is not the owner. |
| `Mutexes.Mutex.Expire` | Rt-thread AT32/Rt-thread/src/thread.c:813-831 | A thread's timeout removes it from the waiters and does nothing else to the mutex. |
| `Mutexes.Mutex.Schedule` | Rt-thread AT32/Rt-thread/src/scheduler.c:418-538 | Rescheduling leaves the mutex and its waiters alone. |
| `Waiting.SomeoneComes` | Rt-thread AT32/Rt-thread/src/ipc.c:2279-2342 | While a thread waits beside something to take, a woken thread that is not waiting is on its way to take it. |
| `Waiting.GrantedKeeps` | Rt-thread AT32/Rt-thread/src/ipc.c:2111-2117 | One item more and one waiter woken keep the woken threads at least as many as the items. |
| `Waiting.TookKeeps` | Rt-thread AT32/Rt-thread/src/ipc.c:2345-2354 | A thread that runs and takes an item, woken or not, keeps that count. |
| `Waiting.WaitList.Block` | Rt-thread AT32/Rt-thread/src/ipc.c:80-123 | The running thread is suspended at its place on this list only, with its timer if a time is given. |
| `Waiting.WaitList.WakeAll` | Rt-thread AT32/Rt-thread/src/ipc.c:157-185 | The list is empty, its threads have -RT_ERROR, and all other lists and errors are kept. |
| `Waiting.WakeOne` | Rt-thread AT32/Rt-thread/src/ipc.c:2114-2117 | Waking the first waiter of one end of an object leaves the other end alone. |
| `Semaphores.ReleaseKeeps` | Rt-thread AT32/Rt-thread/src/ipc.c:454-461 | A release keeps the accounts if and only if it does not increase a value of 65535. |
| `Semaphores.EveryRun` | Rt-thread AT32/Rt-thread/src/ipc.c:324-515 | Over every interleaving of takes, releases, timeouts, resets and returns, and of other objects writing thread errors: initial value plus releases is value plus granted takes, and a positive value means nobody waits. For every thread, counted from the calls and their answers: as many takes were answered with a wait as have returned, and one more exactly while it waits or is on its way back, and the codes returned are those of the ends of its waits, in order. |
| `Semaphores.RunBooks` | Rt-thread AT32/Rt-thread/src/ipc.c:324-515 | Value, line of waiters, releases and granted takes after a run, and the codes each thread's blocked takes returned, are what the calls and their answers add up to. |
| `Semaphores.NextAnswer` | Rt-thread AT32/Rt-thread/src/ipc.c:345-371 | So after any run from initialisation they decide what a take is answered: granted if and only if units there from the start or released have not been granted yet, else refused or waiting as the caller says. |
| `Semaphores.EndOfWait` | Rt-thread AT32/Rt-thread/src/ipc.c:376-402 | A waiting thread's wait ends by the release that finds it first with RT_EOK, by its own timeout with -RT_ETIMEOUT, by a reset with -RT_ERROR, and by nothing else. |
| `Semaphores.Semaphore.Take` | Rt-thread AT32/Rt-thread/src/ipc.c:336-394 | The section makes exactly that transition on the kernel's lists; a caller that blocks waits at its place, with a timer if a time is given. |
| `Semaphores.Semaphore.Release` | Rt-thread AT32/Rt-thread/src/ipc.c:447-464 | The first waiter gets the unit, or the value grows by one modulo 65536. |
| `Semaphores.Semaphore.Finish` | Rt-thread AT32/Rt-thread/src/ipc.c:399-408 | The take returns what the thread's error says when it runs again. |
| `Semaphores.Semaphore.Reset` | Rt-thread AT32/Rt-thread/src/ipc.c:498-507 | Every waiter is woken with -RT_ERROR and the value is the argument truncated to 16 bits. |
| `Events.ShareLaws` | Rt-thread AT32/Rt-thread/src/ipc.c:1063-1092 | A satisfied waiter receives its wish restricted to the set bits, all of them for AND and at least one for OR, and none of what it cleared is left. |
| `Events.BitLaws` | Rt-thread AT32/Rt-thread/src/ipc.c:1049-1092 | The word operations of the source, bit by bit. |
| `Events.MetMeans` | Rt-thread AT32/Rt-thread/src/ipc.c:1063-1072 | A condition is met by a set if and only if it has all the wished bits under RT_EVENT_FLAG_AND, or some wished bit under RT_EVENT_FLAG_OR alone. |
| `Events.RecvTakes` | Rt-thread AT32/Rt-thread/src/ipc.c:1143-1217 | A receive succeeds at once exactly when its condition is met, is refused or waits otherwise; what it receives are, bit by bit, the wished bits that are set, and the set loses exactly the wished bits with RT_EVENT_FLAG_CLEAR and nothing in any other case. |
| `Events.SweepSettles` | Rt-thread AT32/Rt-thread/src/ipc.c:1058-1100 | The loop only takes bits away, and leaves nobody waiting whose condition the remaining set meets. |
| `Events.SweepGrants` | Rt-thread AT32/Rt-thread/src/ipc.c:1058-1100 | Each resumed waiter receives exactly its wish restricted to the bits not cleared for those before it, bits cleared for one reach none after it, and the set left is the old one less what was cleared. |
| `Events.SweepTurn` | Rt-thread AT32/Rt-thread/src/ipc.c:1063-1088 | A waiter goes on waiting if and only if the set its turn finds does not meet its condition. |
| `Events.SweepThreads` | Rt-thread AT32/Rt-thread/src/ipc.c:1058-1100 | The resumed threads are distinct, and together with those left waiting they are the old waiters. |
| `Events.SendReports` | Rt-thread AT32/Rt-thread/src/ipc.c:1049-1101 | After a send, each resumed thread's event set is exactly what it wished of the bits not cleared before its turn, and no other thread's is touched. |
| `Events.RunKeeps` | Rt-thread AT32/Rt-thread/src/ipc.c:1029-1282 | In every state reachable by sends, receives, timeouts and resets, no suspended thread's condition is met by the current set. |
| `Events.EventSet.Loop` | Rt-thread AT32/Rt-thread/src/ipc.c:1054-1101 | The walk along the live suspend list, with threads leaving it on the way, computes exactly that sweep. |
| `Events.EventSet.Send` | Rt-thread AT32/Rt-thread/src/ipc.c:1041-1104 | A send of no bits is an error and changes nothing; otherwise the set is joined and swept. |
| `Events.EventSet.Recv` | Rt-thread AT32/Rt-thread/src/ipc.c:1143-1217 | Received with the wish restricted to the set, timed out, or waiting at its place, as the set and the flags decide. |
| `Events.EventSet.Reset` | Rt-thread AT32/Rt-thread/src/ipc.c:1254-1282 | Every waiter is woken with -RT_ERROR and the set is empty. |
| `Mailboxes.RingPut` | Rt-thread AT32/Rt-thread/src/ipc.c:1540-1548 | Writing at `in_offset` and stepping it appends the mail to the queue the ring stands for. |
| `Mailboxes.RingGet` | Rt-thread AT32/Rt-thread/src/ipc.c:1686-1694 | Reading at `out_offset` and stepping it removes the first mail, and in == (out + entry) mod size again. |
| `Mailboxes.RunKeeps` | Rt-thread AT32/Rt-thread/src/ipc.c:1447-1763 | In every interleaving of sends, receives, their resumed continuations, timeouts and resets, the woken threads at each end cover what is there for them, and nobody is in both lines or twice in one. |
| `Mailboxes.RunWoken` | Rt-thread AT32/Rt-thread/src/ipc.c:1550-1720 | Who counts as woken, told from the suspend lists: whoever left one other than by a timeout or a reset and has not called since. |
| `Mailboxes.MailsInOrder` | Rt-thread AT32/Rt-thread/src/ipc.c:1447-1763 | In every such run, counted from the calls and their answers alone: the mails whose send was answered RT_EOK since the last reset are, in order, those received followed by those stored, so none is lost or doubled, and at most as many are under way as there are slots. |
| `Mailboxes.NextAnswer` | Rt-thread AT32/Rt-thread/src/ipc.c:1470-1719 | So they decide the next answer: a send is answered RT_EOK if and only if fewer mails are under way than there are slots, a receive gives the first mail under way if and only if there is one, and otherwise each is refused or waits as its caller says. |
| `Mailboxes.NoReceiverForgotten` | Rt-thread AT32/Rt-thread/src/ipc.c:1447-1719 | Over every run, while a receiver is suspended, the receivers that were taken off the list and have not called since number at least the stored mails, and dually senders and free slots. |
| `Mailboxes.Mailbox.constructor` | Rt-thread AT32/Rt-thread/src/ipc.c:1299-1327 | The new ring is empty, with nobody waiting. |
| `Mailboxes.Mailbox.Send` | Rt-thread AT32/Rt-thread/src/ipc.c:1465-1566 | One pass through the loop appends the mail and wakes the first receiver, or is refused, or suspends the sender, as the transition says. |
| `Mailboxes.Mailbox.Recv` | Rt-thread AT32/Rt-thread/src/ipc.c:1612-1719 | One pass returns the first mail and wakes the first sender, or is refused, or suspends the receiver. |
| `Mailboxes.Mailbox.Reset` | Rt-thread AT32/Rt-thread/src/ipc.c:1731-1763 | Both lines are woken with -RT_ERROR and the ring is empty. |
| `MessageQueues.RunKeeps` | Rt-thread AT32/Rt-thread/src/ipc.c:1980-2450 | With every critical section a step of its own and copies in between: the cells are always the disjoint union of queue, free chain and cells in flight, no cell is lost or doubled, deliveries are in order, and nobody sleeps beside unclaimed messages or cells. |
| `MessageQueues.NobodyForgotten` | Rt-thread AT32/Rt-thread/src/ipc.c:1980-2384 | Over every run, while a receiver is suspended, the receivers that were taken off the list and have not called since number at least the queued messages, and dually senders and free cells. |
| `MessageQueues.RunHistory` | Rt-thread AT32/Rt-thread/src/ipc.c:1980-2450 | The order of linking and taking, the cells in flight and their contents after a run are what the calls and their answers say. |
| `MessageQueues.NextAnswer` | Rt-thread AT32/Rt-thread/src/ipc.c:2008-2357 | So after any run from initialisation they decide the next answer: a send gets a cell, one nobody has, if and only if queued messages and cells in flight leave one; a receive gets the cell with the message next in order of delivery if and only if one is queued; and otherwise each is refused or waits as its caller says. |
| `MessageQueues.OrdinaryFifo` | Rt-thread AT32/Rt-thread/src/ipc.c:2096-2111 | In every run, the ordinary messages received and then queued are exactly the ordinary messages linked, in the order they were linked, whatever urgent ones were sent in between. |
| `MessageQueues.DeliveryOrder` | Rt-thread AT32/Rt-thread/src/ipc.c:2160-2230 | In every run, of two messages the earlier linked one is delivered first if and only if the later one was not urgent or the earlier one had been received when it was linked; otherwise the urgent one is. |
| `MessageQueues.ReadIsStable` | Rt-thread AT32/Rt-thread/src/ipc.c:2357-2363 | A message being copied out with interrupts enabled stays what it was, whatever the other threads do. |
| `MessageQueues.CellsAddUp` | Rt-thread AT32/Rt-thread/src/ipc.c:1980-2450 | Queued, free and in-flight cells add up to the pool. |
| `MessageQueues.LastReturnedFirst` | Rt-thread AT32/Rt-thread/src/ipc.c:2363-2384 | The cell given back last is the next one filled, and the rest of the free chain stays. |
| `MessageQueues.ResetKeeps` | Rt-thread AT32/Rt-thread/src/ipc.c:2411-2439 | A reset loses no cell and leaves those in flight to their threads. |
| `MessageQueues.ShapeLink` | Rt-thread AT32/Rt-thread/src/ipc.c:2098-2108 | Linking at the tail keeps both chains and the tail pointer, which is null exactly when the head is. |
| `MessageQueues.ShapeUrgent` | Rt-thread AT32/Rt-thread/src/ipc.c:2203-2208 | The same for linking at the head. |
| `MessageQueues.MessageQueue.constructor` | Rt-thread AT32/Rt-thread/src/ipc.c:1786-1836 | The loop chains all cells through the pool; every one is free. |
| `MessageQueues.MessageQueue.Acquire` | Rt-thread AT32/Rt-thread/src/ipc.c:2008-2088 | One pass through the loop takes the first free cell, or is refused, or suspends the sender. |
| `MessageQueues.MessageQueue.Fill` | Rt-thread AT32/Rt-thread/src/ipc.c:2093 | The copy replaces the first bytes of the cell and no other cell. |
| `MessageQueues.MessageQueue.Link` | Rt-thread AT32/Rt-thread/src/ipc.c:2096-2127 | The cell is last in the queue, and the first receiver is woken. |
| `MessageQueues.MessageQueue.LinkUrgent` | Rt-thread AT32/Rt-thread/src/ipc.c:2200-2227 | The cell is first in the queue, and the first receiver is woken. |
| `MessageQueues.MessageQueue.Take` | Rt-thread AT32/Rt-thread/src/ipc.c:2268-2357 | One pass through the loop takes the first message's cell, or is refused, or suspends the receiver. |
| `MessageQueues.MessageQueue.Read` | Rt-thread AT32/Rt-thread/src/ipc.c:2360 | The caller gets the first bytes of the message, as many as it asks for up to the message size. |
| `MessageQueues.MessageQueue.Return` | Rt-thread AT32/Rt-thread/src/ipc.c:2363-2384 | The cell is first on the free chain, and the first sender is woken. |
| `MessageQueues.MessageQueue.Reset` | Rt-thread AT32/Rt-thread/src/ipc.c:2411-2442 | Both lines are woken with -RT_ERROR, and the queued cells go to the free chain one by one, ending in reverse order. |
| `MemPools.BlocksFit` | Rt-thread AT32/Rt-thread/src/mempool.c:97-116 | Blocks are aligned, disjoint with their headers, inside the pool and at least as large as asked for. |
| `MemPools.RunKeeps` | Rt-thread AT32/Rt-thread/src/mempool.c:303-449 | In every interleaving of allocations, releases and timeouts, each block is either chained or handed out, the two counts add up, and while a thread waits, woken threads that have not run number at least the free blocks. |
| `MemPools.NobodyForgotten` | Rt-thread AT32/Rt-thread/src/mempool.c:303-449 | Over every run, while a thread waits, the threads that were taken off the list and have not called since number at least the free blocks. |
| `MemPools.NextAnswer` | Rt-thread AT32/Rt-thread/src/mempool.c:317-385 | After any run, counted from the calls and their answers: an allocation gets a block, one that is not out, if and only if some block is not out, and otherwise is refused or waits as its caller says. |
| `MemPools.AllocKeeps` | Rt-thread AT32/Rt-thread/src/mempool.c:317-385 | An allocation never hands out a block that is out already. |
| `MemPools.AllocFreeUndo` | Rt-thread AT32/Rt-thread/src/mempool.c:375-423 | An allocation and a release undo each other, in either order: the block given back last is the next one given out, and the rest of the chain stays. |
| `MemPools.NewestFirst` | Rt-thread AT32/Rt-thread/src/mempool.c:339-440 | Of the waiting threads the one that came last is woken first, and the others keep their places. |
| `MemPools.MemPool.constructor` | Rt-thread AT32/Rt-thread/src/mempool.c:77-124 | The loop chains exactly `block_total_count` blocks, all free. |
| `MemPools.MemPool.Alloc` | Rt-thread AT32/Rt-thread/src/mempool.c:317-385 | One pass through the loop hands out the first chained block, or is refused, or suspends the caller as the newest waiter in front of the others. |
| `MemPools.MemPool.Refuse` | Rt-thread AT32/Rt-thread/src/mempool.c:325-329 | The refusal is noted in the running thread's error unless an interrupt is being served; the pool stays. |
| `MemPools.MemPool.Free` | Rt-thread AT32/Rt-thread/src/mempool.c:407-448 | The block is first on the chain, and the newest waiter is woken with RT_EOK. |
| `Timers.WindowOrder` | Rt-thread AT32/Rt-thread/src/timer.c:361-375 | For deadlines less than half the tick range behind a common start, the wrapping subtraction and comparison of the source decide exactly which is later. |
| `Timers.WindowExact` | Rt-thread AT32/Rt-thread/src/timer.c:372 | For any two ticks seen from any common base: that a is not earlier than b is found exactly while a is less than half the range ahead, and is found wrongly exactly when b is more than the other half ahead. |
| `Timers.WindowNeeded` | Rt-thread AT32/Rt-thread/src/timer.c:372 | At half the range, the first distance beyond, it takes the later tick for the earlier. |
| `Timers.AboveInsert` | Rt-thread AT32/Rt-thread/src/timer.c:388-400 | Inserting into the bottom row and into the rows the timer's height reaches keeps every row a filter of the bottom row. |
| `Timers.AboveAbove` | Rt-thread AT32/Rt-thread/src/timer.c:352-379 | Each sparser row is a subsequence of every denser one below it. |
| `Timers.AboveSlot` | Rt-thread AT32/Rt-thread/src/timer.c:352-379 | The place for a deadline in a sparser row is where its place in the bottom row falls. |
| `Timers.HeightMeans` | Rt-thread AT32/Rt-thread/src/timer.c:385-400 | A timer enters more than k rows, as far as there are rows, if and only if 4 to the power k divides the counter. |
| `Timers.TimerList.constructor` | Rt-thread AT32/Rt-thread/src/timer.c:701-709 | All rows are empty and no timer is active. |
| `Timers.TimerList.Unlink` | Rt-thread AT32/Rt-thread/src/timer.c:130-138 | The timer leaves every row it is in. |
| `Timers.TimerList.ScanRow` | Rt-thread AT32/Rt-thread/src/timer.c:354-376 | From any node not behind it, the inner loop stops exactly at the right place of the row. |
| `Timers.TimerList.Search` | Rt-thread AT32/Rt-thread/src/timer.c:351-379 | For any number of rows, the descending search ends in every row at the node behind which a linear scan would insert. |
| `Timers.TimerList.Climb` | Rt-thread AT32/Rt-thread/src/timer.c:385-400 | The timer enters as many rows as the low bits of the counter say, at least one. |
| `Timers.TimerList.Drop` | Rt-thread AT32/Rt-thread/src/timer.c:130-138 | The timer is on no list afterwards, the others keep their order, and its flag is left alone. |
| `Timers.TimerList.ClearFlag` | Rt-thread AT32/Rt-thread/src/timer.c:453 | Clearing the flag keeps the timer list well formed if and only if the timer is on no list by then. |
| `Timers.TimerList.Detach` | Rt-thread AT32/Rt-thread/src/timer.c:318-324 | The first section of `rt_timer_start` leaves the timer inactive and on no list. |
| `Timers.TimerList.SetDeadline` | Rt-thread AT32/Rt-thread/src/timer.c:328-333 | The deadline of a timer on no list may change between the sections. |
| `Timers.TimerList.Insert` | Rt-thread AT32/Rt-thread/src/timer.c:335-405 | The second section puts the timer behind every timer due no later, exactly where a linear scan of the bottom row in wrapping tick order would, and activates it. |
| `Timers.InsertSafe` | Rt-thread AT32/Rt-thread/src/timer.c:388-400 | The second section links the timer once if and only if it is on no list by then. |
| `Timers.StartGap` | Rt-thread AT32/Rt-thread/src/timer.c:318-405 | When a timeout function starts the same timer between the two sections, the second one links it twice, wherever either start puts it. |
| `Timers.TimerList.Start` | Rt-thread AT32/Rt-thread/src/timer.c:305-421 | With nothing between its sections, the timer leaves its old place and goes behind every timer due no later, exactly where a linear scan of the bottom row in wrapping tick order puts it; all rows stay sorted filters of the bottom row. |
| `Timers.TimerList.Stop` | Rt-thread AT32/Rt-thread/src/timer.c:431-456 | With nothing between the test, the section and the clearing of the flag, it succeeds exactly for an active timer, which is in no row afterwards; the order of the others stays. |
| `Timers.FirstNotDue` | Rt-thread AT32/Rt-thread/src/timer.c:538-568 | When the earliest timer is not due, none is, so the loop may stop there. |
| `Timers.FiresWho` | Rt-thread AT32/Rt-thread/src/timer.c:529-569 | No timer fires twice, only due ones fire, and a due timer that does not was stopped or restarted by the timeout function of one that did. |
| `Timers.FiresAll` | Rt-thread AT32/Rt-thread/src/timer.c:529-569 | When timeout functions leave other timers alone, all due timers fire, in order of deadline and ties in order of their start. |
| `Timers.PerformedJoin` | Rt-thread AT32/Rt-thread/src/timer.c:305-456 | Whatever sequence of starts and stops is performed, the last one on a timer decides whether it is active and listed, a timer that was started has a new deadline, the others keep theirs and their order, and of two with the same deadline the one started last is behind: sequences with these effects compose. |
| `Timers.FateOfFired` | Rt-thread AT32/Rt-thread/src/timer.c:546-565 | Of all a check does to a fired timer that no later one touches, the last is a start if and only if it is periodic and its own function did not stop it. |
| `Timers.FateOfTouched` | Rt-thread AT32/Rt-thread/src/timer.c:546-565 | Of all a check does to a timer that does not fire any more, the last is what the last function that touches it does. |
| `Timers.CheckLeaves` | Rt-thread AT32/Rt-thread/src/timer.c:516-575 | What that makes of each timer: fired, touched, or left alone. |
| `Timers.TimerList.Fire` | Rt-thread AT32/Rt-thread/src/timer.c:538-566 | The first timer leaves the list, its function runs, and it is started again, at the current tick plus its period, if and only if it is periodic and still active then; all else the function's starts and stops do as `Performed` says. |
| `Timers.TimerList.Check` | Rt-thread AT32/Rt-thread/src/timer.c:516-575 | The timers fired are exactly those, in that order, no due timer is left, and the loop ends because the due timers become fewer. A fired timer no later one touches is active and on the list afterwards, with the current tick plus its period as deadline, if and only if it is periodic and its own function did not stop it. A timer that neither fired nor was touched by one that did keeps its activity, its deadline and its place among the others of that kind. |
| `Timers.TimerList.NextTimeout` | Rt-thread AT32/Rt-thread/src/timer.c:108-128 | The earliest deadline of the active timers, or the largest tick when there is none. |
| `Timers.TimerList.Rebase` | Rt-thread AT32/Rt-thread/src/timer.c:361-375 | The window may start anywhere from which all deadlines are in reach: order and invariants do not depend on it, so ticks may wrap. |
| `Pages.TakeTakes` | Rt-thread AT32/Rt-thread/src/slab.c:236-270 | Taking n pages keeps the list sorted, disjoint and coalesced, removes exactly the pages returned, and fails only when no run is long enough. |
| `Pages.TakeLowest` | Rt-thread AT32/Rt-thread/src/slab.c:246-264 | Where n free pages lie in a row, the call succeeds, and returns the lowest such place. |
| `Pages.PutPuts` | Rt-thread AT32/Rt-thread/src/slab.c:272-322 | Giving back a run keeps the list sorted, disjoint and coalesced, and adds exactly its pages. |
| `Pages.TakePut` | Rt-thread AT32/Rt-thread/src/slab.c:236-322 | Allocating and freeing the same run restores the list. |
| `Pages.Unique` | Rt-thread AT32/Rt-thread/src/slab.c:286-316 | A set of free pages has only one sorted and coalesced list. |
| `Pages.RunsKeep` | Rt-thread AT32/Rt-thread/src/slab.c:236-322 | Over every sequence of allocations and releases, the free list covers exactly the managed pages that are not out, and no page is out twice. |
| `Pages.OnlyOutMatters` | Rt-thread AT32/Rt-thread/src/slab.c:236-322 | The free list depends only on what is still out, not on the history. |
| `Pages.PageList.constructor` | Rt-thread AT32/Rt-thread/src/slab.c:327-334 | The list is the one run given. |
| `Pages.PageList.Alloc` | Rt-thread AT32/Rt-thread/src/slab.c:236-270 | The walk with the pointer to the previous link does exactly that on the links stored in the pages; 0 pages is NULL. |
| `Pages.PageList.Free` | Rt-thread AT32/Rt-thread/src/slab.c:272-322 | The walk with its three cases links the run in, joined with both neighbours where it touches them. |
| `SlabSizes.ZoneIndex` | Rt-thread AT32/Rt-thread/src/slab.c:401-459 | Below 16384 the index and the size written back are those of the class of the size; from there on the size stays and the index is 0. |
| `SlabSizes.ClassUnique` | Rt-thread AT32/Rt-thread/src/slab.c:401-459 | That class is the only one below 72 whose chunks hold the size while those of the class before do not. |
| `SlabSizes.Classes` | Rt-thread AT32/Rt-thread/src/slab.c:401-459 | Classes follow sizes, two requests share one if and only if they are rounded to the same size, and rounding wastes less than 8 bytes or an eighth. |
| `SlabSizes.ZoneHolds` | Rt-thread AT32/Rt-thread/src/slab.c:629-646 | In every zone at least two chunks fit behind the header and before the end, and `z_nmax` is the greatest number that fits. |
| `SlabSizes.Pow2TestCorrect` | Rt-thread AT32/Rt-thread/src/slab.c:635 | On the chunk sizes as 16-bit words, the bit expression picks exactly the powers of two. |
| `SlabSizes.Pow2Kept` | Rt-thread AT32/Rt-thread/src/slab.c:401-459 | A power-of-two request from 8 bytes on is not rounded. |
| `SlabSizes.ChunkAligned` | Rt-thread AT32/Rt-thread/src/slab.c:629-644 | A chunk of a power-of-two size is aligned to it if and only if its zone is; up to a page that is always so. |
| `SlabSizes.ChunkUnaligned` | Rt-thread AT32/Rt-thread/src/slab.c:602-644 | A zone on an odd page has 8192-byte chunks that are not aligned to 8192. |
| `SlabSizes.CarvedApart` | Rt-thread AT32/Rt-thread/src/slab.c:559 | The chunks of a zone do not overlap. |
| `Slab.ZoneCounts` | Rt-thread AT32/Rt-thread/src/slab.c:642-646 | In a well formed zone `z_nfree` is `z_nmax` less the live chunks, and equals `z_nmax` exactly when none is live. |
| `Slab.TakeNew` | Rt-thread AT32/Rt-thread/src/slab.c:556-560 | Taking the next unused chunk keeps the zone well formed. |
| `Slab.TakeOld` | Rt-thread AT32/Rt-thread/src/slab.c:561-568 | Taking the first chained chunk keeps the zone well formed. |
| `Slab.GiveBack` | Rt-thread AT32/Rt-thread/src/slab.c:830-842 | Chaining a live chunk keeps the zone well formed. |
| `SlabHeap.Heap.constructor` | Rt-thread AT32/Rt-thread/src/slab.c:344-395 | The whole pages are one run less the page map, with no zone and no block; the zone size is 32, 64 or 128 KB as the heap size says. |
| `SlabHeap.Heap.TakeChunk` | Rt-thread AT32/Rt-thread/src/slab.c:539-577 | The first zone of the row gives a chunk that was no block, of the size of the class, and leaves the row when that was its last. |
| `SlabHeap.Heap.StartZone` | Rt-thread AT32/Rt-thread/src/slab.c:626-652 | A zone set up for a class hands out its first chunk and becomes the first of the row. |
| `SlabHeap.Heap.Adopt` | Rt-thread AT32/Rt-thread/src/slab.c:602-622 | The page map leads every page of the new zone back to its header. |
| `SlabHeap.Heap.Malloc` | Rt-thread AT32/Rt-thread/src/slab.c:478-667 | NULL exactly when the size is 0, when it rounds past 2^32, or when its class has no listed zone, no zone is spare and the page list has no run long enough, or, for whole pages, no such run; otherwise a new block of the class's chunk size, or of whole pages, and no other block changes. |
| `SlabHeap.Heap.SmallRefused` | Rt-thread AT32/Rt-thread/src/slab.c:539-610 | So a small request fails exactly when every zone of its class is full, no zone is spare and no run of free pages holds a zone. |
| `SlabHeap.Heap.GiveChunk` | Rt-thread AT32/Rt-thread/src/slab.c:826-846 | The chunk is a block no more, and the zone is back on its row when it had been full. |
| `SlabHeap.Heap.Unlink` | Rt-thread AT32/Rt-thread/src/slab.c:863-866 | The walk finds the zone in its row and takes it out. |
| `SlabHeap.Heap.Retire` | Rt-thread AT32/Rt-thread/src/slab.c:854-874 | An empty zone leaves its row for the spare zones. |
| `SlabHeap.Heap.DropSpare` | Rt-thread AT32/Rt-thread/src/slab.c:877-897 | A surplus spare zone gives all its pages back, and the page map forgets them. |
| `SlabHeap.Heap.Free` | Rt-thread AT32/Rt-thread/src/slab.c:771-904 | NULL changes nothing; otherwise exactly that block is gone, and at most two spare zones are kept. |
| `SlabHeap.Heap.Realloc` | Rt-thread AT32/Rt-thread/src/slab.c:678-735 | The same block if and only if it is a chunk and the size is not 0 and rounds to its chunk size; NULL exactly when the size is 0, or the block does not stay and `rt_malloc` has no room for the size, rounded first for a chunk; otherwise a new block at least as long as asked for in place of the old one, with the shorter of both lengths copied. NULL leaves everything unless the size is 0. |
| `SlabHeap.Heap.BlockHome` | Rt-thread AT32/Rt-thread/src/slab.c:795-828 | Every block lies in the pages of one zone behind its header, or fills those of one large allocation. |
| `SlabHeap.Heap.BlocksDisjoint` | Rt-thread AT32/Rt-thread/src/slab.c:478-667 | In every reachable heap, blocks do not overlap. |
| `SlabHeap.Heap.ZoneAccounts` | Rt-thread AT32/Rt-thread/src/slab.c:539-577 | For every live zone: `z_nfree` is `z_nmax - 1 - z_uindex` plus the length of its chunk chain and also `z_nmax` less its live chunks, and it is on the row of its class, and no other, if and only if that is positive. |
| `SlabHeap.Heap.PageAccounts` | Rt-thread AT32/Rt-thread/src/slab.c:616-622 | Every page is on the page list, with a caller, in a zone or in a large block, and the page map leads each page of a zone back to its header. |
| `SlabHeap.Heap.SparesEmpty` | Rt-thread AT32/Rt-thread/src/slab.c:868-900 | Spare zones hold no block, and there are as many as `zone_free_cnt` says, at most two. |
| `JsonStrings.StringRoundTrip` | Rt-thread AT32/at32f403a-proj/packages/cJSON.c:199-314 | Unescaping the printed form of any NUL-free string gives the string back and stops behind the closing quote. |
| `JsonStrings.LiteralMeans` | Rt-thread AT32/at32f403a-proj/packages/cJSON.c:199-256 | Every string literal the parser takes, those of section 7 of RFC 8259 among them with its table of two-character escapes, is read to its closing quote, whatever follows, as what it denotes. |
| `JsonStrings.LiteralTaken` | Rt-thread AT32/at32f403a-proj/packages/cJSON.c:199-256 | And it takes no other: bytes but quote and backslash, a backslash with any byte behind it, \u with any four bytes but these two, and at the end a quote or the end of the text. |
| `JsonStrings.SpelledIs` | Rt-thread AT32/at32f403a-proj/packages/cJSON.c:259-314 | What `print_string_ptr` writes is a literal of that section, and it denotes the string. |
| `JsonStrings.CountCovers` | Rt-thread AT32/at32f403a-proj/packages/cJSON.c:204-206 | For every literal in which no escape takes in the closing quote, a backslash or the end of the text, the pre-counted buffer covers what the copying loop stores. |
| `JsonStrings.EncodeIsUtf8` | Rt-thread AT32/at32f403a-proj/packages/cJSON.c:236-244 | The bytes stored for a Unicode scalar are its UTF-8 form of section 3 of RFC 3629. |
| `JsonStrings.Utf8Unique` | Rt-thread AT32/at32f403a-proj/packages/cJSON.c:236-244 | That form is the only one. |
| `JsonStrings.LowBits` | Rt-thread AT32/at32f403a-proj/packages/cJSON.c:239-241 | The or and and of the source make the lowest six bits a continuation byte. |
| `JsonStrings.MarkTwo` | Rt-thread AT32/at32f403a-proj/packages/cJSON.c:242 | The mark of a two-byte form adds to the leading bits. |
| `JsonStrings.MarkThree` | Rt-thread AT32/at32f403a-proj/packages/cJSON.c:242 | The mark of a three-byte form adds to the leading bits. |
| `JsonStrings.MarkFour` | Rt-thread AT32/at32f403a-proj/packages/cJSON.c:242 | The mark of a four-byte form adds to the leading bits. |
| `JsonStrings.PairBits` | Rt-thread AT32/at32f403a-proj/packages/cJSON.c:233 | The shift and or of the two surrogate halves add up to the offset from the basic plane. |
| `JsonStrings.BasicEscape` | Rt-thread AT32/at32f403a-proj/packages/cJSON.c:223-245 | Four hexadecimal digits for a non-zero scalar of the basic plane decode to exactly its UTF-8 form. |
| `JsonStrings.PairEscape` | Rt-thread AT32/at32f403a-proj/packages/cJSON.c:228-245 | The surrogate pair of section 7 of RFC 8259 for a scalar beyond it decodes to exactly its UTF-8 form. |
| `JsonStrings.MalformedEscape` | Rt-thread AT32/at32f403a-proj/packages/cJSON.c:184-233 | Four characters that are not all hexadecimal digits stand for nothing, and a high surrogate followed by such an escape is dropped along with it. |
| `Json.NumberDenotes` | Rt-thread AT32/at32f403a-proj/packages/cJSON.c:103-122 | Every number of section 6 of RFC 8259, with any sign, fraction and exponent, and every other the parser takes, is read to its end, whatever may follow it, as exactly what it denotes over the reals; it is an integer item exactly when it has neither fraction nor exponent and fits 32 bits. |
| `Json.NumberRoundTrip` | Rt-thread AT32/at32f403a-proj/packages/cJSON.c:103-180 | Every 32-bit integer is read back from its printed text, whatever may follow it. |
| `Json.NumberSplit` | Rt-thread AT32/at32f403a-proj/packages/cJSON.c:103-122 | What `parse_number` reads is such a number: besides those of the grammar, one without digits behind its sign or its exponent mark, or with a zero in front. |
| `JsonTexts.TextParses` | Rt-thread AT32/at32f403a-proj/packages/cJSON.c:330-376 | Every text of RFC 8259, with any whitespace of section 2 at each place the grammar allows, is parsed as the tree it stands for, and consumed as a whole. |
| `JsonTexts.ValueParses` | Rt-thread AT32/at32f403a-proj/packages/cJSON.c:364-554 | Every value the parser takes is read to its end, whatever may follow it, as what it means: a larger family, with any byte up to the blank as whitespace and the strings and numbers above. |
| `JsonTexts.GrammarTaken` | Rt-thread AT32/at32f403a-proj/packages/cJSON.c:364-554 | All values of the grammar are among them. |
| `JsonTexts.TakenParses` | Rt-thread AT32/at32f403a-proj/packages/cJSON.c:330-346 | The same for whole texts. |
| `JsonTexts.OpenStringParses` | Rt-thread AT32/at32f403a-proj/packages/cJSON.c:206 | A string that is the whole text needs no closing quote. |
| `JsonTexts.ValueTaken` | Rt-thread AT32/at32f403a-proj/packages/cJSON.c:364-554 | Whatever `parse_value` accepts is such a value, with that meaning: no comma, colon, bracket or quote is missing or too many. |
| `JsonTexts.TextTaken` | Rt-thread AT32/at32f403a-proj/packages/cJSON.c:330-346 | A text accepted as a whole is such a text, or the string without its closing quote. |
| `JsonLayout.PrintWritten` | Rt-thread AT32/at32f403a-proj/packages/cJSON.c:379-665 | At any depth, what the printers emit is the text of RFC 8259 for the tree in this layout: formatted, array elements are separated by a comma and a blank, each member stands on a line of its own, one tab deeper than its closing brace, with a tab behind the colon, and an empty object has its brace on the next line, one tab less deep; unformatted, there is no whitespace. |
| `JsonLayout.RoundTrip` | Rt-thread AT32/at32f403a-proj/packages/cJSON.c:364-665 | At any depth, formatted or not, parsing the text of a tree gives the tree and leaves exactly what followed the text. |
| `JsonLayout.ParsePrint` | Rt-thread AT32/at32f403a-proj/packages/cJSON.c:330-350 | For every tree of null, true, false, 32-bit integers, NUL-free strings, arrays and objects: parsing its formatted or unformatted text yields the same tree and consumes the whole text, with or without the check for trailing garbage. |
| `JsonLayout.MinifyGap` | Rt-thread AT32/at32f403a-proj/packages/cJSON.c:747-752 | Whitespace and comments, to the end of the line or between their marks, vanish in any number and order. |
| `JsonLayout.LiteralBecomes` | Rt-thread AT32/at32f403a-proj/packages/cJSON.c:753 | A string literal stays as it is, with whatever it holds. |
| `JsonLayout.MinifyWritten` | Rt-thread AT32/at32f403a-proj/packages/cJSON.c:742-757 | Of every text of RFC 8259 with whitespace and comments at each place that allows whitespace, exactly the tokens are left, in order and with nothing between them, whatever follows. |
| `JsonLayout.TextMinifies` | Rt-thread AT32/at32f403a-proj/packages/cJSON.c:742-757 | The same for whole texts, where a comment may also run to the end; and parsing what is left gives what the text meant. |
| `JsonLayout.OddComment` | Rt-thread AT32/at32f403a-proj/packages/cJSON.c:752 | A comment whose text starts with a slash ends right there for `cJSON_Minify`, and the rest of it stays. |
| `JsonLayout.OddExample` | Rt-thread AT32/at32f403a-proj/packages/cJSON.c:752 | So of one that holds a single slash, its end mark is left. |
| `JsonLayout.MinifyValue` | Rt-thread AT32/at32f403a-proj/packages/cJSON.c:742-757 | Minifying the formatted text of a value at any depth leaves its unformatted text, and goes on behind it. |
| `JsonLayout.MinifyPrint` | Rt-thread AT32/at32f403a-proj/packages/cJSON.c:742-757 | For every such tree, minifying what `cJSON_Print` gives is what `cJSON_PrintUnformatted` gives. |
| `JsonPrinter.NeedsEscape` | Rt-thread AT32/at32f403a-proj/packages/cJSON.c:263 | When the first loop finds nothing, escaping the string is copying it. |
| `JsonPrinter.EscapedLength` | Rt-thread AT32/at32f403a-proj/packages/cJSON.c:285 | The counting loop counts the escaped characters. |
| `JsonPrinter.QuotedSize` | Rt-thread AT32/at32f403a-proj/packages/cJSON.c:263-289 | The allocation of the counted length plus 3 is exactly the literal and its NUL, on both branches. |
| `JsonPrinter.WriteEscaped` | Rt-thread AT32/at32f403a-proj/packages/cJSON.c:291-311 | The writing loop puts exactly the escaped string at its place and touches nothing else. |
| `JsonPrinter.PrintStringNew` | Rt-thread AT32/at32f403a-proj/packages/cJSON.c:259-314 | The allocation is filled completely with the literal and its NUL. |
| `JsonPrinter.PrintBuffer.Ensure` | Rt-thread AT32/at32f403a-proj/packages/cJSON.c:128-143 | Succeeds exactly when there is a buffer and the sum of offset and need is at most its length or 2^30; then there is room, everything written is kept, and a buffer that had to grow has the least power of two that suffices. Otherwise there is no buffer any more. |
| `PowerOfTwo.Pow2gtSign` | Rt-thread AT32/at32f403a-proj/packages/cJSON.c:124 | For every positive int, `pow2gt` gives a positive int if and only if it is at most 2^30, and the least int beyond. |
| `PowerOfTwo.Pow2gtExact` | Rt-thread AT32/at32f403a-proj/packages/cJSON.c:124 | So for every positive int it is the least power of two not below it if and only if it is at most 2^30, and always the size the growing buffer asks for. |
| `PowerOfTwo.Pow2gtCorrect` | Rt-thread AT32/at32f403a-proj/packages/cJSON.c:124 | For 1 to 2^30, the bit smearing yields the least power of two that is not smaller. |
| `PowerOfTwo.Pow2gtOverflows` | Rt-thread AT32/at32f403a-proj/packages/cJSON.c:124 | The first input beyond: 2^30 + 1 gives 2^31, which is negative as an int. |
| `JsonPrinter.PrintBuffer.Update` | Rt-thread AT32/at32f403a-proj/packages/cJSON.c:145-151 | The offset moves behind the string that starts there. |
| `JsonPrinter.PrintBuffer.PrintString` | Rt-thread AT32/at32f403a-proj/packages/cJSON.c:259-314 | Where the buffer reaches, or can grow to, the literal stands at the offset and everything in front is as before, even if the buffer moved; otherwise, and only then, the result is null. |
| `JsonPrinter.PrintBuffer.PrintArray` | Rt-thread AT32/at32f403a-proj/packages/cJSON.c:460-475 | The same for an array with all its elements. |
| `JsonPrinter.PrintBuffer.PrintObject` | Rt-thread AT32/at32f403a-proj/packages/cJSON.c:577-614 | The same for an object with all its members. |
| `JsonPrinter.PrintBuffer.PrintValue` | Rt-thread AT32/at32f403a-proj/packages/cJSON.c:379-410 | The same for any value at any depth, wherever the buffer has to grow on the way: null exactly when the greatest sum of offset and need on the way exceeds both 2^30 and the buffer, or there was none; a failure inside leads to null although the callers do not look at it. |
| `JsonPrinter.PeakNear` | Rt-thread AT32/at32f403a-proj/packages/cJSON.c:128-614 | The greatest room asked for exceeds the text by its NUL at least and by 20 characters at most. |
| `JsonPrinter.ItemsFit` | Rt-thread AT32/at32f403a-proj/packages/cJSON.c:483-493 | The precomputed size of an array's text covers it. |
| `JsonPrinter.MembersFit` | Rt-thread AT32/at32f403a-proj/packages/cJSON.c:625-636 | The precomputed size of an object's text covers it. |
| `JsonPrinter.PrintArrayNew` | Rt-thread AT32/at32f403a-proj/packages/cJSON.c:441-517 | The composed text is that of the array and fits its allocation. |
| `JsonPrinter.PrintObjectNew` | Rt-thread AT32/at32f403a-proj/packages/cJSON.c:557-665 | The composed text is that of the object and fits its allocation. |
| `JsonPrinter.PrintBuffered` | Rt-thread AT32/at32f403a-proj/packages/cJSON.c:352-360 | For every initial size: the text of unbuffered printing if that size is positive and the greatest sum asked for is at most it or 2^30, and null otherwise. |
| `JsonPrinter.PrintUnbuffered` | Rt-thread AT32/at32f403a-proj/packages/cJSON.c:349-350 | The returned C string is the text of the tree. |
| `JsonParser.SkipSpace` | Rt-thread AT32/at32f403a-proj/packages/cJSON.c:327 | The pointer stops where the whitespace ends, or at the NUL. |
| `JsonParser.CountString` | Rt-thread AT32/at32f403a-proj/packages/cJSON.c:204 | The counting loop, on a literal it does not step out of, counts the characters with each backslash and its follower as one. |
| `JsonParser.LiteralsClose` | Rt-thread AT32/at32f403a-proj/packages/cJSON.c:204 | It never steps over the end of the text where no escape takes in the closing quote, a backslash or that end. |
| `JsonParser.StoreUtf8` | Rt-thread AT32/at32f403a-proj/packages/cJSON.c:236-244 | The switch that stores from the last byte to the first writes exactly the bytes of the code point and no others. |
| `JsonParser.Transcode` | Rt-thread AT32/at32f403a-proj/packages/cJSON.c:184-245 | The case for \u stores what the escape stands for, nothing if it is malformed, and leaves the pointer on the last character read. |
| `JsonParser.StringAt` | Rt-thread AT32/at32f403a-proj/packages/cJSON.c:199-256 | The moving pointers compute exactly the unescaped string, the place behind it, and never overrun the counted buffer; no string starts without a quote. |
| `JsonParser.NumberAt` | Rt-thread AT32/at32f403a-proj/packages/cJSON.c:103-122 | The loops over integer, fraction and exponent read exactly the number and stop behind it, on any text that starts with a digit or a minus sign. |
| `JsonParser.ArrayAt` | Rt-thread AT32/at32f403a-proj/packages/cJSON.c:413-438 | The loop that appends children builds exactly the array of the text, or fails where the text is malformed. |
| `JsonParser.ObjectAt` | Rt-thread AT32/at32f403a-proj/packages/cJSON.c:521-554 | The same for objects and their names. |
| `JsonParser.ValueAt` | Rt-thread AT32/at32f403a-proj/packages/cJSON.c:364-376 | Unless an escape takes in the end of its literal, the parser succeeds exactly when the text has a value, and returns it with the place behind it. |
| `JsonParser.ParseText` | Rt-thread AT32/at32f403a-proj/packages/cJSON.c:330-346 | The same for whole texts, with or without the check for trailing garbage. |
| `JsonParser.CopyString` | Rt-thread AT32/at32f403a-proj/packages/cJSON.c:753 | A literal is moved forward byte by byte, an escaped quote along with its backslash, before anything unread is overwritten. |
| `JsonParser.MinifyInPlace` | Rt-thread AT32/at32f403a-proj/packages/cJSON.c:742-757 | The in-place compaction leaves exactly the minified text and its NUL, and nothing behind the old NUL changes. |

## Left out

- JsonPrinter.PrintBuffered: the sums of offset and need are ints, and an allocation fails when its size is not a positive int, which is where `pow2gt` leads beyond 2^30 (`PowerOfTwo.Pow2gtSign`, `Pow2gtOverflows`); other failures of malloc are not modelled.
- JsonPrinter.PrintBuffer.Ensure: its new size is given as `NewSize`, a number; `PowerOfTwo.Pow2gtExact` is what connects it to the bit operations on words. An empty array stands for the null pointer.
- JsonParser.ValueAt: promises nothing where the four characters skipped behind a \u take in a quote, a backslash or the end of the text, or a backslash ends it: there the source leaves its text or its buffer. Such texts are `Outside` in the functions it computes.
- JsonParser.StringAt: the same texts, as in `CountString` and `Transcode`.
- JsonTexts.TextTaken: of the same texts it is not said that they are refused.
- JsonParser.ArrayAt: the same texts, as in `ObjectAt`.
- JsonParser.NumberAt: values over the reals, without the rounding of `valuedouble`, the conversion to `valueint` beyond 32 bits, or a bound on the exponent's digits.
- JsonParser.ParseText: the same texts; the error pointer `ep` is not modelled.
- JsonParser.MinifyInPlace: an open comment or string makes the source read past the NUL; those texts are excluded.
- Timers.TimerList.Start: deadlines lie in a window of less than half the tick range, as the source asserts of each delay; `WindowExact` says why.
- Timers.TimerList.Stop: like `Start` it is the sequence of its sections with nothing in between, as when interrupts are disabled throughout; `InsertSafe`, `StartGap` and `ClearFlag` treat what a timeout function can do in between.
- Timers.TimerList.Check: one tick count for the whole check; timeout functions are sequences of starts and stops; a one-shot timer is not started by its own function, whose flag the source clears afterwards; periods are at least 1.
- Mutexes.RunKeeps: RT_IPC_FLAG_PRIO, one mutex per thread, no priority change from outside, and at most 255 nested takes; `FifoHandoff`, `FifoInverts` and `HoldWraps` treat what lies beyond two of these.
- Kernel.Kernel.Suspend: the source reads the state before it disables interrupts; here both are one section.
- Kernel.Kernel.ListSuspend: the thread is READY or RUNNING; every caller passes the running one.
- Kernel.Kernel.EnterCritical: the 16-bit nesting count does not overflow, which the source does not check either.
- MessageQueues.MessageQueue.Fill: a message longer than a cell is refused before the first section, where the call ends.
- Mailboxes.Mailbox.constructor: fewer than 65536 slots; the source truncates the size to 16 bits.
- MessageQueues.MessageQueue.constructor: fewer than 65536 messages.
- MemPools.MemPool.constructor: room for at least one block; with less the source writes in front of the pool.
- MemHeap.Pool.constructor: room for two headers, the free-list header outside the pool, and a region below 2^32.
- SmallMem.Heap.constructor: room for two headers and a minimal block; a smaller region is refused with a message or too small for the scan bound.
- SlabHeap.Heap.constructor: at least one page; without one the source prints a message.
- SlabHeap.Heap.Realloc: says how many bytes are copied, not which; the bytes of slab blocks are not modelled, nor are the memory statistics.
- SlabSizes.Pow2TestCorrect: on 16-bit words, which hold every chunk size.
- Block headers are fields of maps, not bytes of the heap: an operation may leave any bytes in header areas (`Clobber`), so overlapping headers after `Spoils` are not followed further. `heap_end->prev` of `mem.c`, which goes stale, is not kept.
- The locks of the allocators are taken and released without contention; each locked part is a section. Those of the slab keep its invariant and may interleave.
- The kernel starts with a running thread. Context switching, stacks, hooks, signals, idle-thread reclamation and the SMP branches are not modelled; priorities are below 32 in `Kernel`, the two-level index for up to 256 is `ReadyBitmap.TwoLevel`.
- `rt_thread_resume` and `rt_thread_delete` of another thread while it waits on an object, deleting and detaching objects, and a priority change of a waiting thread are steps of the kernel but not of the object's runs.
- A thread's timer is a flag in `Kernel`; that timers fire at their deadline is the matter of `TimerList`, and the remaining time of a resumed wait is a parameter.
- A waiter's event wish is stored with the event object, not with the thread.
- Soft timers, `rt_thread_delay_until`, `rt_thread_yield`, `rt_timer_control` and the list dumps.
- `rt_calloc`, and the wrappers of `memheap.c` that search several heaps.
- cJSON nodes are values: deleting, detaching, references, case-insensitive lookup and allocation failure are not modelled, nor is the printing of numbers that are not 32-bit integers.
