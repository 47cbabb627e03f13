# Verified models of the post office's core libraries

This project models eight source files of the post office in Dafny and proves
what they promise.  `dafny verify dfyconfig.toml` checks all of it.

- **The lock-free ring buffer** (`RingMachine`, `RingInvariant`, `RingSafety`,
  `RingRuns`, `RingCalls`, `RingProgress`, `RingPeek`, `RingWords`, `RingAlone`,
  `RingFarPeek`, `RingStall`, `RingBuffer`).  A transition system with any
  number of threads, in which every atomic load, compare-and-swap, item access
  and sequence store is one step under sequential consistency; the acquire and
  release pairs of section 7.17.3 of ISO/IEC 9899:2011 justify that order for
  the published items.  One step function, `RingMachine.Step`, serves two
  machines, with unbounded positions and with 64-bit words.  The class `RingBuf`
  is the same object as one thread sees it.
- **LMDB's ID lists** (`IdLists`, `IdListSort`, `IdListMerge`, `IdListSearch`,
  `IdListGrow`).  The in-place quicksort with its bounded stack, the in-place
  merge with its sentinel, binary search, insertion and appending, on arrays.
- **The wait group** (`WaitGroup`).  Counter, mutex and condition variable as a
  transition system over any number of threads.  Releasing the mutex and
  blocking are one step, as POSIX.1-2017 says of `pthread_cond_wait`.
- **Clay's arena** (`Arena`) and **Clay's text-measurement cache**
  (`TextTokens`, `Slots`, `WordPool`, `CacheModel`, `CacheGrow`, `CacheFate`,
  `CacheRoom`, `CacheScan`, `CacheFill`, `CacheKeep`, `TextCache`).  The cache is
  a class over the context's arrays; its invariant says where every slot of both
  arrays is.  `CacheMemory` puts its arrays in the arena.
- **Random numbers, shuffling and primes** (`Random`, `RandomNumbers`,
  `Shuffle`, `Prime`, `NextPrime`, with word arithmetic in `Bits` and
  `WordNumber`).  `PrimeCertificate` and
  `LastPrime` show that 2^64 - 59 is the largest 64-bit prime.
- **INI parsing and configurations** (`IniText`, `IniLines`, `IniParser`,
  `IniGrammar`, `IniReading`, `ConfigModel`, `ConfigKeys`, `ConfigLoad`,
  `ConfigErrors`, `ConfigContinue`).  The line buffer is cut in place; the
  configuration is the parser's handler.

Code that updates things in place is a class or a method with loops, proved
against functions on values; protocols are transition functions on values.

What comes from outside is a parameter: the scheduler's choices (`Choice`), the
entropy of automatic seeding (`Entropy`), struct sizes (`Arena.Config`), the
text-measuring function and the text hash (`Params`), the text of a file.

## Where the code decides against its documentation

- The header of the ring buffer calls it single-producer, single-consumer; the
  code is multi-producer, multi-consumer, and that is what is proved.
- The header asks for a capacity of at least 2, `perf_ringbuf_create` accepts 1.
  `SafeIffTwoSlots` shows that 1 is not safe, and that everything else is.
- `perf_ringbuf_advance` is documented to drop exactly n items or fail; when it
  fails it has dropped all there were.
- `perf_ringbuf_count` compares the wrapped counters and returns 0 while the
  tail has wrapped and the head has not.
- `mdb_midl_search` is documented to find the first ID greater than or equal to
  the one sought; on these descending lists it finds the first that is not
  greater.
- `is_prime` multiplies i * i in 64 bits, which wraps for large n.  It is exact
  all the same, because -7 is a square modulo 2^64.
- `next_prime` returns 2 from n = 2^64 - 59 on, because no prime above fits.
- `Clay_MinMemorySize` cuts its result to 32 bits, and
  `Clay__Array_Allocate_Arena` cuts each array's size to 32 bits, so that
  `Clay_Initialize` can report success without room for an array.  `RoomForAll`
  says exactly when there is room for all of them; `SizeWraps` and `WholeIsCut`
  are configurations without it.
- `Clay_Initialize` aligns the base of the buffer and does not take the shift,
  of up to 63 bytes, from its size.  `ReservedInside` says when the buffer is
  large enough all the same, as one of the minimum size is if that is not cut.
- `Clay__WarningArray_Allocate_Arena` reserves room for strings where warnings
  would be stored, which are two strings each; nothing is ever stored there.
- Clay's check for a full array of words looks for one slot left, and a newline
  may take two.  A text that fails the check loses its entry and the words it
  had; an array that is one short of full takes no new text until it is reset.
- `perf_ringbuf_peek_at` at an offset within `cap` of 2^64 reaches back behind
  the head, to a slot that a dequeuer may have claimed (`PeekAgreesIff`).
- inih passes a continued value to the handler under the name it continues.
  Strict loading takes that for a repeated key, and non-strict lookup never sees
  it, as long as the name fits the parser's buffer; `LongNameContinued` is a
  text whose name does not.
- inih looks for the last character of each piece of an overlong line that it
  discards, and a piece that begins with a NUL has none; `Readable` are the texts
  without such a piece, `NulOverrun` is one that is not.
- The configuration joins section and name by a dot, so that names of different
  sections can share a key; `SameKey` says exactly which, `SharedKey` is a pair.
- Clay takes a text's bucket modulo a 32nd of the word limit and has as many
  buckets as elements; `BucketsInside` says when that is enough.

## Model

| member | source | states |
|---|---|---|
| RingMachine.SlotIsMasked | app/libs/ring0/postoffice/perf/ringbuf.c:104 | For a power-of-two capacity, `pos & mask` is the slot that the lap-by-lap definition gives. |
| RingInvariant.StartInv | app/libs/ring0/postoffice/perf/ringbuf.c:46-83 | A new buffer of two slots or more satisfies the invariant, whatever the number of threads. |
| RingInvariant.TailBehind | app/libs/ring0/postoffice/perf/ringbuf.c:108-122 | A slot that is behind a saved tail shows that the saved tail is the shared one and that the position one lap earlier is not released. |
| RingInvariant.TailReady | app/libs/ring0/postoffice/perf/ringbuf.c:108-113 | A ready slot at the shared tail means there is room. |
| RingInvariant.HeadBehind | app/libs/ring0/postoffice/perf/ringbuf.c:143-154 | A slot that is behind a saved head shows that the saved head is the shared one and the queue is empty or its first item unpublished. |
| RingInvariant.HeadReady | app/libs/ring0/postoffice/perf/ringbuf.c:143-148 | A published slot at the shared head holds a queued item whose enqueuer has finished. |
| RingInvariant.NextKeepsInv | app/libs/ring0/postoffice/perf/ringbuf.c:99-195 | Every step of every thread (load, compare-and-swap, item access, sequence store) keeps the invariant. |
| RingInvariant.RunKeepsInv | app/libs/ring0/postoffice/perf/ringbuf.c:99-195 | The invariant holds after every run of any number of threads. |
| RingSafety.SlotHasOneState | app/libs/ring0/postoffice/perf/ringbuf.c:99-164 | Each slot is in exactly one of four states: free for p, claimed by the one enqueuer of p, holding p's item, claimed by the one dequeuer of p. The states are read off the machine alone. |
| RingSafety.ExclusiveSlots | app/libs/ring0/postoffice/perf/ringbuf.c:124-161 | Two threads between their claim and their sequence store never share a slot. |
| RingSafety.StepRefinesQueue | app/libs/ring0/postoffice/perf/ringbuf.c:99-164 | Each step is a step of a bounded FIFO queue: winning the tail appends the item to a queue with room, winning the head removes and promises the first item, every other step is silent. |
| RingSafety.PromiseKept | app/libs/ring0/postoffice/perf/ringbuf.c:157-163 | No step changes the item promised to a dequeuer, and its return hands over exactly that item. |
| RingSafety.FullIsHonest | app/libs/ring0/postoffice/perf/ringbuf.c:108-122 | Whatever step reports full is an enqueue whose saved tail is the shared tail, with the ring full or the dequeuer one lap back still copying. |
| RingSafety.EmptyIsHonest | app/libs/ring0/postoffice/perf/ringbuf.c:143-154 | Whatever step reports empty is a dequeue whose saved head is the shared head, with the queue empty or its first item unpublished. |
| RingSafety.MissIsHonest | app/libs/ring0/postoffice/perf/ringbuf.c:184-195 | Whatever step reports a failed peek is a peek whose position holds no published item: it is outside the queue or still being stored. |
| RingSafety.FullIsExactAlone | app/libs/ring0/postoffice/perf/ringbuf.c:108-122 | With no other call in flight, full is reported exactly when the queue has `cap` items. |
| RingSafety.EmptyIsExactAlone | app/libs/ring0/postoffice/perf/ringbuf.c:143-154 | With no other call in flight, empty is reported exactly when the queue has no items. |
| RingRuns.SafeIffTwoSlots | app/libs/ring0/postoffice/perf/ringbuf.c:47-50 | Over all reachable states: slots are exclusive and `tail - head <= cap` always, if and only if the capacity is at least two. |
| RingRuns.OneSlotOverruns | app/libs/ring0/postoffice/perf/ringbuf.c:47-50 | A concrete run of a one-slot buffer, which create accepts: items x and y are both stored, nothing is taken, tail - head is 2, and the only slot holds y. |
| RingRuns.Conservation | app/libs/ring0/postoffice/perf/ringbuf.c:99-164 | When all calls of a run have returned: positions below head were stored once and taken once, positions from head to tail stored once and not taken, others neither, and the item taken at a position is the item stored there. |
| RingCalls.StepAnswers | app/libs/ring0/postoffice/perf/ringbuf.c:99-195 | A step returns a call exactly when it tells its caller one thing, an answer to that very call with its item or offset; until then the call in flight stays the one that was made, and no other thread moves. |
| RingCalls.CallsAreAnswered | app/libs/ring0/postoffice/perf/ringbuf.c:99-195 | Over every run, for every thread: the calls it has made are, in order and by kind, item and offset, those answered by what it was told, and at most one more, the one in flight. |
| RingProgress.RetryMeansOvertaken | app/libs/ring0/postoffice/perf/ringbuf.c:102-132 | Enqueue and dequeue go back in their loops, spurious failures apart, only if another thread has moved the shared tail or head past the saved one. |
| RingProgress.LoserRetries | app/libs/ring0/postoffice/perf/ringbuf.c:111-122 | A thread that loses the race for the tail or head goes on with the position it found there, and the same item; nothing else changes. |
| RingProgress.WorkIsBounded | app/libs/ring0/postoffice/perf/ringbuf.c:99-195 | Lock-freedom over every run of n threads: the number of steps is at most (6 + 2n) times the calls made plus twice the spurious compare-and-swap failures, however the threads interleave. |
| RingPeek.PeekForetells | app/libs/ring0/postoffice/perf/ringbuf.c:172-195 | With one consumer and any producers, a successful peek_at(idx) returns the item of the (idx + 1)-th dequeue that returns after it, for every idx. |
| RingPeek.ConsumerSeesTailOrder | app/libs/ring0/postoffice/perf/ringbuf.c:134-164 | With one consumer, the i-th dequeue returns the item of the i-th claim of the tail. |
| RingPeek.PublishedAhead | app/libs/ring0/postoffice/perf/ringbuf.c:184-195 | A slot that reads as published for a position ahead of the head holds that very position, however far ahead. |
| RingWords.SignedDiffExact | app/libs/ring0/postoffice/perf/ringbuf.c:106-108 | The wrapping signed difference of two wrapped positions is the true difference if and only if that fits a signed 64-bit word. |
| RingWords.FooledIff | app/libs/ring0/postoffice/perf/ringbuf.c:184-195 | On 64-bit words a peek at any of the 2^64 positions ahead of the head reads `published` for a position that is not in the slot, if and only if that position, 2^64 back, is claimed by a dequeuer and not released. |
| RingWords.WordStepAgrees | app/libs/ring0/postoffice/perf/ringbuf.c:99-195 | One step on 64-bit words is the unbounded step, wrapped: for a loop that compares a saved position lagging by L with L + cap < 2^63, for a compare-and-swap with L < 2^64, for a peek at any of the 2^64 positions ahead of the head, unless it has come around to one being taken. |
| RingWords.WordRunAgrees | app/libs/ring0/postoffice/perf/ringbuf.c:99-195 | Every run on words is the unbounded run, wrapped, across any number of wrap-arounds, for power-of-two capacities and threads that never stall beyond the lag bound. |
| RingFarPeek.PeekAgreesIff | app/libs/ring0/postoffice/perf/ringbuf.c:184-195 | For every power-of-two capacity and every offset idx below 2^64: in all reachable states a peek at head + idx on words does what the unbounded machine does, if and only if idx + cap < 2^64. |
| RingFarPeek.TakenFools | app/libs/ring0/postoffice/perf/ringbuf.c:184-195 | Where it does not, it goes on to read the item of an unfinished dequeue, though nothing is there. |
| RingStall.StalledEnqueue | app/libs/ring0/postoffice/perf/ringbuf.c:104-122 | The lag bound is needed: for every power-of-two capacity there is a run in which a thread stalls while 2^63 items come and go, and its enqueue on words reports the empty buffer full. |
| RingBuffer.AheadCell | app/libs/ring0/postoffice/perf/ringbuf.c:184-195 | At rest, the slot at offset idx reads as published exactly when idx is inside the queue, even where head + idx wraps. |
| RingBuffer.RingBuf.Create | app/libs/ring0/postoffice/perf/ringbuf.c:46-83 | Null exactly for capacities that are no power of two; otherwise every slot is free for its first lap, and from two slots on the buffer is an empty queue. |
| RingBuffer.RingBuf.Enqueue | app/libs/ring0/postoffice/perf/ringbuf.c:99-132 | Without concurrency: succeeds exactly when there is room, and then appends the item. |
| RingBuffer.RingBuf.Dequeue | app/libs/ring0/postoffice/perf/ringbuf.c:134-164 | Without concurrency: succeeds exactly when there is an item, and then removes and returns the first one. |
| RingBuffer.RingBuf.Count | app/libs/ring0/postoffice/perf/ringbuf.c:166-170 | The count is the number of items if and only if the buffer is empty or the wrapped head is below the wrapped tail; otherwise it is 0. |
| RingBuffer.RingBuf.CountAfterWrap | app/libs/ring0/postoffice/perf/ringbuf.c:166-170 | After 2^64 - 1 items have come and gone, a buffer that holds one item has the count 0. |
| RingBuffer.RingBuf.Peek | app/libs/ring0/postoffice/perf/ringbuf.c:172-182 | Returns the first item, exactly when there is one. |
| RingBuffer.RingBuf.PeekAt | app/libs/ring0/postoffice/perf/ringbuf.c:184-195 | Succeeds exactly when idx is below the number of items, and returns the item at idx. |
| RingBuffer.RingBuf.Advance | app/libs/ring0/postoffice/perf/ringbuf.c:197-202 | Drops min(n, count) items and succeeds exactly when n <= count. |
| IdListSort.Sort | app/libs/ring0/thirdparty/lmdb/midl.c:214-278 | The list becomes a descending permutation of itself in place; the 64-cell stack never overflows and no cell outside the list is touched; it terminates. |
| IdListSort.InsertionSort | app/libs/ring0/thirdparty/lmdb/midl.c:224-233 | A segment whose left neighbour holds no smaller ID is sorted without touching anything outside it, although the scan is guarded only at index 1. |
| IdListSort.InsertOne | app/libs/ring0/thirdparty/lmdb/midl.c:225-232 | One insertion puts the ID in its place among the sorted cells of the segment. |
| IdListSort.MedianOfThree | app/libs/ring0/thirdparty/lmdb/midl.c:238-250 | Afterwards ids[l] >= ids[l+1] >= ids[ir], and the segment is rearranged only. |
| IdListSort.Scan | app/libs/ring0/thirdparty/lmdb/midl.c:254-260 | Both scans stop inside the segment because of the sentinels, at cells on the wrong side of the pivot. |
| IdListSort.Partition | app/libs/ring0/thirdparty/lmdb/midl.c:238-265 | The segment is rearranged into a part of IDs at least the pivot, the pivot, and a part of IDs at most the pivot. |
| IdListSort.OrderedBoundsLeft | app/libs/ring0/thirdparty/lmdb/midl.c:224-233 | If any two cells not in one open segment are in order, then the cell before the current segment bounds all of it. |
| IdListSort.SortedCloses | app/libs/ring0/thirdparty/lmdb/midl.c:224-237 | Sorting the current segment keeps the order of every two cells not in one of the remaining segments. |
| IdListSort.PartedOpens | app/libs/ring0/thirdparty/lmdb/midl.c:266-275 | Replacing the current segment by its two parts keeps the order and the separation of segments. |
| IdListSort.PushHalves | app/libs/ring0/thirdparty/lmdb/midl.c:266-275 | Pushing the larger part and going on with the smaller keeps: size of segment k times 2^k is at most n. |
| IdListSort.DepthBound | app/libs/ring0/thirdparty/lmdb/midl.c:216 | So fewer than 27 segments are pending whenever one more is pushed. |
| IdListMerge.XMerge | app/libs/ring0/thirdparty/lmdb/midl.c:191-202 | The destination becomes the descending list of the multiset union of both lists; cells behind it are untouched, also when either list is empty. |
| IdListMerge.MergeBack | app/libs/ring0/thirdparty/lmdb/midl.c:193-200 | The unread cells stay as they were while the finished cells grow from the back (k = i + j stays ahead of j). |
| IdListMerge.ShiftOld | app/libs/ring0/thirdparty/lmdb/midl.c:197-198 | The inner loop moves the unread larger-indexed IDs below the next merge ID, and the sentinel in cell 0 stops it. |
| IdListSearch.Search | app/libs/ring0/thirdparty/lmdb/midl.c:35-67 | Finds the cell of an ID that is present; otherwise the cell before which all IDs are larger and from which all are smaller. |
| IdListSearch.Search2 | app/libs/ring0/thirdparty/lmdb/midl.c:280-312 | The first pair whose ID is at least the one sought, in an ascending list. |
| IdListSearch.Insert | app/libs/ring0/thirdparty/lmdb/midl.c:314-342 | -1 for an ID present, -2 for a full list, else the same pairs with the new one and still ascending; unchanged on error. |
| IdListGrow.IdList.Need | app/libs/ring0/thirdparty/lmdb/midl.c:137-148 | Afterwards there is room for num more IDs and the contents are the same. |
| IdListGrow.IdList.Append | app/libs/ring0/thirdparty/lmdb/midl.c:150-161 | Appends one ID, growing the list if it is full. |
| IdListGrow.IdList.AppendRange | app/libs/ring0/thirdparty/lmdb/midl.c:176-189 | Appends id+n-1 down to id; the list is then descending if and only if it was and its last ID is at least id+n-1. |
| WaitGroup.StepKeepsWakeup | app/libs/ring1/postoffice/concurrency/waitgroup.c:23-45 | No lost wake-up: while the count is 0, a thread asleep or committed to sleep has a wg_done that is still going to broadcast; every step keeps this. |
| WaitGroup.StepKeepsMutex | app/libs/ring1/postoffice/concurrency/waitgroup.c:27-45 | The mutex is held by exactly the thread that stands inside a locked region. |
| WaitGroup.RunKeepsInv | app/libs/ring1/postoffice/concurrency/waitgroup.c:23-45 | All of it holds after every run of any number of threads in which at no time more calls of wg_done than units added by wg_add were made. |
| WaitGroup.CountIs | app/libs/ring1/postoffice/concurrency/waitgroup.c:23-28 | After every run the count is the sum of the arguments of all calls of wg_add less the number of calls of wg_done, both read off the schedule. |
| WaitGroup.LeavesAtZero | app/libs/ring1/postoffice/concurrency/waitgroup.c:36-45 | A wait skips or leaves its loop exactly when as many calls of wg_done as units of wg_add have been made. |
| WaitGroup.WaitReturns | app/libs/ring1/postoffice/concurrency/waitgroup.c:36-45 | When a wg_wait has returned, at least as many calls of wg_done have been made as units had been added before it was called. |
| WaitGroup.QuietStepDecreases | app/libs/ring1/postoffice/concurrency/waitgroup.c:23-45 | With count 0 and no new calls, every step that changes anything decreases a measure, spurious wake-ups included. |
| WaitGroup.QuietNotStuck | app/libs/ring1/postoffice/concurrency/waitgroup.c:23-45 | While some call has not returned, some thread can take such a step without relying on spurious wake-ups. |
| WaitGroup.AllWaitersReturn | app/libs/ring1/postoffice/concurrency/waitgroup.c:23-45 | Hence every such schedule is finite, and one that cannot be continued leaves every wait and every done returned. |
| Arena.MinSizeSuffices | app/include/thirdparty/clay/clay.h:5079-5098 | The minimum size covers the dry run if and only if the dry run stays 128 bytes below 4 GiB (the result is cut to 32 bits). |
| Arena.DryRunFits | app/include/thirdparty/clay/clay.h:5079-5098 | The dry run, on an arena of SIZE_MAX bytes, never fails, for all limits and struct sizes. |
| Arena.ReservedInside | app/include/thirdparty/clay/clay.h:5220-5243 | In a buffer of any size at any address, the bytes reserved for all arrays are inside if and only if the shift of the base plus the dry run's end is at most the size. |
| Arena.ShiftedOut | app/include/thirdparty/clay/clay.h:5220-5243 | So an unaligned buffer of exactly the dry run's end, which Clay_Initialize accepts, does not hold all that is reserved. |
| Arena.RoomIn | app/include/thirdparty/clay/clay.h:5220-5243 | In a buffer below 4 GiB there is room for all elements of all arrays (the warnings counted as strings) if and only if, besides, no product of capacity and item size reaches 2^32. |
| Arena.RoomForAll | app/include/thirdparty/clay/clay.h:5033-5098 | For every base address: all arrays, at their full extent of capacity times item size (the warnings counted as strings), are 64-aligned, inside a buffer of the minimum size and pairwise disjoint, if and only if no such product reaches 2^32 and the dry run stays 128 bytes below 4 GiB. |
| Arena.SizeWraps | app/include/thirdparty/clay/clay.h:5033-5035 | A concrete configuration, 2^30 elements of 80 bytes, whose product wraps to 0: no byte is reserved for the layout elements and the minimum size is below 4 GiB all the same. |
| Arena.WholeIsCut | app/include/thirdparty/clay/clay.h:5079-5098 | A concrete configuration, 2^20 elements of 256 bytes, in which no product wraps and the returned minimum size is below the dry run's end. |
| Arena.WarningsTooShort | app/include/thirdparty/clay/clay.h:5006-5028 | The array of warnings, filled with warnings of two strings, would reach into the next array. |
| Arena.BlocksDisjoint | app/include/thirdparty/clay/clay.h:5006-5048 | Blocks of one list of allocations are disjoint, in order. |
| Arena.OffsetIsLeast | app/include/thirdparty/clay/clay.h:5006-5036 | An array goes to the least multiple of 64 that is not below nextAllocation, the warnings to the least above it. |
| Arena.Memory.Allocate | app/include/thirdparty/clay/clay.h:5029-5048 | An allocation succeeds exactly when its aligned block fits, and then moves nextAllocation behind it. |
| Arena.Memory.AllocateAll | app/include/thirdparty/clay/clay.h:2616-2691 | A list of allocations succeeds as a whole exactly when its end fits, and then every array is where the dry run put it. |
| Arena.Memory.Layout | app/include/thirdparty/clay/clay.h:5220-5243 | Initialisation succeeds exactly when the dry run's end is within the arena's capacity. |
| Arena.Memory.BeginLayout | app/include/thirdparty/clay/clay.h:5452-5456 | Every later frame allocates the same arrays in the same places and none fails. |
| Arena.MinMemorySize | app/include/thirdparty/clay/clay.h:5079-5098 | Returns the dry run's end plus 128, cut to 32 bits. |
| Arena.Initialize | app/include/thirdparty/clay/clay.h:5220-5243 | Reports success exactly when the buffer is at least as large as the dry run's end; the reserved bytes are in the buffer exactly when it is larger by the shift of its base. |
| Arena.InitializeWithMinimum | app/include/thirdparty/clay/clay.h:5079-5243 | Asking for the size and initialising a buffer of it reports success, for every base address, exactly when the dry run stays 128 bytes below 4 GiB; every array then has its full room, exactly when moreover no product of capacity and item size reaches 2^32. |
| CacheMemory.CacheFits | app/include/thirdparty/clay/clay.h:2668-2690 | Whatever a text cache with these limits holds, its entries, buckets, words and both free lists fit the bytes that the arena reserves for each of them (no array size wrapped, no more buckets than elements). |
| CacheMemory.BucketsInside | app/include/thirdparty/clay/clay.h:1816-1819 | The bucket of every hash is inside the array of buckets if and only if a 32nd of the word limit is at most the element limit. |
| TextTokens.TokensSpellText | app/include/thirdparty/clay/clay.h:1902-1968 | The words of a text lie inside it and, with each empty word read as a newline, spell it out. |
| TextTokens.TokensAreWords | app/include/thirdparty/clay/clay.h:1902-1968 | The words cover the text without gap or overlap, and each is what its characters say: an unbroken piece, with its space if one follows, as wide as measured, or the empty word of a newline. |
| TextTokens.OnlyTokens | app/include/thirdparty/clay/clay.h:1902-1968 | No other list of words does: covering the text with such words determines the list, widths included. |
| CacheModel.EvictKeepsOk | app/include/thirdparty/clay/clay.h:1828-1849 | Evicting an entry keeps the cache's shape: every slot of both arrays in exactly one place, all chains and word lists linked and finite, every cached entry with the words of its text. |
| CacheModel.EvictPlaces | app/include/thirdparty/clay/clay.h:1829-1842 | The evicted entry's words and its slot go to the free lists exactly once. |
| CacheGrow.PlaceKeepsOk | app/include/thirdparty/clay/clay.h:1857-1887 | Taking a free or new slot for an entry keeps the shape. |
| CacheGrow.LastFreedFirst | app/include/thirdparty/clay/clay.h:1783-1866 | The slot that an eviction frees last, of an entry or of a word, is the first to be taken again. |
| CacheGrow.AddKeepsOk | app/include/thirdparty/clay/clay.h:1783-1797 | Storing one more word of the entry under construction keeps the shape, and no other entry's words change. |
| CacheGrow.AddGrowsList | app/include/thirdparty/clay/clay.h:1783-1797 | The list under construction grows by exactly that word at its end. |
| CacheGrow.StampKeepsOk | app/include/thirdparty/clay/clay.h:1823-1826 | Stamping an entry with a generation keeps the shape. |
| CacheGrow.LinkKeepsOk | app/include/thirdparty/clay/clay.h:1975-1986 | Linking the finished entry behind the last of its chain keeps the shape. |
| CacheGrow.LoseKeepsOk | app/include/thirdparty/clay/clay.h:1903-1915 | Giving an entry up half-way keeps the shape, with the entry's slot and its words in a place that nothing leads to. |
| CacheFate.FitsIff | app/include/thirdparty/clay/clay.h:1902-1975 | A text of t words fits the array of words if and only if: with the array full, t slots are free; one short of full, the text is empty; else t words, after the free slots, leave the array one short of full, or fill it with the last two words of a text that ends in a word and a newline. |
| CacheFate.FullFails | app/include/thirdparty/clay/clay.h:1903-1915 | Once the array is one short of full no text with a character fits, whatever is free. |
| CacheFate.OverrunNeedsNewline | app/include/thirdparty/clay/clay.h:1903-1915 | Only a newline, which may add two words at once, gets past the check for a full array. |
| CacheFate.NewlineOverruns | app/include/thirdparty/clay/clay.h:1903-1959 | With two slots left, the text `a`, newline, `b` does. |
| CacheRoom.RoomFits | app/include/thirdparty/clay/clay.h:1902-1975 | A text fits where the free slots and the new ones, but for one in reserve, are enough for its words. |
| CacheScan.ScanEvicts | app/include/thirdparty/clay/clay.h:1828-1849 | After an eviction the scan stands at the evicted entry's successor, behind the same predecessor. |
| CacheScan.StaleAfter | app/include/thirdparty/clay/clay.h:1828-1829 | An entry used now is stale after n more frames if and only if n modulo 2^32 is more than 2: not after one or two calls of Clay_BeginLayout, but after three. |
| CacheScan.NoneFound | app/include/thirdparty/clay/clay.h:1820-1854 | A bucket searched in vain means the hash is not cached anywhere. |
| CacheKeep.ScanFinds | app/include/thirdparty/clay/clay.h:1820-1854 | A scan hits exactly when an entry with the hash was cached, and hits that entry. |
| CacheKeep.OutcomeOf | app/include/thirdparty/clay/clay.h:1799-1987 | A lookup returns the cached entry of its hash if there is one, drops only stale entries of its own bucket with other hashes, and leaves every other entry with its text and words. |
| CacheKeep.StillHere | app/include/thirdparty/clay/clay.h:1823-1828 | An entry used in this generation is never evicted by another lookup in it, and looking its text up again finds it. |
| TextCache.TextCache.constructor | app/include/thirdparty/clay/clay.h:5247-5250 | An empty cache has a valid shape. |
| TextCache.TextCache.FreeWords | app/include/thirdparty/clay/clay.h:1829-1837 | The word list of an entry is appended to the free list, which never overflows; the walk ends. |
| TextCache.TextCache.Evict | app/include/thirdparty/clay/clay.h:1829-1849 | The whole effect of an eviction, and that the shape survives it. |
| TextCache.TextCache.Find | app/include/thirdparty/clay/clay.h:1816-1854 | The scan ends; it hits an entry with the hash, or leaves a chain without that hash and without stale entries; only stale entries go. |
| TextCache.TextCache.NewEntry | app/include/thirdparty/clay/clay.h:1857-1887 | Takes the last free slot or a new one; none exactly when the free list is empty and the array is at capacity - 1. |
| TextCache.TextCache.AddMeasuredWord | app/include/thirdparty/clay/clay.h:1783-1797 | The new word is stored in the last free slot or a new one and hooked behind the previous word. |
| CacheRoom.RoomLeft | app/include/thirdparty/clay/clay.h:1783-1797 | Words go to the free list first: after some words of a text are stored, the room that was enough for all is enough for the others. |
| TextCache.TextCache.Tokenise | app/include/thirdparty/clay/clay.h:1889-1975 | Stores the words as far as the array goes and returns the fate that CacheFate.FateOf foretells; if the text fits, the entry's list holds exactly its words and containsNewlines is right; nothing else changes unless a word finds no slot. |
| TextCache.TextCache.LinkLast | app/include/thirdparty/clay/clay.h:1978-1986 | The new entry becomes the last of its chain. |
| TextCache.TextCache.MeasureText | app/include/thirdparty/clay/clay.h:1799-1987 | For every valid cache and every text: an entry is returned exactly when the hash was cached, or there is an entry slot after the scan and the words fit; unless a word finds no slot, the shape persists and hit, eviction and insertion are as in CacheKeep.Outcome; a text that does not fit loses one entry slot for good, and leaves an array one short of full, which stays so over all later calls. |
| TextCache.TextCache.Words | app/include/thirdparty/clay/clay.h:3118-3124 | Walking an entry's links gives exactly the words of its text, and ends. |
| TextCache.TextCache.MeasuredWords | app/include/thirdparty/clay/clay.h:3096-3124 | Unless another text with the same hash is cached, a lookup that returns an entry gives words that cover the text without gap or overlap, each cut and measured as its characters say, and that spell it. |
| TextCache.RoomStays | app/include/thirdparty/clay/clay.h:1799-1987 | Room for the words of all different texts of a frame that have no fresh entry lasts through the frame, whatever is evicted and recycled. |
| TextCache.TextCache.Frame | app/include/thirdparty/clay/clay.h:3096-3097 | Within a frame every text measured at its declaration is found again, at the same entry, when the layout looks it up, unless a word finds no slot; with room for the words of the different texts that have no fresh entry none is lost. |
| TextCache.TextCache.BeginLayout | app/include/thirdparty/clay/clay.h:5453-5456 | A new generation, wrapping at 2^32, keeps the shape. |
| TextCache.TextCache.Reset | app/include/thirdparty/clay/clay.h:5666-5679 | Resetting leaves a valid empty cache. |
| Random.PrevOfNext | app/libs/ring0/postoffice/random/random.c:44-57 | The state update of xoshiro256** is undone by an explicit inverse. |
| Random.NextOfPrev | app/libs/ring0/postoffice/random/random.c:44-57 | And the other way round, so it is a bijection on the 256-bit states. |
| Random.NeverZero | app/libs/ring0/postoffice/random/random.c:44-57 | Any number of draws leads to the zero state only from the zero state. |
| Random.SeedNeverZero | app/libs/ring0/postoffice/random/random.c:79-95 | No byte string, of any length, seeds the zero state. |
| Random.SeededNeverZero | app/libs/ring0/postoffice/random/random.c:99-111 | After po_rand_seed no number of draws makes the generator look unseeded. |
| Random.AutoSeededNeverZero | app/libs/ring0/postoffice/random/random.c:113-137 | Automatic seeding leaves a non-zero state whatever entropy it gets. |
| Random.Generator.Draw | app/libs/ring0/postoffice/random/random.c:44-57 | One draw in place: the next state, and the output of the old one, which RandomNumbers.OutputNumber gives in integers. |
| Random.Generator.SeedFromBytes | app/libs/ring0/postoffice/random/random.c:79-95 | The state is the function SeedState of the bytes, whatever it was. |
| Random.Generator.Seed | app/libs/ring0/postoffice/random/random.c:99-111 | The state depends on the seed alone. |
| Random.Generator.U64 | app/libs/ring0/postoffice/random/random.c:139-144 | Draws from the current state, or, exactly when that is zero, from the state that automatic seeding with the given entropy leaves. |
| Random.Generator.Stream | app/libs/ring0/postoffice/random/random.c:99-144 | After po_rand_seed the i-th number drawn is the output of the i-th state from the seed, for any number of draws, whatever entropy is on offer: a seeded stream depends on the seed alone. |
| Random.Generator.RangeI64 | app/libs/ring0/postoffice/random/random.c:150-159 | A number between the bounds, in either order: the lower one plus the number drawn modulo the span; one draw is used. |
| WordNumber.NumberMul | app/libs/ring0/postoffice/random/random.c:45 | Words multiply as the numbers they stand for, modulo 2^64. |
| WordNumber.NumberAdd | app/libs/ring0/postoffice/random/random.c:83 | And so they add. |
| WordNumber.NumberInjective | app/libs/ring0/postoffice/random/random.c:45 | Different words stand for different numbers. |
| RandomNumbers.OutputNumber | app/libs/ring0/postoffice/random/random.c:45 | For every state, in integer arithmetic: with y = 5 * s1 mod 2^64 a draw returns 9 * ((128 * y) mod 2^64 + y / 2^57) mod 2^64. |
| RandomNumbers.OutputIsBijective | app/libs/ring0/postoffice/random/random.c:45 | A draw returns z if and only if the second word is an explicit inverse of z. |
| RandomNumbers.KnownDraws | app/libs/ring0/postoffice/random/random.c:44-57 | From the state 1, 2, 3, 4 the first five numbers are the published ones of xoshiro256**. |
| RandomNumbers.ScrambleUndone | app/libs/ring0/postoffice/random/random.c:88-92 | Each scrambling of the seed's word is undone by an explicit inverse. |
| RandomNumbers.SameSeedState | app/libs/ring0/postoffice/random/random.c:79-95 | Two byte strings seed the same state if and only if they fold into the same word. |
| RandomNumbers.LastByteMatters | app/libs/ring0/postoffice/random/random.c:81-84 | Seeds that differ in their last byte only seed different states. |
| RandomNumbers.BytesSpellSeed | app/libs/ring0/postoffice/random/random.c:99-106 | The eight bytes of a seed are taken lowest first and determine it. |
| RandomNumbers.SameStream | app/libs/ring0/postoffice/random/random.c:99-111 | Two seeds ever reach the same state after equally many draws if and only if their bytes fold into the same word, and then always. |
| RandomNumbers.SameSeeding | app/libs/ring0/postoffice/random/random.c:99-137 | Automatic seeding from eight bytes or from the mixed word warms up as po_rand_seed does. |
| RandomNumbers.KnownStream | app/libs/ring0/postoffice/random/random.c:79-144 | A concrete seed and the first number drawn after it. |
| Shuffle.ShuffledBag | app/libs/ring0/postoffice/random/random.c:167-184 | A shuffle only reorders. |
| Shuffle.ShuffledInjective | app/libs/ring0/postoffice/random/random.c:172-183 | Different choice vectors give different orders of distinct elements. |
| Shuffle.ShuffledSurjective | app/libs/ring0/postoffice/random/random.c:172-183 | Every order is reached by some choice vector. |
| Shuffle.ShuffleIsBijective | app/libs/ring0/postoffice/random/random.c:172-183 | Each order of distinct elements has exactly one choice vector (j_i in 0..i) that leads to it. |
| Shuffle.SwapMovesElements | app/libs/ring0/postoffice/random/random.c:178-182 | Swapping the bytes of two elements swaps the elements and moves no other. |
| Shuffle.SwapBytes | app/libs/ring0/postoffice/random/random.c:178-182 | The byte loop exchanges two disjoint ranges and nothing else. |
| Shuffle.ChoiceAt | app/libs/ring0/postoffice/random/random.c:172-175 | Of n elements, place i gets the choice of the (n - i)-th draw, modulo i + 1. |
| Shuffle.ShuffleInPlace | app/libs/ring0/postoffice/random/random.c:167-184 | For every element size the elements end up in the order of the generator's choices; bytes behind them are untouched. |
| Prime.IsPrime | app/libs/ring0/postoffice/prime/prime.c:12-28 | True exactly for the primes, for every 64-bit n, also where i * i wraps. |
| Prime.StopAtRoot | app/libs/ring0/postoffice/prime/prime.c:22 | Trial division may stop at the square root. |
| Prime.SixStep | app/libs/ring0/postoffice/prime/prime.c:22-25 | Testing i and i + 2 for i = 5, 11, 17, ... covers all candidates. |
| Prime.EndsPastRoot | app/libs/ring0/postoffice/prime/prime.c:22 | When the loop ends, i has passed the square root even if i * i has wrapped. |
| Prime.RootWraps | app/libs/ring0/postoffice/prime/prime.c:22 | A loop value whose wrapped square is 2^64 - 7 ends the loop for every n that is left. |
| NextPrime.PrimeAbove | app/libs/ring0/postoffice/prime/prime.c:30-45 | Euclid: there is a prime above every number. |
| PrimeCertificate.Certified | app/libs/ring0/postoffice/prime/prime.c:30-45 | Pocklington's criterion, by which a number is shown to be prime without trial division. |
| LastPrime.LastIsPrime | app/libs/ring0/postoffice/prime/prime.c:30-45 | 2^64 - 59 is prime. |
| LastPrime.NoneAboveLast | app/libs/ring0/postoffice/prime/prime.c:30-45 | No number between 2^64 - 59 and 2^64 is. |
| NextPrime.NextPrime | app/libs/ring0/postoffice/prime/prime.c:30-45 | The least prime above n if and only if n < 2^64 - 59; from there on the search wraps and returns 2. It terminates. |
| NextPrime.AfterTheLargest | app/libs/ring0/postoffice/prime/prime.c:30-45 | For n = 2^64 - 1 the result is 2. |
| IniText.StripEnd | app/libs/ring0/thirdparty/inih/ini.c:49-53 | Cuts exactly the white space at the end of the string, in place, and nothing outside it. |
| IniText.SkipSpace | app/libs/ring0/thirdparty/inih/ini.c:56-60 | The position of the string without its leading white space. |
| IniText.FindChars | app/libs/ring0/thirdparty/inih/ini.c:65-79 | The position of the first of the characters or of an inline comment. |
| IniText.Copy | app/libs/ring0/thirdparty/inih/ini.c:83-90 | At most size - 1 characters of the string. |
| IniText.SixSpaces | app/libs/ring0/thirdparty/inih/ini.c:49-79 | White space is space, tab, newline, vertical tab, form feed and carriage return. |
| IniGrammar.FindIs | app/libs/ring0/thirdparty/inih/ini.c:65-79 | The first stop: a prefix without the characters and without an inline comment, followed by one of them or by the end. |
| IniGrammar.PairLine | app/libs/ring0/thirdparty/inih/ini.c:167-229 | A line is taken for a name and a value if and only if it is laid out as such: indentation, name, gap, separator, value, trailing space, comment; with the exact conditions on each part. |
| IniGrammar.SectionLine | app/libs/ring0/thirdparty/inih/ini.c:192-208 | A line is taken for a section if and only if it is laid out as such, and the name is cut to 49 characters. |
| IniGrammar.MoreLine | app/libs/ring0/thirdparty/inih/ini.c:180-190 | A line is taken for a continuation if and only if there is a name to continue, the line is indented, and it has a value that does not begin like a comment, laid out before trailing space and comment. |
| IniGrammar.IgnoredLine | app/libs/ring0/thirdparty/inih/ini.c:176-178 | A line is ignored if and only if it is blank or a comment behind white space. |
| IniGrammar.BadLine | app/libs/ring0/thirdparty/inih/ini.c:192-240 | A line is an error if and only if it is no continuation and it is a section without its bracket, or anything else without a separator, up to a comment or the end. |
| IniParser.ChunkOn | app/libs/ring0/thirdparty/inih/ini.c:157-165 | Reading on after a short read meets the same newline. |
| IniLines.LineIn | app/libs/ring0/thirdparty/inih/ini.c:167-241 | Parsing a line in the buffer, cutting it in place, gives what the line means: ignored, section, pair, continuation or error. |
| ConfigLoad.Reader.Read | app/libs/ring0/thirdparty/inih/ini.c:276-299 | Reads up to num - 1 characters, no further than the first newline, and leaves the string that they show up to a NUL. |
| ConfigLoad.Discard | app/libs/ring0/thirdparty/inih/ini.c:157-165 | The rest of an overlong line is read away in pieces of 15 characters, and it is known whether there was any; a piece without a last character is reported, exactly when there is one. |
| IniParser.DiscardsLine | app/libs/ring0/thirdparty/inih/ini.c:157-165 | In a text without NULs, what is read away ends with the line. |
| IniParser.PlainReadable | app/libs/ring0/thirdparty/inih/ini.c:133-165 | In a text without NULs the parser never looks for the last character of an empty piece. |
| IniParser.NulOverrun | app/libs/ring0/thirdparty/inih/ini.c:157-165 | In 199 characters followed by a NUL it does. |
| IniReading.NulAtPiece | app/libs/ring0/thirdparty/inih/ini.c:157-165 | Behind a full buffer, a NUL after n characters does so exactly for n = 0 and n = 15, the size of a piece. |
| IniReading.PlainLine | app/libs/ring0/thirdparty/inih/ini.c:133-165 | In a text without NULs a line is what stands up to its newline, cut to 199 characters, and the next starts behind the newline. |
| IniReading.MarkSkipped | app/libs/ring0/thirdparty/inih/ini.c:167-174 | A byte order mark before the first line changes nothing. |
| IniReading.CallsAreGathered | app/libs/ring0/thirdparty/inih/ini.c:133-240 | For every text, by looking back over its lines: the handler is called for each pair and each continuation, with the name of the last section line before it, and for a continuation with the last name since, as far as the buffer remembers it. |
| ConfigLoad.ParseStream | app/libs/ring0/thirdparty/inih/ini.c:93-254 | For every text: the parser looks before its buffer if and only if the text is not readable; otherwise the result is the line of the first error (a line that does not parse, is too long, or whose handler call fails), 0 for none, and the store is that of all calls in order. |
| ConfigLoad.NoErrorFrom | app/libs/ring0/thirdparty/inih/ini.c:133-253 | There is no error exactly when every line parses and every handler call succeeds, although parsing goes on after an error. |
| ConfigErrors.ErrorIsFirst | app/libs/ring0/thirdparty/inih/ini.c:133-253 | The line reported is the first that does not parse, lost characters or gave a call that failed; none is reported exactly if there is no such line. |
| ConfigLoad.LoadSucceeds | app/src/utils/configs.c:160-204 | Loading succeeds exactly when every line parses and, if strict, the calls are proper. |
| ConfigLoad.Config.OnCall | app/src/utils/configs.c:69-158 | One handler call: checks, first value kept, section bookkeeping, in the code's order. |
| ConfigLoad.Config.GetStr | app/src/utils/configs.c:262-277 | The value of the first call with this section and this name, or none, unless another call shares their key, as none does if no section is empty or has a dot. |
| ConfigLoad.Load | app/src/utils/configs.c:160-204 | For every text that is readable: succeeds exactly when every line parses and, in strict mode, the calls are proper; lookup then gives the first value seen for each full key, and so, unless keys are shared, for each section and name. |
| ConfigModel.StrictAcceptsProper | app/src/utils/configs.c:69-158 | Strict handling accepts a sequence of calls if and only if no part is empty, the full keys are pairwise distinct and each section's calls are contiguous. |
| ConfigModel.RunReflects | app/src/utils/configs.c:93-155 | While calls succeed, the store has exactly their keys and sections, and the last section. |
| ConfigModel.LenientAcceptsAll | app/src/utils/configs.c:69-158 | Non-strict handling never fails. |
| ConfigModel.LookupFirst | app/src/utils/configs.c:99-118 | Lookup gives the value of the first call with the full key. |
| ConfigModel.StrictLookup | app/src/utils/configs.c:262-277 | After strict handling, lookup is the sequence of calls read as a map. |
| ConfigKeys.SameKey | app/src/utils/configs.c:43-55 | Two pairs of section and name have the same full key if and only if they are equal or one section goes on where the other stops, with the other's name saying the rest. |
| ConfigKeys.PlainKey | app/src/utils/configs.c:43-55 | For sections that are not empty and have no dot, only equal pairs have. |
| ConfigKeys.SharedKey | app/src/utils/configs.c:43-55 | The name b.c of section a and the name c of section a.b have. |
| ConfigKeys.LookupByName | app/src/utils/configs.c:95-118 | Lookup gives the value of the first call with the section and the name if no call clashes with them. |
| ConfigKeys.StrictByName | app/src/utils/configs.c:69-158 | With sections without dots, strict handling accepts a sequence of calls if and only if no part is empty, no name is twice in a section and each section's calls are contiguous. |
| ConfigContinue.StrictRejectsContinuation | app/libs/ring0/thirdparty/inih/ini.c:180-190 | A text with a continued value is never accepted by strict loading as long as its names fit the parser's buffer. |
| ConfigContinue.LenientIgnoresContinuation | app/libs/ring0/thirdparty/inih/ini.c:180-190 | With such names, non-strict lookup gives the first value of the lines that carry the name itself: continuations are never seen. |
| ConfigContinue.LongNameContinued | app/libs/ring0/thirdparty/inih/ini.c:180-190 | A concrete text with a name of 50 characters that strict loading accepts although it continues a value: the continuation is a second key, the first 49 characters. |

## Left out

- Weak memory effects, metrics counters and cache-line alignment of the ring buffer.
- RingBuffer.RingBuf.Create: allocation failure is not modelled.
- RingBuffer.RingBuf.Enqueue: for two slots or more; RingRuns.OneSlotOverruns shows what one slot does.
- RingBuffer.RingBuf.Count: modelled for one thread only; in the concurrent case its two loads are not atomic together and it promises nothing.
- RingBuffer.RingBuf.Dequeue: a null destination is the parameter `wanted`; the item is then removed and not returned.
- IdListSort.Sort: at most 2^30 IDs, beyond which `l + ir` overflows an int.
- IdListMerge.XMerge: needs two different arrays and room for both lists in the first, as its callers ensure.
- IdListGrow.IdList.Need: unsigned overflow of the requested size and allocation failure are not modelled.
- IdListGrow.IdList.AppendRange: overflow of the last ID beyond 64 bits is not modelled.
- mdb_midl_append_list, mdb_midl_shrink, mdb_mid2l_append and the 32-bit ID3 lists would only add easy members.
- WaitGroup.RunKeepsInv: negative adds, a count beyond the int range and `wg_destroy` while a done is in progress are excluded.
- Arena.InitializeWithMinimum: pointer arithmetic of the caller's buffer is on unbounded addresses; the error handler's calls are the result `false`.
- TextCache.TextCache.MeasureText: what the code does after a word has found no slot, when it hooks words onto a shared default word, is not modelled; the result says so. The missing measure function, minimum widths and measured dimensions are not modelled.
- TextCache.TextCache.MeasuredWords: two texts with the same 32-bit hash share an entry, so the words are those of the text only while no other text of its hash is cached.
- TextCache.TextCache.constructor: needs at least one bucket, no more buckets than `maxElementCount`, and room for one entry besides the reserved one, all of which the code takes for granted.
- Clay's layout, wrapping, pointer, scroll, debug and render code is floating-point user interface.
- Random.Generator.RangeI64: the span of the bounds must fit a signed 64-bit number, as the code's signed arithmetic needs.
- Reading entropy in `po_rand_seed_auto`, and `po_rand_unit`, which is floating point.
- Shuffle.ShuffleInPlace: a null base, for which the code does nothing, is not modelled.
- ConfigLoad.Load: what the code does after it has looked before its buffer is not modelled; the result says so. File access, memory failure and the perf timer are not modelled, and the hash table and hash set are a map and a set.
- ConfigLoad.ParseStream: the handler is the configuration's; other handlers are not modelled.
- ConfigContinue.StrictRejectsContinuation: for names of up to 49 characters; a longer name is continued under its first 49 characters, which may be a new key.
- `po_config_save` reads comments differently from the parser, so saving and loading is no round trip in general.
- Modules of which only headers are visible (hash table, hash set, priority queue, sort, logger, perf, net, poller, thread pool, storage).
- vector.c, files.c, argv.c, errors.c, signals.c and the programs themselves: easy, or calls of the operating system.
