# Verified model of xfutil

A Dafny model of the parts of the xfutil C++ utility library whose correctness is hard to see: the
small-object allocator, the blocking queue and the asynchronous I/O protocol on top of it, the
block serializer, the two-tier LRU cache, the Bloom filter and the log rotation. The modules follow
the library's files:

| module(s) | file(s) | subject |
|---|---|---|
| `RawMemory`, `CircularList` | `RawMemory.dfy`, `CircularList.dfy` | memory as words at addresses, intrusive circular lists |
| `MemoryBlock` | `MemoryBlock.dfy` | one block: head, bump region, free chain threaded through freed elements |
| `PoolModel`, `PoolRuns` | `PoolModel.dfy`, `PoolRuns.dfy` | the allocator as interleaved steps, its invariant, what holds in every reachable state |
| `PoolMemory`, `BlockPool`, `MemoryPool` | `PoolMemory.dfy`, `BlockPool.dfy`, `MemoryPool.dfy` | the allocator's code in raw memory, proved to take the model's steps |
| `BlockingQueue` | `BlockingQueue.dfy` | the monitor with its two condition variables |
| `Aio`, `AioCounting`, `AioProtocol`, `AioShutdown`, `AioRuns`, `AioTermination`, `AioTrace` | `Aio*.dfy` | submit, workers, completion counting, shutdown and its termination; what the steps of a run say about results and order |
| `Bits`, `Coding`, `Packing` | `Bits.dfy`, `Coding.dfy`, `Packing.dfy` | bit operations on naturals, varint / zigzag / fixed coding, Packer and Unpacker over a BlockBuffer |
| `LruModel`, `LruOrder`, `LruCacheImpl` | `LruModel.dfy`, `LruOrder.dfy`, `LruCacheImpl.dfy` | the cache as two lists, its recency order and hot counter, and the code with its index maps |
| `BloomFilter` | `BloomFilter.dfy` | both constructions and the test |
| `LogRotation` | `LogRotation.dfy` | rename cascade and size counter |
| `Collections` | `Collections.dfy` | what several modules need |

Main results.

* **Allocator.** Addresses are naturals and memory is a map from addresses to words. Alloc gives up
  its mutex in the middle and Free returns a block after unlocking, so both are split into the
  stretches between lock operations, and any number of threads may interleave them
  (`PoolModel.Step`). The invariant is kept by every step; from it follow disjointness of
  outstanding elements, the place of every block on exactly one list, conservation in each block and
  the return of all blocks. Independently, `MemoryPool.MemoryPool` has the code of each stretch as a
  method that writes list nodes, block heads and free-chain words in one shared memory, and is proved
  to refine the corresponding step; a client's writes to an element it owns keep the whole
  representation (`ClientWrite`).
* **Queue and asynchronous I/O.** The queue is a monitor with sleeping, woken and running threads,
  including spurious wake-ups. The invariant says that nobody sleeps while there is an item or a free
  place that no woken thread will take. The I/O protocol is a step relation over submitters, workers and
  Stop; completion counting, ordering per file descriptor and shutdown are proved for every reachable
  state; once Stop has begun, every schedule is bounded and can go on until Stop has returned.
* **Serializer.** Packing any typed values into blocks and unpacking them with the same types gives
  them back, and one more unpack fails. The varint bytes are those of unsigned LEB128 (section 7.6 of
  DWARF Version 5), zigzag is the mapping of the "Signed Integers" section of the Protocol Buffers
  encoding guide.
* **LRU cache, Bloom filter, log rotation.** Get never changes what the cache would answer; no false
  negatives, exact bit contents and equality of both constructions; over any run of writes, the
  backups and the current file hold exactly the end of everything ever written, from the rotation
  that began the oldest of them.

Results that differ from what one might expect:

* `Packing.StringRoom`: the three bytes reserved for a string's length suffice if and only if the
  string is shorter than 2^21 bytes; `Packing.StringOverrun` gives a block state for every longer string.
* `LruModel.DeleteContents`: after Delete a key is gone if and only if it was not in both tiers;
  `LruModel.DeleteMayResurface` is a run in which it comes back.
* `LruOrder.HotCounterDrifts`: over any run the hot counter is the sum of the hot sizes less everything
  ever promoted, modulo 2^64, because promotions are never added to it.
* `LogRotation.RotationLosesOldest`: with `max_file_num` 0 the 16-bit loop counter starts at 65535,
  so files move up as far as backup 65536, which is replaced exactly when there is a backup 65535;
  `LogRotation.TopFileKept` is a directory in which it is not.
* `Coding.DecodeVarintR` compares `rbuf < rend` while it moves downwards. It reads below a buffer if
  and only if it starts inside, the buffer has fewer than five bytes down from there, and all of them
  have their continuation bit set (`Coding.LeavesBuffer`); `Coding.ForeignByteDecides` is a decoding
  whose value comes from the byte below the buffer.
* `Coding.EndTest`: the comparison `buf + len > end` of DecodeString is the intended one if and only
  if the sum does not wrap; a length that wraps is always accepted (`Coding.DecodeString`), and
  `Coding.WrappingLengths` says which ones do.
* `PoolRuns.AllocGivesUp`: Alloc goes for another block if and only if the cache block and the first
  block of the free list are full; some attached block then has room if and only if one behind the
  first has. `PoolRuns.RoomPassedOver` is a reachable state in which one has.

## Model

| member | source | states |
|---|---|---|
| `CircularList.InsertCircle` | include/xfutil/list.h:51-57 | the four pointer writes turn a well-formed circle into the circle with the node at that place |
| `CircularList.InsertSeparate` | include/xfutil/list.h:51-57 | nodes stay pairwise disjoint when a new node joins |
| `CircularList.DeleteCircle` | include/xfutil/list.h:69-78 | the two pointer writes give the circle without exactly that node |
| `CircularList.ListInit` | include/xfutil/list.h:31-35 | a node that points to itself is the empty circle |
| `CircularList.ListEmpty` | include/xfutil/list.h:38-41 | the test on the next pointer holds iff the circle has no nodes |
| `CircularList.ListInsert` | include/xfutil/list.h:51-57 | between two neighbours of a circle, the node joins the circle in that place, nodes still disjoint |
| `CircularList.ListAddHead` | include/xfutil/list.h:59-62 | the node becomes the first of the circle, all others keep their order |
| `CircularList.ListAddTail` | include/xfutil/list.h:64-67 | the node becomes the last of the circle |
| `CircularList.ListDelete` | include/xfutil/list.h:75-78 | the node is taken out wherever it is, found only by its own pointers |
| `MemoryBlock.Conservation` | src/memory_block.cpp:32-82 | used, chained and untouched elements add up to the maximum; no spare element iff all are used |
| `MemoryBlock.SlotPlace` | src/memory_block.cpp:36-38 | every element lies behind the 40-byte head and inside the block |
| `MemoryBlock.SlotsApart` | src/memory_block.cpp:36-56 | different elements of a block do not overlap |
| `MemoryBlock.NewBlockOk` | src/memory_block.cpp:32-40 | an initialised block satisfies the block invariant and has no room for one element more |
| `MemoryBlock.AllocOk` | src/memory_block.cpp:42-61 | allocation keeps the block invariant and hands out an element that was not in use |
| `MemoryBlock.FreeOk` | src/memory_block.cpp:63-82 | freeing keeps the block invariant and leaves room |
| `MemoryBlock.FreeThenAlloc` | src/memory_block.cpp:46-71 | allocating undoes freeing: the element freed last goes out first; without freed ones they go out in the order of their addresses |
| `MemoryBlock.MemoryBlockInit` | src/memory_block.cpp:32-40 | memory then holds the new block; only the head is written, not its list node |
| `MemoryBlock.MemoryAlloc` | src/memory_block.cpp:42-61 | pops the chain or else bumps; null iff all elements are used; only head words are written |
| `MemoryBlock.MemoryFree` | src/memory_block.cpp:63-82 | pushes the element on the chain inside the freed element itself; -1 and no change outside the block; 1 when the last used one comes back, else 0 when all were used, else -1 |
| `MemoryBlock.ClientWriteKeeps` | src/memory_block.cpp:42-82 | a write inside a used element leaves head and free chain intact |
| `PoolModel.AllocKeeps` | src/memory_pool.cpp:70-97 | the first stretch of Alloc keeps the invariant and hands out only an element nobody has |
| `PoolModel.FetchCachedKeeps` | src/memory_pool.cpp:99 | taking a cached block keeps the invariant |
| `PoolModel.FetchHeapKeeps` | src/memory_pool.cpp:99 | so does a block from the heap, new to the pool |
| `PoolModel.PrepareKeeps` | src/memory_pool.cpp:100-101 | so does initialising the private block and taking its first element |
| `PoolModel.PublishKeeps` | src/memory_pool.cpp:103-106 | so does attaching it; its first element was with nobody |
| `PoolModel.FreedBlock` | src/memory_pool.cpp:124-146 | the block of a returned element is attached, has room afterwards, and if it was on the full list the result of MemoryFree makes Free move it |
| `PoolModel.FreeKeeps` | src/memory_pool.cpp:111-147 | the locked stretch of Free keeps the invariant, in the cache block and for each of the three results |
| `PoolModel.GiveBackKeeps` | src/memory_pool.cpp:148 | so does the unlocked return of the block, into the BlockPool or to the heap |
| `PoolModel.StepKeeps` | src/memory_pool.cpp:70-149 | every step of every thread keeps the whole invariant |
| `PoolRuns.RunKeeps` | src/memory_pool.cpp:70-149 | the invariant holds after any interleaving of any length |
| `PoolRuns.StartOk` | src/memory_pool.cpp:50-68 | a freshly initialised pool satisfies it |
| `PoolRuns.ElementInside` | src/memory_pool.cpp:70-149 | an outstanding element lies past the head and inside its block |
| `PoolRuns.ElementsDisjoint` | src/memory_pool.cpp:70-149 | in every reachable state outstanding elements are pairwise disjoint ranges |
| `PoolRuns.RunSizes` | src/memory_pool.cpp:70-149 | no run changes the element size, the block size or the cache block's place |
| `PoolRuns.ClientsDisjoint` | src/memory_pool.cpp:50-149 | in every run, clients that use as many bytes as they asked for at initialisation do not meet, and stay inside their blocks |
| `PoolRuns.ElementNotChained` | src/memory_pool.cpp:70-149 | an outstanding element is inside exactly one live block and clear of every word of every free chain |
| `PoolRuns.RoomMeansFreeList` | src/memory_pool.cpp:84-146 | every attached block is on exactly one list; with room, on the free list |
| `PoolRuns.BlockConservation` | src/memory_pool.cpp:70-149 | conservation in every attached block, which always has an element out; the used elements are exactly those clients have |
| `PoolRuns.AllFreedAllBack` | src/memory_pool.cpp:111-149 | once everything is freed and no call is under way, both lists are empty and the BlockPool has exactly its blocks again, each once |
| `PoolRuns.AllocGivesUp` | src/memory_pool.cpp:77-96 | Alloc takes from the cache block, else from the first free-list block; it goes for another block iff both are full; another attached block has room then iff one behind the first has |
| `PoolRuns.AllocMoves` | src/memory_pool.cpp:84-96 | a block without room goes from the front of the free list to the tail of the full list; otherwise both lists stay |
| `PoolRuns.FreeMoves` | src/memory_pool.cpp:127-146 | Free takes an empty block off its list, puts one that had no room at the tail of the free list, and otherwise leaves both lists alone |
| `PoolRuns.RoomPassedOver` | src/memory_pool.cpp:84-99 | a reachable state in which a block with room is passed over |
| `PoolRuns.OwnerFound` | src/memory_pool.cpp:161-171 | the smallest end above an element's address is its own block's end, and no other |
| `PoolMemory.DetachFree` | src/memory_pool.cpp:94 | taking a block off the free list keeps both circles and every block body |
| `PoolMemory.DetachFull` | src/memory_pool.cpp:137 | the same for the full list |
| `PoolMemory.AttachFree` | src/memory_pool.cpp:138 | putting a block on the free list, at head or tail, keeps both circles and every body |
| `PoolMemory.AttachFull` | src/memory_pool.cpp:95 | the same for the tail of the full list |
| `PoolMemory.BlockChanged` | src/memory_pool.cpp:87 | a change inside one block's body leaves every other block and both lists as they were |
| `BlockPool.CarveApart` | src/block_pool.cpp:60-72 | the blocks cut from the buffer are distinct, inside it and disjoint |
| `BlockPool.BlockPool.Init` | src/block_pool.cpp:46-74 | succeeds exactly for an aligned size, once, with memory; then holds exactly the carved blocks |
| `BlockPool.BlockPool.Alloc` | src/block_pool.cpp:76-88 | the first cached block, the heap only when there is none |
| `BlockPool.BlockPool.Free` | src/block_pool.cpp:90-101 | keeps a block of its own buffer at the front, sends any other to the heap |
| `MemoryPool.MemoryPool.constructor` | src/memory_pool.cpp:24-36 | two empty circles, nothing in use |
| `MemoryPool.MemoryPool.Init` | src/memory_pool.cpp:50-68 | fails iff there is no memory; else memory and fields represent a pool in its initial state, with exactly the given number of cached elements, each the requested size rounded up to a multiple of 8 |
| `MemoryPool.CarveReady` | src/block_pool.cpp:60-72 | the blocks of an initialised BlockPool meet what MemoryPool needs of them |
| `MemoryPool.MemoryPool.GetFreeMemoryBlock` | src/memory_pool.cpp:151-159 | the head of the free list, null iff the list is empty |
| `MemoryPool.MemoryPool.AllocLocked` | src/memory_pool.cpp:74-97 | in memory takes exactly the model's step and returns the address of the element that step hands out, null iff none |
| `MemoryPool.MemoryPool.Fetch` | src/memory_pool.cpp:99 | takes the model's fetch step |
| `MemoryPool.MemoryPool.PrepareBlock` | src/memory_pool.cpp:100-101 | takes the model's prepare step; returns the address of element 0 |
| `MemoryPool.MemoryPool.AddMemoryBlock` | src/memory_pool.cpp:181-187 | adds the block's end to the set and its node to the head of the free list; bodies untouched |
| `MemoryPool.MemoryPool.PublishBlock` | src/memory_pool.cpp:103-106 | takes the model's publish step |
| `MemoryPool.MemoryPool.FindMemoryBlock` | src/memory_pool.cpp:161-171 | returns exactly the block that contains the element |
| `MemoryPool.UpperBound` | src/memory_pool.cpp:163 | finds the smallest member above an address |
| `MemoryPool.MemoryPool.FreeLocked` | src/memory_pool.cpp:113-147 | takes the model's free step; says whether and which block has to be given back |
| `MemoryPool.MemoryPool.HasRoomAgain` | src/memory_pool.cpp:134-140 | a block with room again moves to the tail of the free list |
| `MemoryPool.MemoryPool.RemoveMemoryBlock` | src/memory_pool.cpp:173-179 | an empty block leaves its list and the set of ends |
| `MemoryPool.MemoryPool.GiveBackBlock` | src/memory_pool.cpp:148 | takes the model's give-back step |
| `MemoryPool.MemoryPool.ClientWrite` | src/memory_pool.cpp:70-149 | a client's write into its element keeps all blocks, chains and both lists |
| `MemoryPool.MemoryPool.Alloc` | src/memory_pool.cpp:70-109 | undisturbed, one element is added to those out and its non-null address returned |
| `MemoryPool.MemoryPool.Free` | src/memory_pool.cpp:111-149 | undisturbed, ends in the state after both stretches of Free |
| `MemoryPool.NewPool` | src/memory_pool.cpp:24-68 | BlockPool and MemoryPool set up on any disjoint buffers give a valid pool in its initial state, for elements of the requested size rounded up to a multiple of 8 |
| `Collections.AlignUp` | include/xfutil/types.h:70-71 | the smallest multiple of the alignment that is not below the size |
| `MemoryPool.AllocThenFree` | src/memory_pool.cpp:70-149 | Free undoes Alloc: the same elements are out as before |
| `MemoryPool.FreeOutcome` | src/memory_pool.cpp:111-149 | a whole Free takes back exactly that element and leaves no block under way |
| `BlockingQueue.PutServed` | include/xfutil/queue.h:57-58 | inserting and notifying one consumer leaves nobody unserved |
| `BlockingQueue.TakeServed` | include/xfutil/queue.h:120-122 | removing and notifying one producer leaves nobody unserved |
| `BlockingQueue.PushPassKeeps` | include/xfutil/queue.h:50-71 | one pass of Push or PushFront keeps capacity, served waiters and values |
| `BlockingQueue.PopPassKeeps` | include/xfutil/queue.h:113-123 | one pass of Pop keeps them |
| `BlockingQueue.TryPushKeeps` | include/xfutil/queue.h:89-99 | TryPush keeps them |
| `BlockingQueue.TryPopKeeps` | include/xfutil/queue.h:101-112 | TryPop keeps them |
| `BlockingQueue.NextKeeps` | include/xfutil/queue.h:50-123 | every step of every thread, spurious wake-ups included, keeps the invariant |
| `BlockingQueue.RunKeeps` | include/xfutil/queue.h:50-123 | no lost wake-up in any state of any run: items are at most the woken consumers while a consumer sleeps, and dually for free places |
| `BlockingQueue.NeverStuck` | include/xfutil/queue.h:50-123 | when all threads inside sleep, consumers face an empty and producers a full queue, never both |
| `BlockingQueue.FirstInFirstOut` | include/xfutil/queue.h:50-123 | nothing is lost, doubled or over capacity; without PushFront the order is kept |
| `BlockingQueue.AlwaysADeque` | include/xfutil/queue.h:50-123 | over every run, PushFront included, the queue holds what a plain deque holds after the same events and gives what it gives; a value put in at the front comes out next |
| `BlockingQueue.FrontComesOutFirst` | include/xfutil/queue.h:62-71 | taking out undoes putting in at the front |
| `BlockingQueue.PassRecords` | include/xfutil/queue.h:50-123 | a pass of PushFront puts the value before, one of Push behind all others; a pass that sleeps changes nothing |
| `BlockingQueue.Queue.StepBegin` | include/xfutil/queue.h:50-123 | a thread that enters an operation keeps the invariant |
| `BlockingQueue.Queue.StepSpurious` | include/xfutil/queue.h:55 | so does a wait that returns without a notification |
| `BlockingQueue.Queue.StepPush` | include/xfutil/queue.h:50-71 | the code under the mutex takes the model's step and keeps the wake-up invariant; the queue is unchanged if full, else has the value at the end asked for |
| `BlockingQueue.Queue.StepPop` | include/xfutil/queue.h:113-123 | likewise; takes the front, or nothing iff empty |
| `BlockingQueue.Queue.StepTryPush` | include/xfutil/queue.h:89-99 | likewise, false and no change iff full |
| `BlockingQueue.Queue.StepTryPop` | include/xfutil/queue.h:101-112 | likewise, nothing iff empty |
| `AioCounting.CountKeeps` | src/aio.cpp:84 | fetch_add gives every command of a request its own number |
| `AioCounting.OneDecides` | src/aio.cpp:84-88 | exactly one command gets the last number and decides on the callback |
| `AioCounting.FinishKeeps` | src/aio.cpp:85-88 | the deciding command makes the one callback, with the final failure count |
| `AioProtocol.StepKeeps` | src/aio.cpp:78-195 | every step keeps the protocol's invariant: each command is in one place, queues hold what was pushed and not popped, counters tell the truth |
| `AioShutdown.StepShut` | src/aio.cpp:142-167 | every step keeps: sentinels come last, sentinels and exits of a queue add up |
| `AioShutdown.JoinedQueue` | src/aio.cpp:155-163 | when a queue's workers are joined it is empty and they have taken one sentinel each, so it can be deleted |
| `AioRuns.CallbackExactlyOnce` | src/aio.cpp:78-88 | in every reachable state a request has at most one callback, only after all its commands are counted, with the number of commands whose recorded result is -1; once all are done it has it |
| `AioTrace.ResultOfCall` | src/aio.cpp:31-89 | in every run each command has at most one system call, exactly one once it is done, and its recorded result is the one that call gave |
| `AioTrace.CallbackTellsFailures` | src/aio.cpp:31-88 | in every run the callback of a request comes at most once, after exactly one call of each command, and is told how many of these calls gave -1; once all commands are done it has come |
| `AioTrace.ExecutedInPushOrder` | src/aio.cpp:91-102 | in every run the commands a positionless queue's worker has executed are the first ones pushed to that queue, in that order |
| `AioTrace.LoggedWhereRouted` | src/aio.cpp:183-192 | a command is pushed to the shared queue iff its number is at least CMD_MIN_PIO, else to queue fd mod the number of queues |
| `AioTrace.PushedFromFirst` | src/aio.cpp:179-193 | the commands of a request are pushed one after the other, from the first on |
| `AioRuns.StopCompletes` | src/aio.cpp:142-167 | when Stop has returned every command is done, all queues are empty, every worker left on exactly one sentinel and every request with commands has had its callback |
| `AioRuns.SameFdInOrder` | src/aio.cpp:91-102 | positionless commands on one fd run one at a time and in push order |
| `AioRuns.PopEnabled` | src/aio.cpp:91-114 | in reachable states a waiting worker can pop iff its queue has an item |
| `AioRuns.PushEnabled` | src/aio.cpp:179-193 | and a submitter can push iff it has a command left |
| `AioRuns.WorkEnabled` | src/aio.cpp:31-89 | and a busy worker can take exactly the next step of ProcessRequest |
| `AioRuns.AwaitedCanMove` | src/aio.cpp:155-163 | a worker that Stop waits for has a step it can take |
| `AioTermination.StepShrinks` | src/aio.cpp:142-167 | once Stop has begun every step of any thread lowers a measure of queued items, work in hand and sentinels to push |
| `AioTermination.SomeStep` | src/aio.cpp:142-167 | until Stop has returned some thread can take a step |
| `AioTermination.StopReturns` | src/aio.cpp:142-167 | from any reachable state in which Stop has begun, every schedule is at most as long as the measure and can be continued exactly until Stop has returned |
| `Coding.VarintValue` | src/coding.cpp:22-32 | the bytes are the LEB128 digits of the value |
| `Coding.VarintLength` | src/coding.cpp:22-32 | k bytes suffice iff the value has at most 7k bits |
| `Coding.VarintSizes` | include/xfutil/coding.h:26-28 | at most 3, 5 and 10 bytes for 16, 32 and 64 bits; 3 bytes iff below 2^21 |
| `Coding.VarintRoundTrip` | src/coding.cpp:75-93 | decoding an encoding followed by anything gives the value and consumes exactly the encoding |
| `Coding.VarintPrefixRejected` | src/coding.cpp:75-93 | every strict prefix is rejected |
| `Coding.EncodeVarint` | src/coding.cpp:22-32 | writes the LEB128 bytes and nothing else, for any buffer with room for them |
| `Coding.DecodeVarint` | src/coding.cpp:75-93 | on all inputs agrees with the reference decoder; where it stops when it fails |
| `Coding.EncodeVarintR` | src/coding.cpp:34-73 | the unrolled code writes the reversal of the LEB128 bytes, for all 32-bit values |
| `Coding.DecodeVarintR` | src/coding.cpp:95-113 | agrees with the reference decoder on the bytes read downwards; reads below a given lower bound iff it starts below rend and the fewer than five bytes down to the bound all have their continuation bit |
| `Coding.LeavesExactly` | src/coding.cpp:95-113 | the number of bytes read passes the lower bound exactly under that condition |
| `Coding.ForeignByteDecides` | src/coding.cpp:98-108 | for the one-byte buffer 0x80 the decoder succeeds with a value taken from the byte below it |
| `Coding.ReversedRoundTrip` | src/coding.cpp:34-113 | started on the last byte of a reversed encoding the value comes back |
| `Coding.ZigZagMeaning` | include/xfutil/coding.h:161-172 | shift and xor give 2v for v >= 0 and -2v-1 for v < 0 |
| `Coding.UnZigZagMeaning` | include/xfutil/coding.h:173-184 | the inverse expression, on all words |
| `Coding.ZigZagRoundTrip` | include/xfutil/coding.h:161-184 | decoding undoes encoding for every signed value of every width |
| `Coding.ZigZagOnto` | include/xfutil/coding.h:161-184 | and encoding undoes decoding |
| `Coding.FixedRoundTrip` | include/xfutil/coding.h:31-114 | fixed-width bytes give the value back |
| `Coding.FixedBytesAt` | include/xfutil/coding.h:31-62 | byte i is the value shifted by 8i |
| `Coding.EncodeFixed` | include/xfutil/coding.h:31-62 | writes the little-endian bytes and nothing else |
| `Coding.DecodeFixed` | include/xfutil/coding.h:64-114 | succeeds iff enough bytes are left, gives their value; no move on failure |
| `Coding.EncodeString` | include/xfutil/coding.h:257-273 | writes the length's varint and the bytes |
| `Coding.EndTest` | src/coding.cpp:122-125 | the 64-bit comparison of the end agrees with the intended one iff the sum does not wrap |
| `Coding.WrappingLengths` | src/coding.cpp:117-125 | an encoded length wraps iff its end is no 64-bit address |
| `Coding.DecodeString` | src/coding.cpp:115-130 | succeeds iff a length decodes and that many bytes are left or the sum wraps; the view and the new position in both cases |
| `Packing.EncodingFits` | src/pack.cpp:33-164 | the room reserved for a value is enough for its bytes, and there is at least one |
| `Packing.DecodeEncode` | src/unpack.cpp:50-175 | decoding a value's bytes followed by anything, with its type, gives it back and consumes just them |
| `Packing.WireFormat` | src/pack.cpp:33-164 | which bytes: one for the small types, LEB128 of the number or its zigzag code, little-endian for fixed ones, length and bytes for strings |
| `Packing.RoomTight` | src/pack.cpp:33-164 | the room asked for is what the longest encoding of the type takes |
| `Packing.NarrowRead` | include/xfutil/coding.h:218-247 | a number read as a narrower type is cut to its low bits |
| `Packing.ByteRead` | include/xfutil/unpack.h:37-51 | every byte reads as a value of each one-byte type |
| `Packing.WriteValue` | src/pack.cpp:33-164 | each overload writes its value's bytes |
| `Packing.ReadValue` | src/unpack.cpp:50-175 | each overload reads as the reference decoder does, on any bytes but a string length that wraps, which is accepted against it and sets the position back |
| `Packing.CapacityTellsOrigin` | src/buffer.cpp:120-158 | a block's capacity equals the pool's block size iff it came from the pool, which is what Free relies on; else it is the least multiple of 4096 that suffices |
| `Packing.StringFits` | src/pack.cpp:151-164 | strings shorter than 2^21 never overrun a block |
| `Packing.StringOverrun` | src/pack.cpp:151-164 | any longer string overruns some block |
| `Packing.StringRoom` | src/pack.cpp:154 | the two together as an equivalence |
| `Packing.BlockBuffer.Alloc` | src/buffer.cpp:137-158 | appends a new empty block of the right capacity, others unchanged |
| `Packing.LaidAppend` | src/pack.cpp:33-164 | appending one value's bytes keeps the layout: whole values per block, no empty block but the first |
| `Packing.Packer.constructor` | src/pack.cpp:27-31 | starts on one empty block |
| `Packing.Packer.Reserve` | src/pack.cpp:35-40 | afterwards the current block has the room; a new block iff it had not, else all blocks are as they were |
| `Packing.Packer.Emit` | src/pack.cpp:161 | the value's bytes are written at the write pointer, nothing before it changes |
| `Packing.Packer.Commit` | src/pack.cpp:162-163 | size and write pointer move together, the values packed so far grow by one |
| `Packing.Packer.Pack` | src/pack.cpp:33-164 | one more value is packed, in a new block iff the current one has less than the value's room; pointer is start plus size, size within capacity, no value straddles blocks |
| `Packing.Unpacker.constructor` | src/unpack.cpp:28-32 | starts before the first value |
| `Packing.Unpacker.NextBlock` | src/unpack.cpp:34-48 | moves on by one block; every block but the first has a value, so one call is enough |
| `Packing.Unpacker.Unpack` | src/unpack.cpp:50-175 | gives the next value packed, false iff there is none |
| `Packing.PackThenUnpack` | src/unpack.cpp:34-175 | any values packed and unpacked with their types come back in order, and one more unpack fails |
| `LruModel.DemoteLogical` | include/xfutil/lru_cache.h:167-182 | moving the last hot entry to the cold tier, over a copy that may be there, changes no answer |
| `LruModel.ReserveHotKeeps` | include/xfutil/lru_cache.h:163-184 | nor does any number of such moves |
| `LruModel.GetKeepsContents` | include/xfutil/lru_cache.h:76-115 | Get keeps the invariant and the contents for every key |
| `LruModel.ReserveColdKeeps` | include/xfutil/lru_cache.h:151-161 | eviction keeps the longest prefix of recent entries that fits |
| `LruModel.AddBound` | include/xfutil/lru_cache.h:58-74 | barring overflow, after Add the cold size is the true sum and within its limit, or the cold list is just the new entry |
| `LruModel.AddPresent` | include/xfutil/lru_cache.h:58-74 | an entry still in the cold tier after the eviction stays as it is, with its value and place; only otherwise the new one is added, in front; the key then has its old value if it was hot or survived, else the new one |
| `LruModel.AddOthers` | include/xfutil/lru_cache.h:58-74 | another key keeps its value iff it is hot or survives the eviction |
| `LruModel.DeleteContents` | include/xfutil/lru_cache.h:117-142 | other keys keep their values; the key is gone iff it was not in both tiers |
| `LruModel.DeleteMayResurface` | include/xfutil/lru_cache.h:117-142 | a run in which a deleted key is found again |
| `LruModel.RunSafe` | include/xfutil/lru_cache.h:58-184 | over any run: distinct keys per tier, counter equal to the sum of cold sizes, every entry from an Add |
| `LruModel.RunLookup` | include/xfutil/lru_cache.h:76-115 | every value found came from an earlier Add of that key |
| `LruOrder.HitRecency` | include/xfutil/lru_cache.h:80-91 | a hit on a hot entry puts it first; the others keep their order, the cold tier stays |
| `LruOrder.PromotionRecency` | include/xfutil/lru_cache.h:93-110 | a hit on a cold entry puts it first among the hot, after making room |
| `LruOrder.ReserveHotExactly` | include/xfutil/lru_cache.h:163-184 | making room keeps the most recent hot entries, as many as the counter lets fit; the others go to the front of the cold list in their order, in the place of older copies |
| `LruOrder.HotCounterDrifts` | include/xfutil/lru_cache.h:101-124 | over any run the hot counter lags behind the true sum by everything ever promoted |
| `LruCacheImpl.TierDistinct` | include/xfutil/lru_cache.h:186-201 | each index holds exactly the keys of its list, which are distinct |
| `LruCacheImpl.TierFind` | include/xfutil/lru_cache.h:80-94 | each index entry leads to its own key's node |
| `LruCacheImpl.LruCache.Add` | include/xfutil/lru_cache.h:58-74 | lists, index maps and counters follow the model |
| `LruCacheImpl.LruCache.Get` | include/xfutil/lru_cache.h:76-115 | likewise; returns the logical contents' value and counts hit or miss |
| `LruCacheImpl.LruCache.Delete` | include/xfutil/lru_cache.h:117-142 | likewise; true iff the key had a value |
| `LruCacheImpl.LruCache.ReserveColdList` | include/xfutil/lru_cache.h:151-161 | likewise |
| `LruCacheImpl.LruCache.ReserveHotList` | include/xfutil/lru_cache.h:163-184 | likewise, with collisions |
| `BloomFilter.RotateIs` | src/bloom_filter.cpp:61 | the shifts and or rotate a 32-bit hash right by one |
| `BloomFilter.Rotate` | src/bloom_filter.cpp:61 | halves the hash, its low bit becoming the top one |
| `BloomFilter.RotatedIs` | src/bloom_filter.cpp:56-62 | the hash of probe j is the key's with its low j bits moved above the others |
| `BloomFilter.BloomFilter.Bytes` | src/bloom_filter.cpp:43-47 | the least number of bytes that hold the bits of all keys |
| `BloomFilter.Resize` | src/bloom_filter.cpp:49 | old bytes stay, new ones are 0 |
| `BloomFilter.SetBitAt` | src/bloom_filter.cpp:59 | sets that bit and no other |
| `BloomFilter.MarkAllBits` | src/bloom_filter.cpp:52-63 | a bit is set iff it was or some key's rotated probe hits it |
| `BloomFilter.FreshBits` | src/bloom_filter.cpp:37-65 | on a fresh filter: iff some key's rotated probe hits it |
| `BloomFilter.OrderIrrelevant` | src/bloom_filter.cpp:37-96 | the data depends only on the set of hashes |
| `BloomFilter.NoFalseNegative` | src/bloom_filter.cpp:99-118 | every inserted hash passes, also with fewer probes |
| `BloomFilter.AcceptedExactly` | src/bloom_filter.cpp:99-118 | a fresh filter accepts a hash iff each of its probes falls on a probe of some key |
| `BloomFilter.BloomFilter.Create` | src/bloom_filter.cpp:37-65 | the nested loops build that data; false and no change for no keys |
| `BloomFilter.BloomFilter.CreateFromDeque` | src/bloom_filter.cpp:67-96 | the same data, and the deque ends up empty |
| `BloomFilter.BloomFilter.Check` | src/bloom_filter.cpp:99-118 | true iff all probes hit set bits, or there is no data |
| `BloomFilter.CreateAttachCheck` | include/xfutil/bloom_filter.h:42-45 | a filter with the same or fewer probes attached to the data accepts every inserted hash |
| `LogRotation.HistoryShift` | src/logger_impl.cpp:64-73 | shifting all files up by one drops just the oldest from the history |
| `LogRotation.RotationLosesOldest` | src/logger_impl.cpp:57-75 | after Rename the history is the old one without its oldest backup, or all of the old one exactly when max_file_num is 0 and there is no backup below the top place |
| `LogRotation.TopFileKept` | src/logger_impl.cpp:61-73 | a directory in which the top file outlives a rotation with max_file_num 0 |
| `LogRotation.LoggerImpl.Rename` | src/logger_impl.cpp:57-75 | the loop performs that rotation, with backups missing or not; backups above the top place stay, backup 0 stays too unless max_file_num is 0, when it is removed |
| `LogRotation.LoggerImpl.Reopen` | src/logger_impl.cpp:77-85 | what of the history survives, and an empty current file with counter 0 |
| `LogRotation.LoggerImpl.Write` | src/logger_impl.cpp:87-99 | below the limit the data is appended and nothing else changes; otherwise the appended directory is rotated and the current file empty; counter equal to the current file's length |
| `LogRotation.CutRotate` | src/logger_impl.cpp:57-85 | each file holds the piece of the log between two consecutive rotations, and a rotation keeps it so |
| `LogRotation.KeepsSince` | src/logger_impl.cpp:57-99 | everything since the rotation that began the oldest backup is there, and with more rotations than backups nothing else |
| `LogRotation.LoggerImpl.WriteAll` | src/logger_impl.cpp:87-99 | over any run of writes: rotations exactly where a write reaches the limit, everything since the rotation that began the oldest backup kept, counter equal to the current file's length |

## Left out

- Timed Push and Pop and SetCapacity of the queue: a timed waiter may leave after it was notified, and a larger capacity notifies nobody, so the wake-up invariant does not cover them.
- Submit racing Stop: Stop begins only when no Submit is past its state check; restart after Stop, request numbers and elapsed time are not modelled; at least one worker per group.
- The system calls of ProcessRequest: each returns an arbitrary result, so the switch over commands is one step.
- Requests of 2^32 commands or more, for which the 32-bit completion counter would wrap.
- aio.cpp is modelled as steps on values, not as methods with endless loops; the queue is modelled both ways, a method being one stretch under the mutex.
- Allocator: one MemoryPool per BlockPool, allocation succeeds, clients free only what they have and only once; so the null results of BlockPool.Alloc and of FindMemoryBlock are not followed.
- MemoryBlock.MemoryBlockInit: sizes are unbounded naturals; what 32-bit sizes and the 16-bit element count demand is in the preconditions of Init.
- RawMemory stores a whole word at its address; overlapping partial writes to a word are not modelled.
- WriteBuffer, and the loop of BlockBuffer.Free (only the test it relies on is modelled).
- Packing.Packer.Pack: strings are shorter than 2^21 bytes, the exact range in which the code is safe; block sizes do not overflow 32 bits.
- Packing.Unpacker.Unpack: types are asked for as they were packed.
- float and double are their bit patterns; the overloads for several widths are one member with a width.
- Packing.ReadValue: when a string length wraps, the bytes that the view then covers lie outside the buffer and are not modelled.
- Coding.DecodeVarintR: the bytes that are read must exist, in the buffer or below it; reading unmapped memory is not modelled.
- LruCache: no bound on the hot tier and no Size(), because the hot counter only ever decreases; the 0.6 share is a parameter.
- Bloom filter: the floating-point choice of the number of probes; any number from 1 to 30 is allowed.
- Log rotation: input and output never fail; formatting and the logging thread are left out.
- Clock, files, directories, threads, processes, locks, INI parsing, strings and hashing: thin wrappers or easier members.
