# Verified models of four C systems

This project models four programs of the repository and proves what they promise, with
Dafny 4.11. `dafny verify dfyconfig.toml` checks all of it.

**Memory allocator** (`a9-npsadafule-main`). Memory is a map from byte addresses to fragments
of the words stored there, so overlapping or torn stores are visible. Class `Allocator` works on
that memory as the C code does: it follows links from header to header, splits, inserts,
coalesces and grows. It is proved against a state machine over heap layouts, in which the heap
obtained from the system is a gapless sequence of free, live and lost chunks. Lost chunks are
the ones that `alloc` forgets when it grows the heap while the free list is not empty.

**MapReduce engine** (`a10-npsadafule-main`). The two thread pools are transition systems whose
only shared action is to append to an array; a run is any schedule. Cutting the arrays into
ranges, grouping and the growing arrays are imperative. The main theorem equates every run of
`mr_exec` with a sequential group-by.

**Group-chat server and client** (`a11-npsadafule-main`). The server is a labelled transition
system with one step for each lock, unlock, wait, signal, broadcast, `recv`, `send` and shared
access: broadcaster, accept loop and one handler for each client, with the three mutexes, both
condition variables, the client array that is shifted element by element, and descriptors that
are used again after `close`. History fields record the broadcast log and each client's stream.
The wire format is modelled byte by byte at both ends, and the message queue as linked nodes.

**Blockchain with parallel mining** (`a12-npsadafule-main`). SHA-256 is a parameter. The eight
workers are a transition system; class `Blockchain` adds and verifies blocks on its array.

| file | contents |
|---|---|
| Bytes, Digests, Mining, MiningBound, Blockchain | bytes and `memcmp`, the nonce race and its length, the chain |
| HeapMemory, HeapLayout, HeapSpec, HeapRuns, HeapAllocator | bytes of memory, chunk layouts, the allocator's state machine, its runs, the C code over memory |
| CStrings, GrowingArray, WorkerPool, Grouping, GroupByKey, MapReduce, MapReduceEngine | strings, the emission arrays, thread pools, ranges and groups, grouping as a relation, the pipeline, `mr_exec` |
| ChatModel, ChatLocks, ChatRegistry, ChatDelivery, ChatTermination, ChatProgress | the server's transition system and its invariants |
| ChatRuns, ChatEnding | what holds in all reachable states, how the chat ends |
| ChatWire, ChatClientLog, ChatEndToEnd | the wire format, what a client logs, and both together from the bytes sent to the lines logged |
| Sequences | facts about sequences, given by name |
| MessageQueue, ChatQueue | the linked queue, and that it does what the transition system's steps say |

Where the repository's documentation and its code differ, the models follow the code:
`dealloc` inserts by address (`alloc.c:127-142`), not at the head of the list
(`a9-npsadafule-main/README.md:120`); `allocopt` starts a fresh heap at the current break instead
of moving the break back (`alloc.c:15-19`); the engine splits its input into portions that differ
by at most one (`interface.c:209-220`); `bc_add_block` returns 0 on success, not the index of the
block (`blockchain.c:192`).

Some properties hold only under a condition, and the condition is proved to be exact:

- `alloc` forgets free blocks exactly when it grows the heap while the list is not empty
  (`HeapRuns.LostIffForgot`; `HeapRuns.LossIsReached` gives such runs), and returns a block
  shorter than requested exactly when it grows for more than 240 bytes (`HeapRuns.AllocSize`;
  `HeapRuns.ShortBlockIsReached`).
- The workers can all be joined exactly when some nonce is valid (`MiningBound.JoinableIffSolvable`).
- An edited chain is accepted exactly when the edit is a hash collision that keeps the link
  (`Blockchains.TamperingNeedsCollision`).
- With `e` clients expected and at most `n` connecting, nothing is ever queued after the terminate
  message exactly when `n <= e` or none are expected (`ChatEnding.LastExactlyWithin`).
- The handler gets through newline-free contents exactly when none is longer than 1016 bytes
  (`ChatWire.ServedIffShort`).
- The receiver meets a message without any text exactly when the stream breaks off after a bare
  header (`ChatWire.UnderflowIffHeader`). There `client.c:74` writes before the start of
  `message`, logs a line of indeterminate text and goes back to `recv`, which fails; the model
  stops at that write.

## Model

| member | source | states |
|---|---|---|
| Digests.MemcmpIsNumericOrder | a12-npsadafule-main/src/blockchain.c:45-48 | byte-wise comparison of buffers orders them as the big-endian numbers they denote, and is zero only for equal buffers |
| Digests.DifficultyIsNumeric | a12-npsadafule-main/src/blockchain.c:45-48 | a hash meets the difficulty if and only if its number is at most the target |
| Digests.NoDifficultyAcceptsAll | a12-npsadafule-main/src/blockchain.c:91-94 | the target installed for a null argument accepts every hash |
| Mining.PrepareWorkers | a12-npsadafule-main/src/blockchain.c:137-169 | the creation loop gives worker i the i-th nonce range, the last one up to the largest 32-bit nonce |
| Mining.RangesPartition | a12-npsadafule-main/src/blockchain.c:137-154 | every 32-bit nonce lies in exactly one of the eight ranges |
| Mining.ExecKeepsInv | a12-npsadafule-main/src/blockchain.c:50-80 | under every schedule the shared core is the untouched template until `found` is set, and then the template with a valid 32-bit nonce |
| Mining.FoundIsFinal | a12-npsadafule-main/src/blockchain.c:67-75 | once `found` is set, no continuation of the run clears it or writes the core again |
| Mining.JoinedMeansFound | a12-npsadafule-main/src/blockchain.c:171-181 | when all eight workers have returned, a valid nonce has been published |
| Mining.EarlyWorkersNeverWrap | a12-npsadafule-main/src/blockchain.c:55-77 | workers 0 to 6 stay inside their own ranges under every schedule, so their counters never wrap |
| Mining.EarlyWorkersSkipNothing | a12-npsadafule-main/src/blockchain.c:55-77 | under every schedule no nonce that an early worker has moved past is valid |
| Mining.ReturnedMeansExhausted | a12-npsadafule-main/src/blockchain.c:55-79 | an early worker that has returned while nothing was found has tried its whole range, and no nonce in it is valid |
| MiningBound.StepUsesWork | a12-npsadafule-main/src/blockchain.c:55-77 | if a valid nonce exists, each step of an unfinished worker, also of the last one that wraps at 2^32, lowers a common measure |
| MiningBound.SearchIsBounded | a12-npsadafule-main/src/blockchain.c:55-77 | if a valid nonce exists, all eight workers together take at most a fixed number of steps under any schedule |
| MiningBound.FoundEndsSearch | a12-npsadafule-main/src/blockchain.c:56-62 | once `found` is set, all workers together take at most two more steps each under any schedule |
| MiningBound.BusyRunCompletes | a12-npsadafule-main/src/blockchain.c:171-174 | then any partial run extends to one in which all eight have returned |
| MiningBound.JoinableIffSolvable | a12-npsadafule-main/src/blockchain.c:55-77 | some run lets all eight be joined if and only if some 32-bit nonce is valid |
| Blockchains.Blockchain.Init | a12-npsadafule-main/src/blockchain.c:83-97 | the chain is empty, and has the given target or one that every hash meets, also as a number |
| Blockchains.Blockchain.AddBlock | a12-npsadafule-main/src/blockchain.c:100-193 | for every schedule: 0 exactly if there is room, the clock works and all eight threads start; then one block follows the unchanged ones, with the caller's data, its position, the time read, the hash of the block before (32 zero bytes at the start), a 32-bit nonce and its own hash, which as a number is at most the target; -1 leaves the chain; acceptance of the chain is unchanged either way |
| Blockchains.Blockchain.Verify | a12-npsadafule-main/src/blockchain.c:196-235 | returns 0 if and only if every block has its own hash, which as a number is at most the target, and the hash of the block before it; else -1 |
| Blockchains.AcceptedMeans | a12-npsadafule-main/src/blockchain.c:196-235 | acceptance in terms of hashes, numbers and links alone |
| Blockchains.AcceptedAppend | a12-npsadafule-main/src/blockchain.c:196-235 | a chain with an acceptable block appended is accepted if and only if the chain was |
| Blockchains.SameTail | a12-npsadafule-main/src/blockchain.c:196-235 | accepted chains with the same last hash agree backwards from the end or exhibit a hash collision |
| Blockchains.LastHashFixesChain | a12-npsadafule-main/src/blockchain.c:196-235 | accepted chains with the same last hash are equal, or two different cores share a hash, or (different lengths) some core hashes to zero |
| Blockchains.TamperingNeedsCollision | a12-npsadafule-main/src/main.c:157-181 | a chain with one edited core and all stored hashes kept is accepted if and only if the new core collides with the old one and keeps the link |
| HeapLayout.Disjoint | a9-npsadafule-main/src/alloc.c:35-146 | two chunks of a tiled heap do not overlap, are ordered by address and lie inside the heap |
| HeapLayout.MergePassFollowsLayout | a9-npsadafule-main/src/alloc.c:22-32 | the pass over the list, which compares only addresses, merges exactly the free chunks that are neighbours in the heap |
| HeapLayout.MergeLayoutCoalesces | a9-npsadafule-main/src/alloc.c:22-32 | one pass leaves the same heap tiled with no two free neighbours, all other chunks in place and every byte in its kind |
| HeapLayout.MergePassSeparates | a9-npsadafule-main/src/alloc.c:22-32 | one pass over any sorted list leaves a sorted list in which no two blocks touch and that covers the same bytes |
| HeapSpec.PickIsPolicy | a9-npsadafule-main/src/alloc.c:46-69 | the search succeeds if and only if a block fits, and finds the first, the earliest smallest or the earliest largest fitting one |
| HeapSpec.ChosenIsUnique | a9-npsadafule-main/src/alloc.c:46-69 | the policy's description names one block only |
| HeapSpec.CarveLists | a9-npsadafule-main/src/alloc.c:90-111 | a split replaces the chosen block, in its place, by a live block and the remainder if any; all other chunks stay |
| HeapRuns.ApplyKeepsInv | a9-npsadafule-main/src/alloc.c:35-153 | every call, growth included, keeps the heap exactly tiled and maximally coalesced |
| HeapRuns.BytesTotal | a9-npsadafule-main/src/alloc.c:156-174 | free, live and lost bytes, headers included, add up to the heap |
| HeapRuns.Conservation | a9-npsadafule-main/src/alloc.c:35-146 | calls that do not grow the heap keep free plus live bytes; growth adds 256 bytes and loses exactly those that were on the list |
| HeapRuns.AllocResult | a9-npsadafule-main/src/alloc.c:90-116 | a successful `alloc` adds exactly one live block, the returned one, and leaves all other live blocks in place |
| HeapRuns.AllocSize | a9-npsadafule-main/src/alloc.c:71-116 | the payload is at most 16 bytes more than requested, and at least the request unless the heap grew for more than 240 bytes |
| HeapRuns.AllocList | a9-npsadafule-main/src/alloc.c:40-69 | without growth the block is the policy's, and the list changes there only: removed or replaced by its remainder |
| HeapRuns.AllocFailure | a9-npsadafule-main/src/alloc.c:71-79 | a positive request fails if and only if nothing fits and the limit or the system forbids growth, and then changes nothing |
| HeapRuns.AllocFacts | a9-npsadafule-main/src/alloc.c:35-117 | in sizes and limits alone: when the pointer is null, when the heap grows by 256 bytes, and where the block is then |
| HeapRuns.AllocBlock | a9-npsadafule-main/src/alloc.c:90-116 | a non-null pointer is 16 bytes past a new live chunk of at most 16 bytes more than requested, at least the request exactly if something fitted or 240 bytes were enough |
| HeapRuns.PolicyChoice | a9-npsadafule-main/src/alloc.c:46-69 | the block taken when one fits: the lowest, the smallest or the largest that fits, and the lowest of those as large |
| HeapRuns.DeallocResult | a9-npsadafule-main/src/alloc.c:120-146 | exactly the named block stops being live, and all its bytes become free |
| HeapRuns.RunKeepsInv | a9-npsadafule-main/src/alloc.c:22-153 | whatever calls a program makes from an empty heap on, every state is exactly tiled and maximally coalesced |
| HeapRuns.RunsAreSafe | a9-npsadafule-main/src/alloc.c:22-153 | in every state of every run chunks are disjoint and inside the heap, all bytes are accounted for, and the list is sorted with no two blocks touching |
| HeapRuns.OptionsAreObeyed | a9-npsadafule-main/src/alloc.c:149-153 | in every state after `allocopt`, until the next one, policy and limit are those asked for, and an allocation that need not grow the heap takes the block of that policy |
| HeapRuns.LimitIsKept | a9-npsadafule-main/src/alloc.c:73-88 | under a limit the size obtained since a reset never exceeds it |
| HeapRuns.GrowthIsReached | a9-npsadafule-main/src/alloc.c:73-88 | for every k, k requests of 240 bytes make the heap grow k times if there is no limit or it is at least 256 k |
| HeapRuns.LostIffForgot | a9-npsadafule-main/src/alloc.c:85-111 | since a reset, blocks have been lost if and only if some growth met a non-empty list |
| HeapRuns.SmallLimitLosesNothing | a9-npsadafule-main/src/alloc.c:73-88 | under a limit from 256 to 511 no run loses a block |
| HeapRuns.ShortBlockIsReached | a9-npsadafule-main/src/alloc.c:76-87 | a first request of more than 240 bytes succeeds with a block of 240 bytes |
| HeapRuns.LossIsReached | a9-npsadafule-main/src/alloc.c:85-111 | two requests of which the second does not fit what the first leaves over lose that remainder |
| HeapRuns.AllFreedIsOneChunk | a9-npsadafule-main/src/main.c:122-127 | nothing live and nothing lost if and only if the heap is a single free chunk of its size minus one header |
| HeapAllocator.Allocator.ResetAllocator | a9-npsadafule-main/src/alloc.c:15-19 | an empty heap starts at the current program break |
| HeapAllocator.Allocator.AllocOpt | a9-npsadafule-main/src/alloc.c:149-153 | sets the policy and limit asked for, size zero, start at the break and an empty list; no byte of memory changes |
| HeapAllocator.Allocator.CoalesceFreeBlocks | a9-npsadafule-main/src/alloc.c:22-32 | the linked list becomes the merged one; only bytes in headers of the list change |
| HeapAllocator.Allocator.FindPlace | a9-npsadafule-main/src/alloc.c:128-134 | finds the links around the block's place by address |
| HeapAllocator.Allocator.LinkIn | a9-npsadafule-main/src/alloc.c:125-142 | the linked list is then the list of free chunks with the block among them; only two link words change |
| HeapAllocator.Allocator.Dealloc | a9-npsadafule-main/src/alloc.c:120-146 | refines the state machine's release: afterwards the live chunks are those before without the one freed; changes no byte of any other live block |
| HeapAllocator.Allocator.FindFit | a9-npsadafule-main/src/alloc.c:40-69 | the pointer search finds the block the policy picks, and its predecessor |
| HeapAllocator.Allocator.SplitOff | a9-npsadafule-main/src/alloc.c:91-96 | writes the header of the remainder and the new size, and nothing outside the block |
| HeapAllocator.Allocator.TakeBlock | a9-npsadafule-main/src/alloc.c:90-114 | leaves a list of exactly the remaining free chunks and the size in the block's header |
| HeapAllocator.Allocator.Grow | a9-npsadafule-main/src/alloc.c:76-87 | the break moves by 256, the new block keeps its own header even when coalescing absorbs it, and no live byte changes |
| HeapAllocator.Allocator.Alloc | a9-npsadafule-main/src/alloc.c:35-117 | refines the state machine's allocation; null exactly if nothing positive is asked for, or nothing fits and the limit or the system forbids 256 bytes more; otherwise the policy's block, or after growth the one at the old break; changes no byte of any block live before |
| HeapAllocator.Allocator.Info | a9-npsadafule-main/src/alloc.c:156-174 | reported payload plus headers are the free bytes, which with live and lost ones make up the heap; largest and smallest are attained |
| HeapAllocator.Allocator.WritePayload | a9-npsadafule-main/src/main.c:98-99 | the program writing into a live payload disturbs nothing the allocator relies on |
| CStrings.StrCmpOrder | a10-npsadafule-main/src/interface.c:52-56 | the comparison is zero only for equal strings and antisymmetric |
| CStrings.StrCmpTransitive | a10-npsadafule-main/src/interface.c:52-56 | the comparison is transitive |
| CStrings.StrCmpIsByteOrder | a10-npsadafule-main/src/interface.c:52-56 | negative exactly if, after a common first part, the left string ends or has the smaller byte |
| CStrings.TruncateKeepsPrefix | a10-npsadafule-main/src/interface.c:152-153 | what is kept of a pair is the first 15 bytes of key and value |
| GrowingArray.KVArray.constructor | a10-npsadafule-main/src/interface.c:28-38 | an empty array of capacity 16 |
| GrowingArray.KVArray.Emit | a10-npsadafule-main/src/interface.c:137-164 | appends the pair with the first 15 bytes of each field, keeps all others through doubling, and n emissions copy fewer than 2n elements |
| GrowingArray.KVArray.Reorder | a10-npsadafule-main/src/interface.c:236-239 | sorting in place leaves the chosen permutation |
| WorkerPool.ExecKeepsInv | a10-npsadafule-main/src/interface.c:74-80 | under every schedule, what a thread has appended plus what it has still to emit is its whole sequence |
| WorkerPool.FinishedRunIsShuffle | a10-npsadafule-main/src/interface.c:137-164 | a finished array is a shuffle: each thread's elements in it are its whole emission sequence in order |
| WorkerPool.FinishedRunContents | a10-npsadafule-main/src/interface.c:74-80 | a finished array holds exactly the emissions of all calls |
| WorkerPool.BusyRunUsesWork | a10-npsadafule-main/src/interface.c:230-232 | every schedule takes the same number of steps, and is finished exactly after them |
| WorkerPool.BusyRunCompletes | a10-npsadafule-main/src/interface.c:230-232 | every partial run can be continued until all threads have returned |
| Grouping.Scan | a10-npsadafule-main/src/interface.c:107-111 | finds the end of the run of equal keys |
| Grouping.ScanStaysInRange | a10-npsadafule-main/src/interface.c:94-111 | the scan, bounded by the array only, does not pass a range end that lies between two keys |
| Grouping.CountKeys | a10-npsadafule-main/src/interface.c:249-259 | counts the runs of equal keys |
| Grouping.PortionsSum | a10-npsadafule-main/src/interface.c:209-220 | the portions add up to the total and differ by at most one |
| Grouping.MapperRanges | a10-npsadafule-main/src/interface.c:209-228 | the creation loop hands out the balanced ranges |
| Grouping.MapperRangesCover | a10-npsadafule-main/src/interface.c:209-228 | mapper ranges are consecutive and cover the input, so each pair is mapped once |
| Grouping.MapperRangesBalanced | a10-npsadafule-main/src/interface.c:213-219 | no mapper gets two pairs more than another |
| Grouping.TakeKeys | a10-npsadafule-main/src/interface.c:275-283 | advances over the wanted number of runs, or to the end |
| Grouping.ReducerRanges | a10-npsadafule-main/src/interface.c:249-288 | the creation loop hands out ranges of whole runs, balanced by number of keys |
| Grouping.ReducerRangesCover | a10-npsadafule-main/src/interface.c:266-288 | reducer ranges begin and end between keys, are consecutive and cover the array; the key targets add up to all keys |
| Grouping.ReducerRangesBalanced | a10-npsadafule-main/src/interface.c:266-284 | between the start and the end of a reducer's range lie exactly its portion of the keys |
| Grouping.CollectGroup | a10-npsadafule-main/src/interface.c:102-125 | the group holds the run's key and its values in order |
| Grouping.BuildOutput | a10-npsadafule-main/src/interface.c:307-336 | the last pass lists all groups of the sorted array |
| GroupByKey.GroupIsComplete | a10-npsadafule-main/src/interface.c:102-125 | in a sorted array the run at a boundary holds all values of its key |
| GroupByKey.GroupsAreComplete | a10-npsadafule-main/src/interface.c:307-336 | the groups have strictly ascending keys, each key once, each with all its values |
| GroupByKey.ValuesOfPermutation | a10-npsadafule-main/src/interface.c:236-239 | the bag of values under a key does not depend on the order of the pairs |
| MapReduce.ReducersNeverWait | a10-npsadafule-main/src/interface.c:94-100 | no reducer ever waits on the condition variable in any run |
| MapReduce.RunsAreKeys | a10-npsadafule-main/src/interface.c:249-259 | in a sorted array the count is the number of distinct keys |
| MapReduce.MapAllConcat | a10-npsadafule-main/src/interface.c:74-80 | the sequential map of two inputs one after the other is that of the first and then that of the second |
| MapReduce.MapAllOne | a10-npsadafule-main/src/interface.c:74-80 | for one pair it is what the callback emits |
| MapReduce.ReduceKeysOne | a10-npsadafule-main/src/interface.c:102-127 | reducing one key emits what the callback emits for the key and all its values |
| MapReduce.GroupsMean | a10-npsadafule-main/src/interface.c:307-336 | a group-by in elementary terms: keys ascending byte by byte, every key present, each value as often as its pair |
| MapReduce.MapPhase | a10-npsadafule-main/src/interface.c:209-232 | after joining the mappers the array holds exactly what the sequential map emits |
| MapReduce.ReducePhase | a10-npsadafule-main/src/interface.c:236-292 | after joining the reducers the array holds each key reduced once with all its values |
| MapReduce.OutputPhase | a10-npsadafule-main/src/interface.c:297-336 | grouping the sorted final array gives its keys in order with their bags |
| MapReduce.ParallelEqualsSequential | a10-npsadafule-main/src/interface.c:193-343 | for all schedules, thread counts and sorts the output is the sequential group-by |
| MapReduce.OutputIsDetermined | a10-npsadafule-main/src/interface.c:302-336 | two outputs for the same input agree but for the order of values under a key |
| MapReduceEngine.RunPool | a10-npsadafule-main/src/interface.c:213-232 | running the threads on the real array leaves what the transition system says |
| MapReduceEngine.MrExec | a10-npsadafule-main/src/interface.c:193-343 | `mr_exec` returns the sequential group-by: keys ascending byte by byte, every key that was emitted, each value as often as it was emitted with its key |
| ChatLocks.KeepsLocks | a11-npsadafule-main/src/server.c:44-225 | each mutex is held by exactly the thread inside its section, in every step |
| ChatLocks.NoMutexDeadlock | a11-npsadafule-main/src/server.c:171-181 | the holder of the queue or termination mutex can always move; the holder of the client mutex can move or waits for the queue mutex only |
| ChatRegistry.KeepsReg | a11-npsadafule-main/src/server.c:209-222 | the array, in the middle of a shift too, holds the registered clients in join order, with distinct descriptors that denote them |
| ChatRegistry.ReadKeepsReg | a11-npsadafule-main/src/server.c:299-299 | both reads outside the lock find the newest client whatever removals come between them |
| ChatDelivery.SendReaches | a11-npsadafule-main/src/server.c:60-65 | `send` to the i-th slot reaches the i-th registered client and nobody else |
| ChatDelivery.KeepsWindow | a11-npsadafule-main/src/server.c:59-66 | every step keeps each client's stream a contiguous window of the broadcast log |
| ChatDelivery.KeepsFlow | a11-npsadafule-main/src/server.c:46-56 | every step keeps: all queued messages are the log, the one in flight and the queue, and hold each sender's messages in sending order |
| ChatTermination.KeepsCount | a11-npsadafule-main/src/server.c:169-181 | every step keeps the count equal to the number of handlers that stopped reading, and terminate messages queued or about to be queued at one if the count was reached, else none |
| ChatTermination.KeepsLast | a11-npsadafule-main/src/server.c:169-208 | with no more clients than expected, every step keeps terminate last in the queue's history |
| ChatTermination.KeepsEnd | a11-npsadafule-main/src/server.c:68-78 | every step keeps: the flag is set exactly after the terminate broadcast, the log ends there, and no stopping client leaves earlier |
| ChatProgress.KeepsWake | a11-npsadafule-main/src/server.c:46-56 | no thread sleeps on a condition that has come true unless another is about to wake it |
| ChatProgress.OwnNeedsNothing | a11-npsadafule-main/src/server.c:44-309 | what a server thread does by itself does not depend on what clients send or on the descriptor chosen |
| ChatProgress.TowardMoves | a11-npsadafule-main/src/server.c:46-66 | with a message waiting, some server thread can step by itself, without input from a client, a new connection or a spurious wake-up, and its step takes the message or comes nearer to that |
| ChatProgress.HeadIsTaken | a11-npsadafule-main/src/server.c:46-66 | a bounded run of steps that server threads take by themselves takes the head of the queue |
| ChatRuns.KeepsInv | a11-npsadafule-main/src/server.c:44-309 | every step of every thread keeps all the invariants together |
| ChatRuns.ReachableInv | a11-npsadafule-main/src/server.c:44-309 | they hold in every reachable state |
| ChatRuns.TotalOrder | a11-npsadafule-main/src/server.c:58-66 | any two clients received windows of one log and agree wherever these overlap |
| ChatRuns.SenderOrder | a11-npsadafule-main/src/server.c:86-105 | what a client has received from a sender is a contiguous part of what the sender sent |
| ChatRuns.RightClients | a11-npsadafule-main/src/server.c:285-301 | every handler serves the client accepted for it, and registered descriptors are distinct |
| ChatRuns.OneTerminate | a11-npsadafule-main/src/server.c:169-208 | at most one terminate message is ever queued, and only after the expected number of clients stopped |
| ChatRuns.FinishedAreCounted | a11-npsadafule-main/src/server.c:169-208 | the count is at least the number of handlers that have finished, for whatever reason, and at most the number of those that do not read any more |
| ChatRuns.TerminateIsLast | a11-npsadafule-main/src/server.c:68-78 | with no more clients than expected, terminate is the last message queued, and once it is broadcast everything queued has been |
| ChatRuns.StaysRegistered | a11-npsadafule-main/src/server.c:183-189 | a client that sent type 1 stays registered until terminate has been broadcast |
| ChatRuns.WholeStream | a11-npsadafule-main/src/server.c:183-222 | it receives the whole log from its join, which ends in terminate |
| ChatRuns.QueueMoves | a11-npsadafule-main/src/server.c:46-66 | from every reachable state with a message waiting and the broadcaster alive, at most 1000 steps that server threads take by themselves take it |
| ChatEnding.Finish | a11-npsadafule-main/src/server.c:68-83 | once it holds the terminate message, steps that server threads take by themselves let the broadcaster finish |
| ChatEnding.ChatCanEnd | a11-npsadafule-main/src/server.c:44-84 | from every reachable state in which the expected number of clients stopped, steps that server threads take by themselves bring the broadcaster to its end with terminate announced |
| ChatEnding.OneClientTooMany | a11-npsadafule-main/src/server.c:169-181 | for every expected number there is a run with one client more in which a chat message follows terminate in the queue |
| ChatEnding.LastExactlyWithin | a11-npsadafule-main/src/server.c:169-208 | in all states reachable with at most n clients nothing follows terminate, if and only if n is at most the expected number or that is below one |
| ChatClientLog.ClientLogsEverything | a11-npsadafule-main/src/client.c:27-89 | a client that asked to stop logs exactly the chat messages broadcast since it joined, in log order, and stops because of terminate |
| ChatEndToEnd.InputsMatchBytes | a11-npsadafule-main/src/server.c:114-194 | cut into the inputs of the transition system, any byte stream makes the handler queue what it queues byte by byte, and stop at a request exactly if it does so byte by byte |
| ChatEndToEnd.InputsOfSent | a11-npsadafule-main/src/client.c:168-214 | what a client sends for its contents is cut into these contents and the request to stop |
| ChatEndToEnd.TextsOfSent | a11-npsadafule-main/src/client.c:168-214 | the contents found in a client's bytes are the contents it sends |
| ChatEndToEnd.KeepsFed | a11-npsadafule-main/src/server.c:107-225 | every step keeps: what a handler has sent and the contents among what is left to read are all contents of its client's stream, in order |
| ChatEndToEnd.SentIsTexts | a11-npsadafule-main/src/server.c:107-225 | on any byte streams of the clients, each handler has sent a first part of the contents in its client's stream, all of them if it took a request to stop |
| ChatEndToEnd.SentIsServed | a11-npsadafule-main/src/server.c:114-194 | what a handler has sent, framed, is a first part of what it queues byte by byte |
| ChatEndToEnd.SentIsContents | a11-npsadafule-main/src/client.c:168-214 | for clients that send contents and then ask to stop, each handler has sent a first part of these contents |
| ChatEndToEnd.LogIsContents | a11-npsadafule-main/src/server.c:44-84 | everything broadcast is a content in the stream of the client it names, short and without newline |
| ChatEndToEnd.LogIsComplete | a11-npsadafule-main/src/server.c:68-78 | with no more clients than expected, the finished log holds all contents in the stream of every client that asked to stop, in its order |
| ChatEndToEnd.BytesToLogFile | a11-npsadafule-main/src/client.c:27-89 | on any byte streams, a client that stayed to the end logs one line for each chat message broadcast since it joined, each a content of the client named, each client's lines in its order |
| ChatWire.LineIsFirst | a11-npsadafule-main/src/server.c:131-146 | a line ends at the first newline, the limit or the end of the stream |
| ChatWire.ReadContent | a11-npsadafule-main/src/server.c:130-146 | the loop stores one line of at most 1022 bytes from index 1 on, and reports a disconnect inside it |
| ChatWire.BuildMessage | a11-npsadafule-main/src/server.c:148-165 | type byte 0, address, port and content end up in order in a buffer of 1024 bytes |
| ChatWire.Serve | a11-npsadafule-main/src/server.c:114-194 | on any byte stream the handler queues its messages in order and stops for the stream's reason |
| ChatWire.ReadText | a11-npsadafule-main/src/client.c:60-74 | the receiver stores one line of at most 1023 bytes and puts a terminator over its last byte; with nothing to read it stores nothing |
| ChatWire.ReceiveChat | a11-npsadafule-main/src/client.c:37-80 | address, port and text of one message, or none when the stream breaks off |
| ChatWire.Receive | a11-npsadafule-main/src/client.c:27-89 | the receiver logs the entries of the stream in order and stops for the stream's reason |
| ChatWire.BuildChat | a11-npsadafule-main/src/client.c:183-196 | byte 0, content and byte 10 in order |
| ChatWire.TypeBytes | a11-npsadafule-main/include/helper.h:15-16 | byte 1 in place of a type stops the handler with a request to stop and the receiver with terminate; byte 10 ends a line |
| ChatWire.ServerRoundTrip | a11-npsadafule-main/src/server.c:114-168 | every content a client sends is re-framed once, in order, under its address |
| ChatWire.ServedIffShort | a11-npsadafule-main/src/server.c:148-165 | for newline-free contents the handler reaches the terminate message if and only if none is longer than 1016 bytes |
| ChatWire.UnderflowIffHeader | a11-npsadafule-main/src/client.c:60-74 | the receiver meets a message without text if and only if the stream is whole messages followed by a bare header |
| ChatWire.ReceiverRoundTrip | a11-npsadafule-main/src/client.c:27-89 | parsing framed entries of any senders gives them back, also when address or port bytes are newlines |
| ChatWire.WireRoundTrip | a11-npsadafule-main/src/client.c:183-199 | client, server and receiver together give back the same contents and address in order |
| MessageQueue.Queue.constructor | a11-npsadafule-main/src/server.c:34-35 | an empty queue |
| MessageQueue.Queue.Enqueue | a11-npsadafule-main/src/server.c:92-102 | the message goes to the end, nothing else changes |
| MessageQueue.Queue.Dequeue | a11-npsadafule-main/src/server.c:51-55 | the head is taken, the rest stays in order |
| ChatQueue.Push | a11-npsadafule-main/src/server.c:97-102 | on the linked queue the push does what the transition system's step says |
| ChatQueue.Take | a11-npsadafule-main/src/server.c:47-55 | on the linked queue the broadcaster's test takes the head or waits, as the transition system's step says |

## Left out

- Failures of `malloc`, `realloc`, `pthread_create` (outside `bc_add_block`), `send` and `accept`, and what follows them; `sbrk` is contiguous and may refuse.
- Widths of C integers where the programs do not use them: heap sizes, array sizes and counters are unbounded. The 32-bit wrap of the nonce is modelled.
- ChatWire.BuildMessage: is stated for lines that fit into its buffer, because the copy of a longer one passes the end of `message` and C gives it no meaning.
- ChatWire.Serve: takes any stream, but stops with `TooLong` at such a line, where the source copies it and goes on.
- ChatWire.ReadText: with nothing to read, does not model the write before the start of `message`, because C gives it no meaning.
- ChatWire.ReceiveChat: in that case does not model the line of indeterminate text that the source then logs.
- ChatWire.Receive: in that case stops with `Underflow` where the source logs such a line and stops at the next `recv`.
- Round trips of contents with newlines or over 1016 bytes: such contents are read differently from what was sent.
- A second hundred of clients: the accept loop is assumed to find room in the client array.
- The push and the wake-up signal inside `queue_message` are separate steps of the server model; copying into and freeing queue nodes is not part of it.
- Fairness: progress is stated as the existence of runs of the server's own threads, not for every scheduler.
- What the receiver prints: `%s` would stop at a zero byte inside a text; the model logs the whole text.
- The server process never ends (`server.c:274-309`); only the broadcaster's end is modelled.
- Padding bytes in hashed block cores, and SHA-256 itself.
- The order of values under a key, which `qsort` leaves open.
- Sockets, `epoll`, clocks, printing and log files, the shell of `a8-npsadafule-main`, the exercises `a0` to `a7`, build files and test drivers.
