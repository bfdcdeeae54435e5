# Operating-system labs: a verified model

This project models the stateful cores of a set of C programs and proves what they guarantee,
for every input, every number of threads or processes and every interleaving. Where a program
does not do what it is meant to do, the exact condition under which it does is proved, together
with a concrete run in which it does not.

## The cores

**Parallel merge sort** (`sort_index.c`). Worker threads claim blocks from a map under a mutex,
sort them, meet at a barrier, and merge pairs of runs in rounds, clearing the claim map between
two barriers. `SortWorkers` is the small-step system: one program counter per thread, barrier
arrivals and generation, both claim maps, the mutex and the array, with single record writes as
steps. `BottomUp` is the sequential sort that all schedules are proved to compute, and `SortIndex`
has the code on arrays. The proof goes through one notion, jobs on disjoint slices (`SliceJobs`),
used for the block phase and for every merge round. `SortSafety`, `SortPreservation`,
`SortProgress` and `SortResults` hold the invariant, its preservation, deadlock freedom with
termination, and the results; `SortCounts` counts barrier returns
and claims over the steps of a run; `SortOutcome` says exactly when the program sorts. It does not
always: recs_per_block (line 55) is rounded down, so records beyond blocks * recs_per_block are
never sorted by the workers, and the size clamps (lines 64-66, 90-92, 129-130) never change a size.

**Resizable bounded queue between threads** (`thread_funcs.c`, `queue_sem.c`, `queue_cond.c`,
`main.c`, `message.c`). `RingQueue` is the ring as a value, `CircularQueues` the struct with its
array and loops, `SemQueue` and `CondQueue` the two systems of threads. In the semaphore system
every single sem_post and sem_trywait of a resize is a step, so other threads act in between. A
resize sets tail = count without wrapping (`queue_sem.c` line 78, `queue_cond.c` line 79): when
the new capacity equals the count, tail is one past the end, and the next enqueue, once a dequeue has
made room, writes there.
The model keeps this; it is proved when it happens, that it is reachable, and that runs whose
resizes leave room are free of it. A run is followed up to the first such write. In the semaphore
system a pending shrink that does not fit yet is dropped by the next consumer at the top of its
loop; in the condition-variable system it waits.

**Bounded buffer between processes** (`shared_buffer_types.c`, `producer_functions.c`,
`consumer_functions.c`, `system_management.c`). `SharedRing` and `SharedBuffer` are the lazily
wrapping ring as a value and in place; `Processes` is the system, with one write to shared memory
per step and a kill possible between any two steps. Tokens of killed processes are counted as
lost. `system_init` gives the empty-slots semaphore one token more than the guard of
`add_message_to_queue` accepts; the exit this leads to, with the mutex held, is part of the model.
`ProcessLiveness` says exactly when the buffer can still be used and when it is frozen for good,
`ProcessKills` what a kill after each single write leaves behind.
The capacity, 4096 in the source, is a parameter. `Checksum` is the polynomial checksum: it walks
1 + 1 + len bytes from the start of the struct and skips the hash field, so it includes an
alignment byte and leaves out the last three payload bytes.

**Line framing** (`client.c`, `server.c`). `LineStream` says what lines in a byte stream are,
`LineClient` has the client's buffered reader and the loop that waits for the prompt, `LineServer`
the server's partial-send loop.

`dafny verify dfyconfig.toml` checks everything.

## Model

| member | source | states |
|---|---|---|
| IndexRecords.CompareOrders | Working with memory-mapped files/src/sort_index.c:34-37 | compare is minus one, zero or one as the time marks ascend, are equal or descend, and antisymmetric |
| IndexRecords.MergePermutes | Working with memory-mapped files/src/sort_index.c:39-49 | merging two slices of any content loses, invents and duplicates no record |
| IndexRecords.MergeInterleaves | Working with memory-mapped files/src/sort_index.c:39-49 | of any two slices, sorted or not, the merge keeps each one's own order |
| IndexRecords.MergeSorts | Working with memory-mapped files/src/sort_index.c:39-49 | the merge of two sorted slices is sorted by time mark |
| IndexRecords.MergeTiesRightFirst | Working with memory-mapped files/src/sort_index.c:42-45 | for every key the records of the right slice come before those of the left one, each group in its own order |
| IndexRecords.MergeIsTheOnlyOne | Working with memory-mapped files/src/sort_index.c:39-49 | a sequence is the merge of two sorted slices if and only if it is sorted and, key by key, lists the right slice's records and then the left slice's: an independent definition of merge, both directions |
| IndexRecords.SortedPermutationsShareKeys | Working with memory-mapped files/src/sort_index.c:34-37 | two sorted permutations of one array have the same time mark at every index, however ties are broken |
| IndexRecords.MergeAllIsSort | Working with memory-mapped files/src/sort_index.c:94 | what is asked of qsort can be met: a function of the slice that permutes it and leaves nothing out of order under compare |
| BottomUp.Covered | Working with memory-mapped files/src/sort_index.c:55 | the blocks cover all records exactly when blocks divides records, and never leave out as many records as there are blocks |
| BottomUp.AlignedIsMultiple | Working with memory-mapped files/src/sort_index.c:113 | every multiple of the stride is a run start of the round |
| BottomUp.AlignedQuotient | Working with memory-mapped files/src/sort_index.c:113 | every run start of a round is a multiple of the stride |
| BottomUp.SortFromAt | Working with memory-mapped files/src/sort_index.c:89-94 | sorting blocks one after the other sorts each block's own slice once, touches no other slice and not the tail, and permutes the array |
| BottomUp.MergeFromAt | Working with memory-mapped files/src/sort_index.c:113-147 | one merge round replaces every pair of neighbouring runs by its merge, independently of the order of the other pairs, and leaves the tail alone: the pairs of a round tile the covered prefix |
| BottomUp.BlockBySlice | Working with memory-mapped files/src/sort_index.c:89-94 | by array indices: after the first phase records b*r to (b+1)*r - 1, r being records / blocks, are the sort of what they were |
| BottomUp.RoundBySlice | Working with memory-mapped files/src/sort_index.c:125-146 | by array indices: round k turns the slices [left, mid) and [mid, right), with left, mid, right as the worker computes them for a pair, into their merge, the first one as left slice |
| BottomUp.AfterRoundSortsRuns | Working with memory-mapped files/src/sort_index.c:100-154 | after round k every run of 2^k blocks is sorted, the array is a permutation of the input and the uncovered tail is untouched |
| BottomUp.BottomUpSorts | Working with memory-mapped files/src/sort_index.c:51-157 | after all rounds the first blocks*(records/blocks) records are sorted, the rest is as before, nothing is lost |
| SliceJobs.JobsWork | Working with memory-mapped files/src/sort_index.c:94-147 | a thread that writes inside the slice it has claimed disturbs nothing that any other thread relies on |
| SliceJobs.JobsClaim | Working with memory-mapped files/src/sort_index.c:78-84 | claiming an unclaimed block or pair keeps every other thread's knowledge and makes the claimant its only owner |
| SliceJobs.JobsEnd | Working with memory-mapped files/src/sort_index.c:87-98 | when all jobs are claimed and none is held the array is the finished array of the phase |
| SortSafety.InvInit | Working with memory-mapped files/src/sort_index.c:203-225 | the state in which main starts the workers satisfies the global invariant |
| SortPreservation.PhaseChange | Working with memory-mapped files/src/sort_index.c:98-107 | the last arrival at a barrier turns a finished phase into a correctly begun next one |
| SortPreservation.InvStep | Working with memory-mapped files/src/sort_index.c:51-157 | every step of every thread keeps the global invariant: phases, mutex, barrier, claims, slices, counters |
| SortPreservation.InvRun | Working with memory-mapped files/src/sort_index.c:51-157 | the invariant holds in every reachable state, for any number of threads and any interleaving |
| SortProgress.NoDeadlock | Working with memory-mapped files/src/sort_index.c:56-154 | no reachable state with an unfinished thread is stuck |
| SortProgress.StepDecreases | Working with memory-mapped files/src/sort_index.c:56-154 | a lexicographic measure over barriers left, unclaimed work and program counters decreases with every step of any thread |
| SortProgress.EveryScheduleFinishes | Working with memory-mapped files/src/sort_index.c:51-157 | every schedule that keeps moving while it can, brings all workers to their return |
| SortProgress.FinishRun | Working with memory-mapped files/src/sort_index.c:51-157 | every partial run can be continued to one in which all workers have returned |
| SortResults.WorkersSort | Working with memory-mapped files/src/sort_index.c:51-157 | when all workers have returned: permutation of the input, covered prefix sorted, tail untouched, exactly 2 + 3*rounds barrier generations, as many block claims as blocks, exactly blocks - 1 pair claims |
| SortResults.WorkersSortEverything | Working with memory-mapped files/src/sort_index.c:51-157 | if blocks divides records the workers alone leave the whole array sorted |
| SortResults.BarrierSnapshot | Working with memory-mapped files/src/sort_index.c:98-154 | when the generation says that a phase has ended, the array is that of the sequential bottom-up sort at the same round |
| SortResults.ScheduleIndependent | Working with memory-mapped files/src/sort_index.c:51-157 | two complete runs on the same input end with the same array, whatever the thread counts and schedules |
| SortResults.NoClamp | Working with memory-mapped files/src/sort_index.c:64-66 | whatever a thread has claimed ends inside the array, for blocks and for pairs, so neither clamp ever changes a size |
| SortResults.Ownership | Working with memory-mapped files/src/sort_index.c:78-147 | the index ranges that two threads have claimed and not yet finished are disjoint in every reachable state |
| SortResults.ClearingIsAlone | Working with memory-mapped files/src/sort_index.c:103-107 | while thread 0 clears merge_map without the mutex every other thread waits between the two barriers around it |
| SortResults.BarrierAgreement | Working with memory-mapped files/src/sort_index.c:102-154 | every thread inside the round loop is in the round of the current barrier generation and has its step, a power of two below blocks; only a thread still on its way out of the previous round's last barrier is not |
| SortCounts.DeparturesSeen | Working with memory-mapped files/src/sort_index.c:56-151 | counted over the steps of a run, a thread has returned from the barrier as often as there were generations, one less while it has yet to return from the last |
| SortCounts.NobodyAhead | Working with memory-mapped files/src/sort_index.c:56-151 | these counts differ by at most one between threads, and a thread that is behind is inside the barrier: no two threads are on opposite sides of one |
| SortCounts.BarriersCrossed | Working with memory-mapped files/src/sort_index.c:51-157 | in a complete run each thread returns from the barrier exactly 2 + 3*rounds times |
| SortCounts.ClaimedOnce | Working with memory-mapped files/src/sort_index.c:58-119 | in a complete run each block is claimed by exactly one step, and in each round each pair of runs by exactly one step |
| SortCounts.OwnBlockFirst | Working with memory-mapped files/src/sort_index.c:58-73 | whenever a thread sorts or looks for a further block, the block numbered like itself has been claimed |
| SortCounts.ClaimsFirstFree | Working with memory-mapped files/src/sort_index.c:59-83 | a thread claims its own block if that is free, and a scan claims the first free block, or in a round the first free pair |
| SortIndex.MergeWhileBoth | Working with memory-mapped files/src/sort_index.c:40-46 | the main loop of merge writes as much of the merge as can be written before one slice is used up |
| SortIndex.CopyRest | Working with memory-mapped files/src/sort_index.c:47-48 | each of the two loops after it appends exactly what is left of its slice |
| SortIndex.MergeInto | Working with memory-mapped files/src/sort_index.c:39-49 | the array loops write the merge of the two source slices to dst and change nothing else |
| SortIndex.CopyBack | Working with memory-mapped files/src/sort_index.c:146 | the copy replaces exactly the slice from left and leaves every other record |
| SortIndex.MergeInPlace | Working with memory-mapped files/src/sort_index.c:132-148 | merging through a temporary copy replaces the two slices by their merge, also when one of them is empty and the merge is skipped |
| SortIndex.FirstUnclaimed | Working with memory-mapped files/src/sort_index.c:76-84 | the scan returns the first unsorted block, and -1 only when every block is claimed |
| SortIndex.FirstUnmerged | Working with memory-mapped files/src/sort_index.c:110-119 | the scan returns the first unmerged pair that has a right run, and -1 only when none is left |
| SortIndex.SortOneBlock | Working with memory-mapped files/src/sort_index.c:89-94 | sorting a claimed block with its size clamp sorts that block's slice and nothing else |
| SortIndex.MergeBlocks | Working with memory-mapped files/src/sort_index.c:125-147 | the pair's index arithmetic with both clamps merges exactly the two runs of the pair |
| SortIndex.SortBlocksAlone | Working with memory-mapped files/src/sort_index.c:75-96 | the block claim loop, run alone, sorts every block once |
| SortIndex.MergeRoundAlone | Working with memory-mapped files/src/sort_index.c:104-149 | one round's clearing and claim loop, run alone, merges every pair once |
| SortIndex.WorkerAlone | Working with memory-mapped files/src/sort_index.c:51-157 | the worker on arrays, run alone, computes the bottom-up sort that every parallel run is proved to reach |
| SortIndex.PowerOfTwoTest | Working with memory-mapped files/src/sort_index.c:172 | for every int, blocks & (blocks - 1) is zero exactly for zero and the powers of two |
| SortIndex.AcceptedIffValid | Working with memory-mapped files/src/sort_index.c:172 | for all ints: with at least one thread main's argument check accepts exactly the configurations for which the parallel sort is proved, and otherwise also zero blocks |
| SortIndex.MergeHalves | Working with memory-mapped files/src/sort_index.c:230-252 | with more than one thread and block the array becomes the merge of its first records / 2 records with the others, and otherwise stays |
| SortIndex.FinalMergeJoinsHalves | Working with memory-mapped files/src/sort_index.c:230-252 | sorted halves [0, records / 2) and [records / 2, records) become one sorted array that lists, for every time mark, the second half's records before the first's; unsorted ones are interleaved in order; with one thread or block nothing changes |
| SortIndex.FinalMergeKeepsKeys | Working with memory-mapped files/src/sort_index.c:230-252 | the final merge of a sorted array changes no time mark at any index; of any array it loses nothing |
| SortOutcome.OutcomeOfEveryRun | Working with memory-mapped files/src/sort_index.c:203-252 | main leaves the same permutation of the input behind after every complete run |
| SortOutcome.SortsEveryInputIff | Working with memory-mapped files/src/sort_index.c:51-252 | for given counts, every run on every input ends sorted if and only if blocks divides records, or there is at most one record, or there are two and the final merge takes place |
| SortOutcome.UnsortedRun | Working with memory-mapped files/src/sort_index.c:55 | otherwise a concrete input, ones followed by a zero, has a complete run that ends unsorted |
| MessageHash.PaddedSize | Threads of execution, interaction and synchronization/src/message.h:14-16 | for every size field the padded length is the least multiple of four covering size + 1 bytes and the allocation has room for it |
| MessageHash.ComputeHash | Threads of execution, interaction and synchronization/src/message.c:9-33 | the loop returns 256 times the XOR of type, size and the size + 1 payload bytes, reading only inside the padded data |
| MessageHash.HashValue | Threads of execution, interaction and synchronization/src/message.c:16-32 | for data of the padded length the guard never fires, and the hash as a number is 256 times the XOR of type, size and payload: the XOR in the high byte, zero in the low one |
| MessageHash.CreateMessage | Threads of execution, interaction and synchronization/src/message.c:35-70 | every created message has padded data of the right length with its payload in place and zeros behind it, and a stored hash that recomputes equal; its guard never fires |
| MessageHash.HashDetectsKind | Threads of execution, interaction and synchronization/src/message.c:19 | changing the type of a message always changes its hash |
| MessageHash.HashDetectsData | Threads of execution, interaction and synchronization/src/message.c:22-29 | changing one data byte changes the hash if and only if it is a payload byte and not padding |
| RingQueue.EnqueueAppends | Threads of execution, interaction and synchronization/src/thread_funcs.c:69-72 | as long as tail is a valid index an enqueue appends to the queue's contents and keeps tail valid |
| RingQueue.DequeueRemovesFirst | Threads of execution, interaction and synchronization/src/thread_funcs.c:177-180 | a dequeue takes the oldest message and leaves the others in order |
| RingQueue.ResizeKeepsContents | Threads of execution, interaction and synchronization/src/queue_sem.c:68-81 | a resize to any capacity not below the count keeps the contents; tail is a valid index afterwards if and only if the capacity exceeds the count |
| RingQueue.HealthyRuns | Threads of execution, interaction and synchronization/src/thread_funcs.c:63-72 | from a ring whose tail is valid no sequence of guarded operations ever writes out of bounds |
| RingQueue.ResizeSafeIff | Threads of execution, interaction and synchronization/src/queue_sem.c:77-80 | whatever the threads do after a resize stays in bounds if and only if the new capacity exceeds the count |
| RingQueue.ShrinkTenToFive | Threads of execution, interaction and synchronization/src/queue_sem.c:78 | concrete failure: capacity 10, five messages, shrink to 5, one take, one put |
| RingQueue.AddFifo | Threads of execution, interaction and synchronization/src/thread_funcs.c:268-271 | an enqueue keeps extracted history followed by contents equal to the added history |
| RingQueue.ExtractFifo | Threads of execution, interaction and synchronization/src/thread_funcs.c:369-372 | a dequeue keeps extracted history followed by contents equal to the added history |
| RingQueue.ResizedFifo | Threads of execution, interaction and synchronization/src/queue_cond.c:69-80 | a resize keeps extracted history followed by contents equal to the added history |
| CircularQueues.CircularQueue.constructor | Threads of execution, interaction and synchronization/src/queue_sem.c:9-46 | a new queue is empty with all counters zero, empty_slots equal to the size and filled_slots zero |
| CircularQueues.CircularQueue.Enqueue | Threads of execution, interaction and synchronization/src/thread_funcs.c:69-72 | the producers' update is inside the buffer if and only if tail is not one past the end, and then appends the message |
| CircularQueues.CircularQueue.Dequeue | Threads of execution, interaction and synchronization/src/thread_funcs.c:177-180 | the consumers' update returns the oldest message and removes it |
| CircularQueues.CircularQueue.CopyTo | Threads of execution, interaction and synchronization/src/queue_sem.c:68-72 | the copy loop puts the contents, oldest first, at the start of the new buffer |
| CircularQueues.CircularQueue.AdjustEmptySlots | Threads of execution, interaction and synchronization/src/queue_sem.c:83-103 | the post and trywait loops move empty_slots by the difference, stopping at zero |
| CircularQueues.CircularQueue.ResizeSem | Threads of execution, interaction and synchronization/src/queue_sem.c:49-107 | succeeds exactly for a positive capacity not below the count with memory available; contents, totals and requests stay; a refusal changes nothing |
| CircularQueues.CircularQueue.ResizeCond | Threads of execution, interaction and synchronization/src/queue_cond.c:48-89 | as above, and the in-progress flag is down again on every way out |
| CircularQueues.CircularQueue.RequestResize | Threads of execution, interaction and synchronization/src/main.c:126-166 | a request is recorded exactly when none is pending or in progress and the target is positive, and then with matching direction and target |
| CircularQueues.CircularQueue.Destroy | Threads of execution, interaction and synchronization/src/queue_sem.c:117-131 | the drain frees exactly the queued messages, in order, and leaves totals and request fields |
| CircularQueues.CircularQueue.DestroyCond | Threads of execution, interaction and synchronization/src/queue_cond.c:99-116 | the same, with the pending request dropped and resize_in_progress left up |
| SemSafety.ProducerBalance | Threads of execution, interaction and synchronization/src/thread_funcs.c:21-87 | every producer step balances both semaphores' tokens and keeps the FIFO relation |
| SemSafety.ResizeBalance | Threads of execution, interaction and synchronization/src/queue_sem.c:49-103 | starting a resize balances both semaphores' tokens: what is still to be posted or taken back counts as debt |
| SemSafety.ConsumerBalance | Threads of execution, interaction and synchronization/src/thread_funcs.c:103-186 | every consumer step balances both semaphores' tokens and keeps the FIFO relation |
| SemSafety.InvStep | Threads of execution, interaction and synchronization/src/thread_funcs.c:14-216 | every step of any thread or of main keeps the invariant, with posts and trywaits of a resize interleaved with other threads |
| SemSafety.InvRun | Threads of execution, interaction and synchronization/src/thread_funcs.c:14-216 | the invariant holds in every reachable state |
| SemResults.TokensConserved | Threads of execution, interaction and synchronization/src/queue_sem.c:79-103 | in every reachable state empty_slots + empty tokens held, owed or in resize debt + count = capacity + failed trywaits + cleanup posts, and filled_slots + filled tokens held or owed = count + cleanup posts |
| SemResults.NoEmptyWakeUp | Threads of execution, interaction and synchronization/src/thread_funcs.c:170-175 | before the first cleanup post a consumer with its token and the mutex finds a message: the "queue empty" branch is unreachable |
| SemResults.NoFullAfterToken | Threads of execution, interaction and synchronization/src/thread_funcs.c:63-67 | without failed trywaits and cleanup posts a producer with its token and the mutex finds room |
| SemResults.FifoOverRuns | Threads of execution, interaction and synchronization/src/thread_funcs.c:69-74 | in every reachable state the extracted messages are the first ones added, each verifies, and the ring holds the rest; totals differ by the count, which is at most the capacity |
| SemResults.RequestCoherent | Threads of execution, interaction and synchronization/src/main.c:126-143 | resize_request is -1, 0 or 1, a pending one targets capacity plus or minus 5, positive, and the capacity stays a positive multiple of five |
| SemResults.ProducerAddsIff | Threads of execution, interaction and synchronization/src/thread_funcs.c:59-76 | a producer with the mutex puts its message in if and only if there is room and no request is pending; otherwise it releases the mutex and posts its token back |
| SemResults.PendingStopsAdds | Threads of execution, interaction and synchronization/src/thread_funcs.c:63-67 | while a request stays pending nothing is added, over any number of steps, and neither its direction nor its target changes |
| SemResults.RequestsMade | Threads of execution, interaction and synchronization/src/main.c:128-138 | with nothing pending main can always ask to grow by five, and to shrink by five if and only if there are more than five cells |
| SemResults.ConsumerTakesIff | Threads of execution, interaction and synchronization/src/thread_funcs.c:142-186 | a consumer with token and mutex takes a message if and only if there is one and no pending request fits; a fitting request is carried out or dropped, and the token put back |
| SemResults.ShortOfMemory | Threads of execution, interaction and synchronization/src/queue_sem.c:60-64 | when the allocation fails the request is dropped and nothing else changes |
| SemResults.LeavesWithoutToken | Threads of execution, interaction and synchronization/src/thread_funcs.c:43-46 | a thread told to leave when it has just got a token posts it back: two steps later the semaphores are as if it had not taken it |
| SemResults.CanLeave | Threads of execution, interaction and synchronization/src/thread_funcs.c:21-46 | every thread can leave at its loop top, while waiting and with a token, and a thread that has left stays away |
| SemResults.CanStartOver | Threads of execution, interaction and synchronization/src/thread_funcs.c:31-55 | a timed-out wait and a message that could not be made lead back to the loop top, the latter by way of posting the token back |
| SemResults.SemaphoresAtRest | Threads of execution, interaction and synchronization/src/thread_funcs.c:21-186 | when no thread is between taking and giving back a token, filled_slots is the count and empty_slots the number of free cells, up to failed trywaits and cleanup posts |
| SemResults.CleanupPosts | Threads of execution, interaction and synchronization/src/main.c:283-292 | a completed cleanup call posts both semaphores equally often, at least five times more than there were cells when it began |
| SemResults.OverflowIff | Threads of execution, interaction and synchronization/src/thread_funcs.c:69 | a producer whose guard has passed writes past the end of the buffer if and only if the last resize left no room and nothing was enqueued since |
| SemResults.ExactArises | Threads of execution, interaction and synchronization/src/queue_sem.c:77-81 | only a step that installs a buffer with exactly as many cells as messages makes the next enqueue dangerous |
| SemResults.RoomyRunsAreSafe | Threads of execution, interaction and synchronization/src/queue_sem.c:77-81 | a run in which every installed buffer has more cells than there are messages never writes past the end |
| SemResults.LoopTopDropsIff | Threads of execution, interaction and synchronization/src/thread_funcs.c:105-119 | at the top of its loop a consumer can carry out a pending request if and only if the target is not below the count; otherwise every step it has drops the request and changes nothing else |
| SemOverflow.OverflowReachable | Threads of execution, interaction and synchronization/src/queue_sem.c:78 | for every initial size a run with one producer, one consumer, one '+' and one '-' reaches that write, without cleanup and failed trywaits |
| SemOverflow.ShrinkDropped | Threads of execution, interaction and synchronization/src/thread_funcs.c:109-117 | for every initial size a run reaches the silent drop of a well-formed pending shrink |
| CondResults.SectionKeeps | Threads of execution, interaction and synchronization/src/thread_funcs.c:218-413 | every critical section, and both halves of a resize, keep FIFO order, request coherence, the in-progress flag and genuine messages |
| CondResults.InvRun | Threads of execution, interaction and synchronization/src/thread_funcs.c:218-413 | the invariant holds in every reachable state |
| CondResults.FifoOverRuns | Threads of execution, interaction and synchronization/src/thread_funcs.c:268-271 | FIFO over whole runs, every extracted message verifies, totals differ by the count |
| CondResults.RequestsHonoured | Threads of execution, interaction and synchronization/src/queue_cond.c:54-83 | the "Cannot shrink" error is unreachable, resize_in_progress is up exactly while a resizing consumer keeps the mutex, the target is then not below the count, a pending request fits the capacity |
| CondResults.ProducerAddsIff | Threads of execution, interaction and synchronization/src/thread_funcs.c:233-275 | a producer's critical section can add a message if and only if there is room, no request is pending and the mutex is free; otherwise it changes nothing |
| CondResults.PendingStopsAdds | Threads of execution, interaction and synchronization/src/thread_funcs.c:233-257 | while a request, to grow or to shrink, stays pending nothing is added and neither direction nor target changes |
| CondResults.RequestsMade | Threads of execution, interaction and synchronization/src/main.c:145-166 | with nothing pending main can always ask to grow by five, and to shrink by five if and only if there are more than five cells |
| CondResults.ConsumerChooses | Threads of execution, interaction and synchronization/src/thread_funcs.c:307-377 | at its loop top a consumer begins a resize if and only if a request can be carried out; otherwise, as after a wait, it takes a message if and only if there is one |
| CondResults.ResizeEnds | Threads of execution, interaction and synchronization/src/queue_cond.c:59-88 | a resize ends with the new capacity or, when the allocation fails, with only the request gone, and never with other messages |
| CondResults.CanWait | Threads of execution, interaction and synchronization/src/thread_funcs.c:233-257 | a producer that finds no room or a request, and a consumer that finds no message, waits or starts over |
| CondResults.CanLeave | Threads of execution, interaction and synchronization/src/thread_funcs.c:247-250 | every thread can leave when it gets the mutex or at its loop top, and a thread that has left stays away |
| CondResults.PendingShrink | Threads of execution, interaction and synchronization/src/thread_funcs.c:233-257 | while a shrink is pending nothing is added and the count falls by what is taken out: less than count - target before the resize begins, at most that, or one message, once it has begun |
| CondResults.ClearedOnlyWhenDue | Threads of execution, interaction and synchronization/src/thread_funcs.c:379-388 | a pending shrink is cleared only at the end of a resize attempt made when the count fits the target |
| CondResults.OverflowIff | Threads of execution, interaction and synchronization/src/thread_funcs.c:252-272 | whenever a producer's critical section changes anything it writes past the end if and only if the last resize left no room and nothing was enqueued since; otherwise it enqueues one message |
| CondResults.RoomyRunsAreSafe | Threads of execution, interaction and synchronization/src/queue_cond.c:77-80 | a run in which every installed buffer has more cells than there are messages never writes past the end |
| CondOverflow.OverflowReachable | Threads of execution, interaction and synchronization/src/queue_cond.c:79 | for every initial size a run with one '+' and one '-' reaches that write |
| Checksum.StepKeepsLowWord | Producer-consumer problem for processes/src/shared_buffer_types.c:18 | the wrapping 32-bit step agrees with the exact polynomial step modulo 2^16 |
| Checksum.ComputeChecksum | Producer-consumer problem for processes/src/shared_buffer_types.c:7-21 | the wrapping loop, cut to 16 bits, is (5381*33^n + b[0]*33^(n-1) + ... + b[n-1]) mod 2^16, b being bytes 0 and 1 followed by the bytes from 4 up to len + 1 |
| Checksum.GenuineIff | Producer-consumer problem for processes/src/consumer_functions.c:62-71 | a message passes the consumer's check if and only if bytes 2 and 3 hold that sum, low byte first |
| Checksum.HashFieldIgnored | Producer-consumer problem for processes/src/shared_buffer_types.c:15-17 | the checksum does not depend on the hash field |
| Checksum.GenerateAndFill | Producer-consumer problem for processes/src/producer_functions.c:64-81 | whatever is drawn, the message carries the drawn size and payload and verifies; other bytes are left alone |
| Checksum.ProcessAndVerify | Producer-consumer problem for processes/src/consumer_functions.c:62-73 | reports a mismatch exactly for messages whose stored hash is not their checksum, and restores the message bit by bit |
| Checksum.OneByteMatters | Producer-consumer problem for processes/src/shared_buffer_types.c:18 | changing one coefficient always changes the polynomial modulo 2^16, because 33 is invertible there |
| Checksum.ChecksumChangesIff | Producer-consumer problem for processes/src/shared_buffer_types.c:11-19 | overwriting one byte other than the length changes the checksum if and only if its offset is below len + 2 and outside the hash field |
| Checksum.CorruptionDetectedIff | Producer-consumer problem for processes/src/consumer_functions.c:62-71 | a consumer notices one corrupted byte, the length apart, if and only if it is in the header or more than three bytes before the end of the payload |
| Checksum.LastBytesUnprotected | Producer-consumer problem for processes/src/shared_buffer_types.c:11 | the last three payload bytes of every message can be altered unnoticed |
| Checksum.ShortLengthsUnprotected | Producer-consumer problem for processes/src/shared_buffer_types.c:11-19 | lengths up to 2 can be exchanged for each other unnoticed |
| SharedRing.AddAppends | Producer-consumer problem for processes/src/shared_buffer_types.c:38-46 | adding appends, and both lazily wrapped indices keep following the totals modulo the capacity |
| SharedRing.GetTakesFirst | Producer-consumer problem for processes/src/shared_buffer_types.c:55-63 | getting takes the oldest message and keeps the indices in step with the totals |
| SharedRing.RefinesFifo | Producer-consumer problem for processes/src/shared_buffer_types.c:32-64 | any sequence of adds and gets delivers, refuses and leaves exactly what a plain FIFO queue bounded by capacity - 1 does |
| SharedBuffer.QueueBuffer.Initialize | Producer-consumer problem for processes/src/shared_buffer_types.c:23-30 | whatever the segment contained, the queue is empty, all totals are zero and every cell is zeroed |
| SharedBuffer.QueueBuffer.AddMessage | Producer-consumer problem for processes/src/shared_buffer_types.c:32-47 | exits, changing nothing, exactly when capacity - 1 messages are queued; otherwise appends and returns the new total |
| SharedBuffer.QueueBuffer.GetMessage | Producer-consumer problem for processes/src/shared_buffer_types.c:49-64 | exits, changing nothing, exactly on an empty queue; otherwise returns the oldest message and the new total |
| ProcessSafety.InvInit | Producer-consumer problem for processes/src/system_management.c:38-64 | the initial semaphore values and the empty queue satisfy the invariant |
| ProcessSafety.AddMoveInside | Producer-consumer problem for processes/src/shared_buffer_types.c:32-47 | the single writes of an add, the message copy being divisible, amount to one add on the queue by the time the mutex is signalled |
| ProcessSafety.GetMoveInside | Producer-consumer problem for processes/src/shared_buffer_types.c:49-64 | the single writes of a get amount to one get on the queue by the time the mutex is signalled |
| ProcessSafety.MoveBalance | Producer-consumer problem for processes/src/producer_functions.c:38-44 | every step of a producer or consumer, exits included, conserves empty and filled tokens, lost ones counted |
| ProcessSafety.KillInv | Producer-consumer problem for processes/src/producer_functions.c:53-62 | killing any process between any two steps keeps the invariant |
| ProcessSafety.InvRun | Producer-consumer problem for processes/src/consumer_functions.c:32-60 | the invariant holds in every reachable state, with kills anywhere |
| ProcessResults.TokensConserved | Producer-consumer problem for processes/src/system_management.c:48-64 | whenever the mutex is free: count = filled + filled tokens held or owed + lost, capacity = empty + empty tokens held or owed + count + lost, and count <= capacity - 1 |
| ProcessResults.LossesAccumulate | Producer-consumer problem for processes/src/producer_functions.c:59-60 | lost tokens never decrease, and are at most one for each killed or exited process |
| ProcessResults.NothingLostWithoutDeath | Producer-consumer problem for processes/src/consumer_functions.c:51-60 | without a kill or an exit no token and no mutex is lost |
| ProcessResults.EmptyExitUnreachable | Producer-consumer problem for processes/src/shared_buffer_types.c:50-53 | the exit on an empty queue is unreachable, kills or not |
| ProcessResults.AddExitsIff | Producer-consumer problem for processes/src/shared_buffer_types.c:33-36 | a producer exits on a full queue if and only if it holds the only empty token, none is free and none was lost |
| ProcessResults.FullQueueLosesLock | Producer-consumer problem for processes/src/system_management.c:54 | for every capacity a run without kills and consumers ends with the producer exiting on its capacity-th message and keeping the mutex: semaphore and guard disagree by one |
| ProcessResults.FifoOverRuns | Producer-consumer problem for processes/src/shared_buffer_types.c:38-63 | extracted messages are the first ones added, in order; whenever the mutex is free the ring holds the rest, its indices are in range and congruent to the totals modulo the capacity |
| ProcessResults.EveryDeliveryVerifies | Producer-consumer problem for processes/src/consumer_functions.c:42 | every message a consumer checks passes the check, kills or not |
| ProcessResults.LockLostIff | Producer-consumer problem for processes/src/producer_functions.c:40-42 | the mutex is down with no live process inside if and only if its holder died |
| ProcessResults.LockLossIsForever | Producer-consumer problem for processes/src/producer_functions.c:40-42 | once the holder of the mutex has died the buffer never changes again and no process enters |
| ProcessResults.NoDeadlock | Producer-consumer problem for processes/src/producer_functions.c:33-50 | with a producer and a consumer alive, the mutex not lost and fewer than capacity tokens lost, some process can move |
| ProcessLiveness.StaysFrozen | Producer-consumer problem for processes/src/consumer_functions.c:32-41 | a buffer whose mutex is lost or about to be, whose tokens are all lost, or that is full of messages with lost tokens, stays so, and nothing is ever added or extracted again |
| ProcessLiveness.LiveMoves | Producer-consumer problem for processes/src/producer_functions.c:33-44 | in every other reachable state some continuation adds or extracts a message |
| ProcessLiveness.BufferLiveIff | Producer-consumer problem for processes/src/shared_buffer_types.c:32-64 | after any run, with kills anywhere, some continuation adds or extracts a message if and only if the mutex is not lost, no producer is inside with a full queue, fewer than capacity tokens and fewer than capacity - 1 filled tokens are lost |
| ProcessLiveness.DrainedByKills | Producer-consumer problem for processes/src/producer_functions.c:53-62 | for every capacity, that many kills alone freeze the buffer with the mutex free and a producer and a consumer alive |
| ProcessKills.KillAnywhere | Producer-consumer problem for processes/src/producer_functions.c:59-61 | every live process can be killed in every state; that leaves ring and semaphores alone and loses exactly the token it holds or owes |
| ProcessKills.KillInside | Producer-consumer problem for processes/src/shared_buffer_types.c:38-63 | a process inside has made exactly its first k writes, in the order of the source, and a kill there freezes the ring in that state and loses the mutex |
| ProcessKills.KillAtEveryWrite | Producer-consumer problem for processes/src/consumer_functions.c:51-60 | for every capacity from two on, every k and both operations there is a run in which the first kill comes after k writes and loses the mutex |
| ProcessKills.SemaphoresAtRest | Producer-consumer problem for processes/src/system_management.c:48-64 | when nobody holds or owes a token and the mutex is free, filled is the count and empty the number of free cells, up to lost tokens |
| LineStream.SplitFrames | Sockets. Interprocess communication/src/client.c:32-68 | every stream is its newline-free lines, each with a newline, followed by a newline-free fragment |
| LineStream.FramesSplit | Sockets. Interprocess communication/src/server.c:97-100 | splitting is the inverse of sending: newline-free lines put on the wire are read back as they were |
| LineStream.SegmentJoins | Sockets. Interprocess communication/src/client.c:37-44 | what recv delivers before the stream first stops is the chunks' bytes in order, and what was to come after stays |
| LineStream.AwaitStops | Sockets. Interprocess communication/src/client.c:71-110 | an answer ends at the first line whose last character is '>', which becomes the prompt, or that is BYE, which is shown; everything before it is shown |
| LineStream.AwaitShowsAll | Sockets. Interprocess communication/src/client.c:80-110 | without such a line everything is shown, and the server is gone |
| LineStream.AnswerRecoveredIff | Sockets. Interprocess communication/src/client.c:71-110 | a reply and its prompt reach the user as sent, and later lines stay for later, if and only if no line of the reply has '>' as its last character or is BYE |
| LineStream.InterruptCuts | Sockets. Interprocess communication/src/client.c:156-165 | lowering client_running either comes too late to matter or cuts the answer after the lines handled so far, none of which ends it |
| LineClient.Client.Receive | Sockets. Interprocess communication/src/client.c:38-39 | a received chunk is buffered unchanged |
| LineClient.Client.ReadLine | Sockets. Interprocess communication/src/client.c:32-68 | the result depends only on the concatenated bytes and not on the chunks: the bytes up to the next newline, or nothing, with the fragment dropped, if the stream stops first |
| LineClient.Client.HandleServerLine | Sockets. Interprocess communication/src/client.c:71-110 | one line is consumed: kept as the prompt, unshown, if its last character is '>', shown and the end of the session if it is BYE, and otherwise shown |
| LineClient.Client.AwaitPrompt | Sockets. Interprocess communication/src/client.c:156-165 | the loop shows exactly the answer's lines, cut short only by client_running, and leaves the lines after the prompt unread |
| LineServer.Peer.SendAll | Sockets. Interprocess communication/src/server.c:88-95 | a prefix goes out, in order, and it is everything if and only if no send failed, however little each of them accepted |
| LineServer.Peer.EchoAndPrompt | Sockets. Interprocess communication/src/server.c:97-100 | each of the strings goes out up to where a send failed, and the wire carries the argument and the prompt as two lines if no send failed |
| LineServer.EchoShownIff | Sockets. Interprocess communication/src/server.c:97-100 | for every chunking the client shows an echoed line and takes the server's prompt if and only if the line's last character is not '>', it is not BYE, and the directory name has no newline |

## Left out

- Files and windows: mmap, fstat, page alignment beyond the argument check, the loop over windows, `gen.c` and `view.c`; one in-memory record array stands for one window.
- qsort: any fixed function that returns a sorted permutation of its slice; while it works it may leave anything in the slice.
- NaN time marks: time_mark is a real number. Overflow of int and size_t in index arithmetic and in the argument check (4 * threads, the least int) is not modelled.
- Failing malloc in the workers and in the final merge, which ends the whole program.
- Failing pthread, semaphore and System V calls, and the semaphore limits; a process that leaves because semop fails behaves like a killed one.
- Clocks: timed waits may time out at any moment, condition variables may wake at any moment, so signals and broadcasts need no state. Sleeps and output are left out.
- keep_running and the active flags may change at any moment; unlocked reads of resize_request may see anything.
- What happens after a write past the end of a queue buffer.
- CircularQueues.CircularQueue.Enqueue: what a write past the end does to the memory there.
- CircularQueues.CircularQueue.ResizeSem: posts and trywaits are uninterrupted in this method; the interleaved version is in SemQueue.
- CircularQueues.CircularQueue.AdjustEmptySlots: likewise.
- CircularQueues.CircularQueue.Destroy: freeing the memory.
- NULL messages, memory addresses and double frees: messages are values.
- `PADDED_DATA_SIZE` clears two bits with `& ~3`; the model subtracts the remainder modulo four.
- 64-bit wrap-around of the running totals.
- The copy of a message into shared memory is one step that may also stop half-way; the copy out of it is one step. Alignment bytes are copied with the struct.
- The limit on child processes (ProcessLiveness.LiveMoves may start a new one), the order in which main kills them and its wait for them: any process may be killed at any time.
- Checksum.CorruptionDetectedIff: does not cover a corrupted length byte, which changes how many bytes are walked; for lengths up to 2 see ShortLengthsUnprotected.
- LineClient.Client.ReadLine: failing malloc and realloc, and bytes equal to NUL, which would end the returned C string early.
- The rest of the socket programs: path handling, directory listing, poll and select, the receive path of the server, which does not reassemble commands.
- The menus, the signal-driven child table, environment passing and the directory walker: mostly system calls and list handling, with only easy properties.
