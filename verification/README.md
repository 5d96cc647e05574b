# Verified models of the library's core algorithms

Dafny models of the small algorithms of the C library whose correctness needs whole-run or
nonlinear arguments. One module per source file:

- `Spsc.dfy`, `BlockingQueue.dfy`, `ThreadPool.dfy`: the concurrency protocols. The lock-free ring
  is a machine whose steps are the single atomic loads, plain copies and atomic stores, with stale
  reads and data races as section 7.17.3 of ISO C11 allows them. The two monitors are machines over
  any number of threads that enter, sleep, are signalled and wake spuriously, as
  `pthread_cond_wait` of IEEE Std 1003.1 allows. The protected ring and linked list are classes
  updated in place.
- `HashMap.dfy`, `EventLoop.dfy`, `BlockPool.dfy`: structures that must agree with a simpler one, a
  plain map, a plain descriptor map with serial numbers, and a partition of blocks.
- `PathNormalize.dfy`, `Matrix.dfy`, `Dense.dfy`: transformations that preserve meaning. The matrix
  products are proved for uninterpreted addition and multiplication, so the equalities need no
  associativity; the layer is over the reals with an arbitrary activation and derivative.
- `Renderer.dfy`, `IntRange.dfy`, `Crc32.dfy`, `Rng.dfy`, `Shuffle.dfy`: arithmetic with sharp
  bounds. The CRC is the one of clause 3.2.9 of IEEE 802.3.
- `Arith.dfy`, `Counting.dfy`, `Maps.dfy`, `Ledger.dfy`: the few facts about remainders, finite sets,
  maps and logs of calls that several modules use. The logs record what the threads of a protocol
  called, what took effect and what returned, so that every answer can be held against the history.
  No module uses a map comprehension; `Maps.dfy` says why.

In the state machines `Enabled` and `Apply` give the steps, `Exec` a whole run, `Inv` the invariant.
Each main result speaks of every run from the initial state. In the imperative modules a `Valid()`
predicate is the invariant, and every method states its whole new state.

Two places where the code and its documentation differ, and the model follows the code:

- include/systems/path.h:31 says the result of `path_normalize` is never longer than the input.
  That holds exactly for non-empty paths (`PathNormalize.NeverLongerIffNonEmpty`); the empty path
  becomes ".".
- include/ml/dataset.h:27 promises a Fisher-Yates shuffle. The bound of each draw is cut to 32 bits
  (src/ml/dataset.c:115), so every ordering can come out exactly when there are fewer than 2^32
  rows (`Shuffle.EveryOrderingIffRowsFit`).

## Model

| member | source | states |
|---|---|---|
| `Spsc.EveryInterleavingIsSafe` | src/hpc/spsc.c:34-59 | in every interleaving of the single loads, copies and stores, each side reading any coherent stale index: popped is a prefix of pushed, at most `capacity` elements are in flight, the two copies never meet in a slot, and no copy is a data race |
| `Spsc.RefusalsAreHonest` | src/hpc/spsc.c:38-40 | a push gives up exactly when the head it read leaves `capacity` elements in flight, a pop exactly when the tail it read shows nothing unpopped |
| `Spsc.AnswersAreTrue` | src/hpc/spsc.c:34-59 | over every interleaving each call is answered once; the pushes that returned success, in order, are the elements published, the pops that returned success the elements removed with the values they returned, and a refused call did nothing |
| `Spsc.EverySideCanMove` | src/hpc/spsc.c:34-59 | neither side ever waits for the other: in every reachable state the next step of whichever call is under way is enabled, with every store that the acquire loads may still return |
| `Spsc.LenFromEitherSide` | src/hpc/spsc.c:61-66 | whatever stores it reads, `spsc_len` is at most the capacity; it never under-reports to the producer and never over-reports to the consumer |
| `Spsc.LenOfDistance` | src/hpc/spsc.c:65 | the modular difference of two slot numbers is the true distance whenever that is less than the slot count |
| `Spsc.PushLoadHeadKeeps` | src/hpc/spsc.c:38-40 | the acquire of `head` keeps the invariant, and sees "full" exactly when the window is full |
| `Spsc.PopLoadTailKeeps` | src/hpc/spsc.c:51-53 | the acquire of `tail` keeps the invariant, and sees "empty" exactly when nothing newer is published |
| `Spsc.PushCopyKeeps` | src/hpc/spsc.c:42 | the producer's copy overwrites no slot that is unread or being read |
| `Spsc.PopCopyKeeps` | src/hpc/spsc.c:55 | the consumer's copy reads the oldest unpopped element and races with no write |
| `Spsc.PushStoreTailKeeps` | src/hpc/spsc.c:44 | publishing the tail keeps the invariant |
| `Spsc.PopStoreHeadKeeps` | src/hpc/spsc.c:57 | publishing the head keeps the invariant |
| `Spsc.RunKeepsInv` | src/hpc/spsc.c:11-59 | the ring invariant holds after every interleaving from `spsc_init` |
| `BlockingQueue.HistoryIsFifo` | src/hpc/blocking_queue.c:37-71 | over any run of any number of threads, successful pops followed by the contents are the successful pushes, in order; a pop reports not-found only when the queue is closed and drained, a push is refused only when it is closed |
| `BlockingQueue.AnswersAreTrue` | src/hpc/blocking_queue.c:37-80 | over every run each call is answered once; a push that returned success appended its own element, once, a pop that returned success removed the element it returned, a refused push found the queue closed, a refused pop found it closed and drained, and the queue is closed exactly when some close took effect |
| `BlockingQueue.NoPushAfterClose` | src/hpc/blocking_queue.c:37-53 | on every continuation of a closed queue no push takes effect and the queue stays closed |
| `BlockingQueue.NothingIsStranded` | src/hpc/blocking_queue.c:37-80 | with the mutex free: beside a sleeping consumer there are at most as many elements as signalled consumers, beside a sleeping producer at most as many free slots as signalled producers, and after close nobody sleeps |
| `BlockingQueue.NoDeadlock` | src/hpc/blocking_queue.c:37-80 | when no thread can run, consumers sleep only on an empty open queue, producers only on a full one, never both |
| `BlockingQueue.HolderCanMove` | src/hpc/blocking_queue.c:37-80 | whoever holds the mutex has an enabled next statement |
| `BlockingQueue.EveryoneCanMove` | src/hpc/blocking_queue.c:37-80 | a thread outside may make any call, a sleeper may wake spuriously, a runnable thread may take the free mutex, and the holder of the mutex is always runnable |
| `BlockingQueue.AppendBehind` | src/hpc/blocking_queue.c:47-49 | writing the slot behind the last element and counting it in appends it and changes no other element |
| `BlockingQueue.DropOldest` | src/hpc/blocking_queue.c:65-67 | advancing the head drops exactly the oldest element |
| `BlockingQueue.Buffer.constructor` | src/hpc/blocking_queue.c:11-24 | a new ring is empty |
| `BlockingQueue.Buffer.Append` | src/hpc/blocking_queue.c:47-49 | the in-place update of `bq_push` appends to the contents, by the same ring update as the steps of the machine |
| `BlockingQueue.Buffer.TakeOldest` | src/hpc/blocking_queue.c:65-67 | the in-place update of `bq_pop` returns and removes the oldest element, by the same ring update as the steps of the machine |
| `BlockingQueue.StepKeepsExclusion` | src/hpc/blocking_queue.c:37-80 | every step keeps at most one thread in the critical section |
| `BlockingQueue.StepKeepsRing` | src/hpc/blocking_queue.c:37-80 | every step keeps pushed == popped + contents, and every refusal justified |
| `BlockingQueue.InsideCovers` | src/hpc/blocking_queue.c:37-80 | for any numbers of sleeping and signalled threads, a statement of push, pop or close keeps elements and free slots covered, the only new sleeper being the thread that moves |
| `BlockingQueue.WakeCounts` | src/hpc/blocking_queue.c:50-78 | a signal or broadcast moves sleepers of its own condition to signalled, and touches no other thread |
| `BlockingQueue.StepKeepsWakeups` | src/hpc/blocking_queue.c:37-80 | every step, spurious wakeups and over-waking signals included, keeps the no-lost-wakeup invariant |
| `BlockingQueue.RunKeepsInv` | src/hpc/blocking_queue.c:11-80 | the invariant holds after every run from `bq_init` |
| `ThreadPool.InOrderAtMostOnce` | src/hpc/thread_pool.c:30-46 | over every run, with tasks that may themselves submit, accepted tasks are dequeued in submission order, none is discarded, none runs twice, and a dequeued task not yet run is in the hands of the worker that dequeued it |
| `ThreadPool.AnswersAreTrue` | src/hpc/thread_pool.c:80-118 | over every run each call is answered once; a submit that returned success enqueued its own task, once, and nothing else did; a submit that was refused, or is about to be, found the pool shut down; and the pool is shut down exactly when some destroy took effect |
| `ThreadPool.JoinedMeansAllRan` | src/hpc/thread_pool.c:101-118 | once all workers are joined the queue is empty, every accepted task has run exactly once, and the drain loop has nothing to do |
| `ThreadPool.NoTaskIsStranded` | src/hpc/thread_pool.c:80-99 | with the mutex free and a worker asleep, the pool is open and there are no more queued tasks than signalled workers |
| `ThreadPool.QuietMeansDone` | src/hpc/thread_pool.c:30-118 | when nothing can run, every accepted task has run, and after shutdown every worker has exited, so the joins cannot wait for ever |
| `ThreadPool.RunnableCanMove` | src/hpc/thread_pool.c:30-118 | the holder of the mutex, and any runnable thread when it is free, has an enabled next step |
| `ThreadPool.TaskList.constructor` | src/hpc/thread_pool.c:55-63 | a new task list is empty |
| `ThreadPool.TaskList.Append` | src/hpc/thread_pool.c:92-94 | the linked-list enqueue appends the task, for empty and non-empty lists |
| `ThreadPool.TaskList.TakeFirst` | src/hpc/thread_pool.c:39-41 | the linked-list dequeue removes the first task, and empties the tail pointer with the last one |
| `ThreadPool.StepKeepsExclusion` | src/hpc/thread_pool.c:30-118 | every step keeps at most one thread in the critical section |
| `ThreadPool.StepKeepsRoles` | src/hpc/thread_pool.c:30-118 | workers stay workers and clients stay clients |
| `ThreadPool.StepKeepsOnceEach` | src/hpc/thread_pool.c:39-44 | every step keeps "each dequeued task has run or is in one worker's hands, never both" |
| `ThreadPool.StepKeepsHistory` | src/hpc/thread_pool.c:30-118 | every step keeps accepted == started + queued with nothing discarded |
| `ThreadPool.StepKeepsExits` | src/hpc/thread_pool.c:35-38 | a worker that has exited saw shutdown and an empty queue, and both last |
| `ThreadPool.InsideCovers` | src/hpc/thread_pool.c:34-104 | for any numbers of sleeping and signalled workers, a statement of the worker, of submit or of destroy keeps the queued tasks covered |
| `ThreadPool.StepKeepsWakeups` | src/hpc/thread_pool.c:30-108 | every step keeps the no-lost-wakeup invariant of the one condition variable |
| `ThreadPool.RunKeepsInv` | src/hpc/thread_pool.c:30-118 | the invariant holds after every run from creation |
| `HashMap.Replay` | src/containers/hashmap.c:14-125 | any run of put, remove, get and contains, for any hash function, any growth, tombstone reuse and failed allocation, answers exactly as a plain map that also carries the used and total slot counts, error codes included; overflow is reported only after more than about 2^60 calls |
| `HashMap.Probe` | src/containers/hashmap.c:35-49 | `probe` finds the slot of a live key, else the first reusable slot on its sequence (a tombstone if one comes before the empty slot); it never returns null |
| `HashMap.EmptySlotExists` | src/containers/hashmap.c:35-49 | a table that is not fully used has an empty slot |
| `HashMap.AbsentPastEmpty` | src/containers/hashmap.c:41 | an empty slot on the probe sequence before the key was met means the key is absent |
| `HashMap.MaskIsRemainder` | src/containers/hashmap.c:36-39 | for power-of-two capacities `x & (cap - 1)` is the remainder |
| `HashMap.LoadAfterCheck` | src/containers/hashmap.c:77-78 | passing the growth test, wrap-around of `cap * 3` included, means the load bound really holds |
| `HashMap.NeedsGrowthIff` | src/containers/hashmap.c:78 | where the products do not wrap, growth is due exactly when one more slot in use would exceed three quarters |
| `HashMap.AstronomicalMeans` | src/containers/hashmap.c:77 | the call counts excepted in `Replay` lie beyond 2^60, and the guard on the slot count refuses exactly the counts from 2^62 - 1 on |
| `HashMap.GrowthInProportion` | src/containers/hashmap.c:77-82 | capacity stays in proportion to the number of calls |
| `HashMap.FillSlot` | src/containers/hashmap.c:92-97 | a new key in a free slot its own probe sequence reaches keeps every live key in one slot, findable, and adds one entry |
| `HashMap.OverwriteSlot` | src/containers/hashmap.c:85-88 | overwriting a value keeps every key in its slot and findable |
| `HashMap.KillSlot` | src/containers/hashmap.c:121-123 | a tombstone takes one key out of the index and breaks no other probe sequence |
| `HashMap.RepresentsNew` | src/containers/hashmap.c:92-97 | with the new key stored the table stands for the plain map with that entry added |
| `HashMap.RepresentsOver` | src/containers/hashmap.c:85-88 | with the value overwritten it stands for the plain map with that entry changed |
| `HashMap.RepresentsDead` | src/containers/hashmap.c:121-123 | with the tombstone in place it stands for the plain map without that key |
| `HashMap.StoreNew` | src/containers/hashmap.c:92-97 | storing a new key keeps `len`, `used` and the load bound; `used` grows only if the slot was empty |
| `HashMap.StoreDead` | src/containers/hashmap.c:121-123 | removal keeps the accounting with `used` unchanged |
| `HashMap.LiveSlotsCount` | src/containers/hashmap.c:52-71 | there are as many live slots as live keys |
| `HashMap.MoveOne` | src/containers/hashmap.c:56-65 | re-inserting one live entry into the new table keeps the keys moved so far and adds this one |
| `HashMap.AllMoved` | src/containers/hashmap.c:56-65 | after the loop the new table holds every live entry and no tombstone |
| `HashMap.MoveAll` | src/containers/hashmap.c:56-65 | the loop of `rehash` moves every live entry and no tombstone |
| `HashMap.Map.constructor` | src/containers/hashmap.c:14-22 | a new map is empty |
| `HashMap.Map.Rehash` | src/containers/hashmap.c:52-71 | rehash keeps the plain map, sets `used` to `len` and leaves no tombstone; a failed allocation changes nothing |
| `HashMap.Map.Put` | src/containers/hashmap.c:73-99 | put returns exactly the code of its branches; on success the plain map gets the entry, on any error it is unchanged |
| `HashMap.Map.MakeRoom` | src/containers/hashmap.c:77-82 | the growth check refuses, doubles or does nothing as its branches say, keeps the plain map, and on success leaves room for one more key |
| `HashMap.Map.Store` | src/containers/hashmap.c:84-98 | after the growth check: overwrite, or reuse a tombstone, or fill an empty slot |
| `HashMap.Map.FindLive` | src/containers/hashmap.c:102-106 | finds the live slot of a key exactly when the plain map has it |
| `HashMap.Map.Get` | src/containers/hashmap.c:108-111 | get is the plain map lookup |
| `HashMap.Map.Contains` | src/containers/hashmap.c:113-115 | contains is plain map membership |
| `HashMap.Map.Remove` | src/containers/hashmap.c:117-125 | remove deletes exactly that key, or reports not-found and changes nothing |
| `HashMap.Map.Next` | src/containers/hashmap.c:131-142 | the next live slot from the cursor, skipping no live slot; none only at the end |
| `HashMap.Map.Entries` | src/containers/hashmap.c:131-142 | a whole iteration yields every entry exactly once |
| `HashMap.Do` | src/containers/hashmap.c:73-125 | one call of any of the four operations gives exactly the answer of the plain map with its slot counts, and changes it likewise |
| `EventLoop.Loop.PollOnce` | src/networking/event_loop.c:125-159 | one round polls every registration for exactly its interest, fires what the round on the plain descriptor map fires, in that order, each callback told exactly what its descriptor was polled with, and leaves the same registrations, capacity and stop flag, whatever the callbacks do |
| `EventLoop.Session` | src/networking/event_loop.c:69-159 | any sequence of add, mod, remove, stop and poll rounds on a new loop gives the error codes, the fired callbacks and the final registrations of one plain map, whose registrations are numbered afresh between actions in the order in which the next round walks them |
| `EventLoop.Act` | src/networking/event_loop.c:69-159 | one call or round does to the table what it does to the plain map |
| `EventLoop.FiredOnceWithOwnReadiness` | src/networking/event_loop.c:147-158 | whatever fires is a pre-poll registration, called once, with its own descriptor's readiness and its own callback and data |
| `EventLoop.FiredReady` | src/networking/event_loop.c:147-158 | every callback of a round is told a non-zero word: readable when its descriptor was polled readable, hung up or in error, writable when polled writable, and nothing else |
| `EventLoop.ReadyBits` | src/networking/event_loop.c:40-46 | for every word `poll` reports: bit 1 if and only if 0x001, 0x008 or 0x010 is set, bit 2 if and only if 0x004 is, no other bit, and zero exactly when none of the four is set |
| `EventLoop.PolledBits` | src/networking/event_loop.c:33-38 | for every interest: 0x001 is polled if and only if bit 1 is asked for, 0x004 if and only if bit 2 is, and nothing else |
| `EventLoop.AddOverflowsIff` | src/networking/event_loop.c:74-78 | an add that needs room overflows exactly when the doubled array of 24-byte entries would not fit; otherwise the room doubles, from 8 |
| `EventLoop.FiresExactly` | src/networking/event_loop.c:147-158 | a pre-poll registration fires if and only if it still stands when the walk reaches it and was polled ready |
| `EventLoop.NoStaleFire` | src/networking/event_loop.c:102-109 | a registration removed by an earlier callback does not fire in that round, even if its descriptor is added again |
| `EventLoop.RemovedStaysRemoved` | src/networking/event_loop.c:147-158 | a removed pre-poll registration stays removed to the end of the round |
| `EventLoop.RoundKeepsCallback` | src/networking/event_loop.c:69-114 | while a registration stands, its callback and data are those it was added with |
| `EventLoop.TableIsWellNumbered` | src/networking/event_loop.c:69-123 | between rounds descriptors are unique and the slots enumerate the registrations, which is what the round lemmas assume |
| `EventLoop.Loop.constructor` | src/networking/event_loop.c:54-60 | a new loop has no registrations |
| `EventLoop.Loop.FindIndex` | src/networking/event_loop.c:48-52 | finds the slot of a registered descriptor and -1 for any other; tombstones never match |
| `EventLoop.Loop.DoAdd` | src/networking/event_loop.c:69-92 | add has the error codes of its branches and the effect on the plain map; earlier slots are untouched |
| `EventLoop.Loop.DoMod` | src/networking/event_loop.c:94-100 | mod changes the interest of that descriptor only |
| `EventLoop.Loop.DoRemove` | src/networking/event_loop.c:102-114 | remove deletes exactly that descriptor: a tombstone while dispatching, a swap with the last entry otherwise |
| `EventLoop.Loop.DoStop` | src/networking/event_loop.c:174-176 | stop clears the running flag and nothing else |
| `EventLoop.SwapRemove` | src/networking/event_loop.c:109-111 | the swap removal deletes one registration and keeps all others |
| `EventLoop.Loop.RunCallback` | src/networking/event_loop.c:151-155 | whatever a callback calls, slots under the walk only keep their descriptor or become tombstones |
| `EventLoop.Loop.Visit` | src/networking/event_loop.c:151-155 | one slot of the walk fires at most one callback, exactly when the slot is still that registration and ready |
| `EventLoop.ReachedSlot` | src/networking/event_loop.c:152 | a slot under the walk is alive exactly when pre-poll registration i still stands |
| `EventLoop.Loop.FillPollFds` | src/networking/event_loop.c:135-139 | the poll array mirrors the table |
| `EventLoop.Loop.Dispatch` | src/networking/event_loop.c:147-155 | the walk over the pre-poll count equals the round on the plain map |
| `EventLoop.Loop.Compact` | src/networking/event_loop.c:117-123 | compaction keeps the survivors in order and every registration |
| `EventLoop.Squeeze` | src/networking/event_loop.c:117-123 | the two-cursor loop yields the survivors, without tombstones |
| `PathNormalize.NormalizeInPlace` | src/systems/path.c:31-70 | the in-place rewrite leaves the text of the component fold in the buffer, touches nothing from the input's terminator on, and reports overflow exactly when, counting names against "..", some prefix of the components leaves more than 64 |
| `PathNormalize.RefusedIff` | src/systems/path.c:39-60 | the fold refuses a path if and only if, counting names against ".." without a bound, some prefix of its components leaves more than 64 |
| `PathNormalize.NamesRefusedIff` | src/systems/path.c:60 | a path of plain names is refused if and only if it has more than 64 of them |
| `PathNormalize.SameMeaning` | src/systems/path.c:43-69 | from every starting directory the result resolves lexically to where the input does |
| `PathNormalize.Idempotent` | src/systems/path.c:31-70 | normalizing a result changes nothing and never overflows |
| `PathNormalize.ResultIsCanonical` | src/systems/path.c:43-69 | the result has no "." (unless it is all of a relative path) and no empty component, ".." only as a leading run of a relative path, and is absolute exactly when the input is |
| `PathNormalize.NeverLongerIffNonEmpty` | src/systems/path.c:67-68 | the result is no longer than the input if and only if the input is not empty |
| `PathNormalize.ComponentsAppend` | src/systems/path.c:43-46 | splitting at a separator splits the component list |
| `PathNormalize.ComponentsOfRender` | src/systems/path.c:60-68 | the components of the written text are the stack |
| `PathNormalize.FeedFollowsWalk` | src/systems/path.c:49-64 | one step of the fold moves every starting directory as the component does |
| `PathNormalize.WriteCursorBehind` | src/systems/path.c:62-64 | the write cursor never overtakes unread input, separator included |
| `PathNormalize.PopComponent` | src/systems/path.c:52-55 | popping restores the buffer position of the component before |
| `PathNormalize.PushComponent` | src/systems/path.c:60-64 | a written component joins the stack and the unread input is intact |
| `PathNormalize.Decide` | src/systems/path.c:49-58 | the tests on a component skip it, pop its parent or keep it, exactly as the fold does |
| `PathNormalize.TakeComponent` | src/systems/path.c:49-64 | one component is dropped, popped, kept or refused exactly as the fold does |
| `PathNormalize.Turn` | src/systems/path.c:44-65 | one turn of the loop consumes one component and keeps the fold on track |
| `PathNormalize.Rewrite` | src/systems/path.c:31-65 | the loop writes the text of the fold's final stack, or fails exactly when that stack overflows |
| `PathNormalize.Terminate` | src/systems/path.c:67-68 | an empty text becomes "/" or ".", then the terminator |
| `Crc32.HashCrc32` | src/containers/hash.c:28-40 | the word-wise loops compute, cell by cell, the bit-serial CRC of the message |
| `Crc32.TapsAreTheStandards` | src/containers/hash.c:37 | the taps are exactly the exponents 26, 23, 22, 16, 12, 11, 10, 8, 7, 5, 4, 2, 1 and 0 |
| `Crc32.Residue` | src/containers/hash.c:28-40 | every message followed by its own CRC leaves the one residue 0xDEBB20E3 in the register |
| `Crc32.CheckValue` | src/containers/hash.c:28-40 | "123456789" hashes to 0xCBF43926 |
| `Crc32.EmptyIsZero` | src/containers/hash.c:34-39 | the empty message hashes to zero |
| `Crc32.LeadingZeroIsNoticed` | src/containers/hash.c:34-39 | a zero byte put before any message changes its CRC |
| `Crc32.OneByte` | src/containers/hash.c:36-37 | eight masked shifts feed one byte, least significant bit first, into the division register |
| `Crc32.BurstIsDetected` | src/containers/hash.c:28-40 | two different messages of equal length that agree outside any 32 consecutive bits have different CRCs |
| `Crc32.FourByteBurstIsDetected` | src/containers/hash.c:28-40 | the same for any window of at most four consecutive bytes |
| `Crc32.PolynomialGoesUndetected` | src/containers/hash.c:28-40 | 32 is sharp: in every message and at every bit position there is a different message of the same length and the same CRC that differs only inside 33 consecutive bits |
| `Crc32.PolynomialVanishes` | src/containers/hash.c:35-38 | adding the 33-bit polynomial to a stretch of bits does not change the register |
| `Crc32.ShiftIsInjective` | src/containers/hash.c:37 | the bit step is injective |
| `Crc32.FeedIsInjective` | src/containers/hash.c:35-38 | equal registers after equal bits were equal before |
| `Crc32.FeedIsAddThenShift` | src/containers/hash.c:36-37 | feeding up to 32 bits one by one equals adding them first and shifting afterwards |
| `Crc32.ShortBlocksDiffer` | src/containers/hash.c:35-38 | from one register, different blocks of at most 32 bits lead to different registers |
| `Crc32.BitStepIsShift` | src/containers/hash.c:37 | the branch-free masked step is the polynomial shift |
| `Crc32.CellsAreInjective` | src/containers/hash.c:28-40 | a 32-bit word is determined by its cells, so equal CRC words mean equal CRCs and back |
| `Renderer.DrawLine` | src/rendering/software_renderer.c:47-65 | exactly the pixels of the closed-form line, clipped to the buffer, take the colour; the loop ends for all endpoints, over unbounded integers (`IntRange.LineFitsIff` says when the values of the code are these) |
| `Renderer.FollowLine` | src/rendering/software_renderer.c:52-64 | the error-driven loop visits the itinerary and nothing else |
| `Renderer.LineStep` | src/rendering/software_renderer.c:55-63 | both tests on the error term choose exactly the next closed-form position |
| `Renderer.LineEnds` | src/rendering/software_renderer.c:52-64 | the end point is reached after exactly max(abs dx, abs dy) steps and not before |
| `Renderer.LineIsConnected` | src/rendering/software_renderer.c:58-63 | consecutive pixels are distinct 8-neighbours |
| `Renderer.MinorWithinHalf` | src/rendering/software_renderer.c:47-65 | every pixel is within half a pixel of the ideal line on the minor axis |
| `Renderer.MinorUnique` | src/rendering/software_renderer.c:47-65 | and is the only such pixel, halves upward |
| `Renderer.ErrorBound` | src/rendering/software_renderer.c:52-63 | twice the error term, in absolute value, never exceeds three times the longer side |
| `Renderer.LineStaysInInt` | src/rendering/software_renderer.c:52-63 | no intermediate value overflows an `int` while three times the longer side fits |
| `IntRange.LineFitsIff` | src/rendering/software_renderer.c:47-65 | every value the line code computes fits in an `int` if and only if the two side lengths pass two tests on them and their greatest common divisor |
| `IntRange.ResidueReached` | src/rendering/software_renderer.c:52-64 | every multiple of the greatest common divisor within half the longer side is the offset of some pixel from the ideal line |
| `IntRange.FlatLineFitsIff` | src/rendering/software_renderer.c:47-65 | a flat line fits exactly when it has fewer than 2^30 steps, so far-apart end points overflow |
| `IntRange.UprightLineFitsIff` | src/rendering/software_renderer.c:47-65 | an upright line fits exactly up to 2^30 steps, one more than a flat one |
| `IntRange.CircleFitsIff` | src/rendering/software_renderer.c:73-92 | every value the circle code computes fits in an `int` if and only if the bounding box does and the first step inwards, at the row of the root of the radius, does; for a negative radius only the first decision counts |
| `IntRange.StraightTurn` | src/rendering/software_renderer.c:74-90 | while y is at most the root of r the walk goes straight |
| `IntRange.CircleStaysInInt` | src/rendering/software_renderer.c:73-92 | no value of a turn overflows while the bounding box and twice the radius plus six fit |
| `Renderer.DrawCircle` | src/rendering/software_renderer.c:73-92 | exactly the pixels of the circle, in all eight octants, take the colour, over unbounded integers (`IntRange.CircleFitsIff` says when the values of the code are these); a negative radius draws nothing |
| `Renderer.FollowCircle` | src/rendering/software_renderer.c:73-92 | the loop ends having painted the whole circle set |
| `Renderer.NextRow` | src/rendering/software_renderer.c:84-90 | the decision variable stays (y+1)^2 + x^2 - x - r^2 and picks the octant pixel of the next row |
| `Renderer.CircleError` | src/rendering/software_renderer.c:73-92 | every octant point has abs(x^2 + y^2 - r^2) <= x |
| `Renderer.CircleSymmetry` | src/rendering/software_renderer.c:76-83 | the set is closed under the reflections that generate all eight |
| `Renderer.OctantUnique` | src/rendering/software_renderer.c:73-92 | each row of the octant has one pixel |
| `Renderer.OctantDone` | src/rendering/software_renderer.c:75 | when the loop stops no octant pixel is left |
| `Renderer.DecisionBound` | src/rendering/software_renderer.c:84-90 | the decision variable stays within 2r + 1 |
| `Renderer.PlotEight` | src/rendering/software_renderer.c:76-83 | the eight pixel calls paint the eight reflections |
| `Renderer.Framebuffer.constructor` | src/rendering/software_renderer.c:13-23 | a new buffer is all zero |
| `Renderer.Framebuffer.SetPixel` | src/rendering/software_renderer.c:40-44 | writes that pixel only, and nothing when off-screen |
| `Matrix.Mul` | src/math/matx.c:158-173 | each cell is the left fold over ascending k, with addition and multiplication uninterpreted; shape and aliasing errors change nothing |
| `Matrix.MulBlocked` | src/math/matx.c:175-200 | for every shape and block size (0 meaning 32) the same cells as the plain product, again with uninterpreted operations |
| `Matrix.BothProducts` | src/math/matx.c:158-200 | the two products agree |
| `Matrix.AddTerms` | src/math/matx.c:166-169 | the innermost loop adds one term to a stretch of a row and touches nothing else |
| `Matrix.TileRow` | src/math/matx.c:186-196 | one row of column tiles brings a block of rows from term kk to term kEnd |
| `Matrix.Transpose` | src/math/matx.c:202-210 | the output is the transpose; in-place use is refused |
| `Matrix.Map` | src/math/matx.c:111-116 | every cell through the function, in place too |
| `Matrix.Hadamard` | src/math/matx.c:97-102 | the elementwise product, in place too |
| `Matrix.AddRow` | src/math/matx.c:118-127 | the row added to every row, in place too, even into the row itself |
| `Matrix.ColSums` | src/math/matx.c:129-137 | the column sums, added in ascending row order |
| `Dense.ForwardThenBackward` | src/ml/nn.c:113-162 | a forward pass and the backward pass on the caches it leaves succeed exactly when memory does and the shapes fit, and the gradients pair with every perturbation of input, weights and bias exactly as the upstream gradient pairs with the linearised change |
| `Dense.BackwardIsAdjoint` | src/ml/nn.c:132-162 | the formulas of the backward pass are the adjoint of the linearised forward pass |
| `Dense.LinearisedIsFirstOrder` | src/ml/nn.c:125-127 | the linearised change is the change of z up to the product of the changes of x and W |
| `Dense.LayerEntries` | src/ml/nn.c:125-149 | cell by cell, with the sums written out: z = x W + b, its linearised change, and the upstream gradient times the derivative at z |
| `Dense.AdjointLeft` | src/ml/nn.c:151-156 | <c, a b> = <c b^T, a>, the input gradient |
| `Dense.AdjointRight` | src/ml/nn.c:146-148 | <c, a b> = <a^T c, b>, the weight gradient |
| `Dense.AdjointBias` | src/ml/nn.c:149 | <c, 1 d> = <column sums of c, d>, the bias gradient |
| `Dense.DenseLayer.constructor` | src/ml/nn.c:74-94 | the given weights, zero bias, zero gradients and empty caches |
| `Dense.DenseLayer.Forward` | src/ml/nn.c:113-130 | caches the input and z = x W + b, outputs act(z), keeps the parameters; shape errors are refused |
| `Dense.DenseLayer.Backward` | src/ml/nn.c:132-162 | from the caches, the weight and bias gradients and, if asked for, the input gradient; missing caches and shape errors are refused; the input gradient may overwrite the upstream one |
| `Dense.EnsureShape` | src/ml/nn.c:107-111 | keeps a matrix of the right shape, else allocates one |
| `Rng.AcceptedDrawsAreUniform` | src/math/rng.c:26-34 | every residue below the bound comes from equally many of the draws that the loop's test accepts, 2^32 / bound of them |
| `Rng.ThresholdIsRemainder` | src/math/rng.c:29 | the threshold is what 2^32 leaves over modulo the bound, and less than half of the draws are rejected |
| `Rng.AcceptedIff` | src/math/rng.c:29-32 | a draw is accepted exactly when it is at least 2^32 mod the bound |
| `Rng.Generator.RangeU32` | src/math/rng.c:26-34 | returns the reduction of the first draw that is at least 2^32 mod the bound, consuming no more; a zero bound gives zero without drawing |
| `Shuffle.ShuffleRows` | src/ml/dataset.c:105-132 | features and labels go through the same swaps, given by the next bounded draws of the generator; a matrix given as both comes back unchanged; on an error nothing changes |
| `Shuffle.OnePermutation` | src/ml/dataset.c:114-129 | whatever is shuffled, the draws alone give one permutation, applied to features and labels alike |
| `Shuffle.DrawsAreDetermined` | src/ml/dataset.c:114-129 | distinct in-range draws give distinct orders |
| `Shuffle.SomeDrawsGive` | src/ml/dataset.c:114-129 | every ordering of the rows comes from some in-range draws |
| `Shuffle.ShuffleIsUniform` | src/ml/dataset.c:114-129 | while the row count fits in 32 bits every ordering comes from the same number of lists of 32-bit words that the generator's test accepts, the product of 2^32 / (i + 1) over the turns |
| `Shuffle.WordsCount` | src/ml/dataset.c:115 | any draws come from that many lists of accepted words |
| `Shuffle.EveryOrderingIffRowsFit` | src/ml/dataset.c:114-115 | every ordering can come out if and only if the row count fits in 32 bits |
| `Shuffle.StayingIsUnreachable` | src/ml/dataset.c:115 | with 2^32 rows or more the truncated bound keeps the rows from all staying in place |
| `Shuffle.Settles` | src/ml/dataset.c:114-129 | the draw made at i settles row i for good |
| `Shuffle.SameSeedSameDraws` | src/ml/dataset.c:105-132 | equal generators make equal draws, hence the same permutation |
| `Shuffle.PossibleIsInRange` | src/ml/dataset.c:115 | the truncated draws are always valid row numbers |
| `Shuffle.SwapRows` | src/ml/dataset.c:118-128 | two rows change places through the buffer |
| `Shuffle.Turn` | src/ml/dataset.c:114-129 | one turn of the loop swaps row i with the drawn row in both matrices |
| `BlockPool.Session` | src/memory/pool.c:10-45 | any run of allocations, frees, writes and reads by clients that touch only blocks they hold: an allocated block is one nobody holds, allocation fails exactly when all blocks are held, stray frees change nothing, and every byte reads as it was last written |
| `BlockPool.Act` | src/memory/pool.c:30-45 | one action does to the pool what it does to the set of held blocks and their bytes |
| `BlockPool.Init` | src/memory/pool.c:10-28 | overflow exactly when the block size, raised to 8, times the count exceeds 64 bits, and the other error codes of its branches; otherwise every block is free and there are exactly `block_count` of that size |
| `BlockPool.Pool.ThreadAll` | src/memory/pool.c:20-26 | the loop threads every block once, in ascending order, through the blocks' own bytes |
| `BlockPool.Pool.Alloc` | src/memory/pool.c:30-35 | returns null exactly when every block is held, else a block nobody holds, which becomes held |
| `BlockPool.Pool.TakeHead` | src/memory/pool.c:32-34 | the head of the list becomes held and the link read from its bytes becomes the head |
| `BlockPool.Pool.Free` | src/memory/pool.c:37-45 | a held block returns to the front of the list with only its first eight bytes changed; a foreign or misaligned pointer changes nothing |
| `BlockPool.Pool.ClientWrite` | src/memory/pool.c:10-45 | a client writing any byte of a block it holds leaves the free list intact |
| `BlockPool.Pool.PushFront` | src/memory/pool.c:43-44 | storing the head in a block and making it the head puts the block in front of the list in memory |
| `BlockPool.Pool.StorePtr` | src/memory/pool.c:43 | a stored pointer loads back, and no other byte changes |
| `BlockPool.DecodeEncode` | src/memory/pool.c:43 | a pointer survives its byte form |
| `BlockPool.IsOwn` | src/memory/pool.c:37-42 | the range and alignment checks accept exactly the block addresses |
| `BlockPool.HeldApart` | src/memory/pool.c:30-45 | a held block overlaps no free block and lies inside the buffer |
| `BlockPool.PartitionTake` | src/memory/pool.c:30-35 | taking the head keeps free and held blocks a partition |
| `BlockPool.PartitionGive` | src/memory/pool.c:37-45 | giving back a held block keeps the partition |
| `BlockPool.BlockCount` | src/memory/pool.c:15-18 | there are exactly `block_count` block offsets |

## Left out

- Sockets, files, processes, logging, clocks, GL and Vulkan, PPM output, command-line and configuration code: calls into the operating system or foreign libraries.
- Vectors, string builders, byte rings, arenas, string views, `parallel_for` and the leak detector are not part of this model.
- IEEE-754 rounding, transcendental functions, Adam, softmax, losses, normalization: the products and shuffles are proved for any element type, the dense layer over the reals.
- Null-argument checks: references are not null; allocation success is a parameter, and `free` and the ownership of key copies are not modelled.
- The monitors are modelled on values as state machines rather than as classes with locks; each critical-section statement is one step, `len` and `head` change in one step, and `pthread_cond_wait` releases the mutex and falls asleep in one step.
- `spsc_init` computes `capacity + 1` without a check (src/hpc/spsc.c:13); the model assumes it does not wrap. The three error codes of the initializers are not modelled.
- Spsc.LenFromEitherSide: the two orderings of a call by a third thread are covered only by the capacity bound, because the count is then stale in both directions.
- The failure path of `thread_pool_create` (src/hpc/thread_pool.c:63-74): creation is modelled as complete, with at least one worker. Submitting after the pool is freed, and destroying it from one of its own tasks, are caller errors.
- Fair scheduling: the progress results say that some step is enabled, not that a scheduler gives every thread its turn.
- HashMap.Map.Get: the null value that stands for a missing key is a separate case here, so a stored null pointer and a missing key do not coincide as they do in the code.
- HashMap.Replay: whether a new key takes an empty slot or a tombstone depends on the hash function, so the used count after such a put is left open between the two.
- The hash function is an arbitrary function from keys to numbers; FNV-1a is not part of this model.
- Callbacks may add, modify, remove and stop, but not call `event_loop_poll_once` again; `event_loop_run` and `event_loop_count` are not modelled, and what `poll` reports is arbitrary input, fixed before the round.
- EventLoop.Loop.DoAdd: the realloc of the entries that is kept when the second realloc fails is not visible, because capacity is only raised when both succeed.
- PathNormalize.NormalizeInPlace: the buffer of an empty path must have room for two characters, because the code writes "." and a terminator there.
- PathNormalize.SameMeaning: resolution is lexical; symbolic links are not modelled.
- Renderer.DrawLine: the method computes with unbounded integers; the code's own values agree with them exactly for the side lengths of `IntRange.LineFitsIff`, and outside those its `int` arithmetic overflows, which C leaves undefined.
- Renderer.DrawCircle: the method computes with unbounded integers; the code's own values agree with them exactly in the cases of `IntRange.CircleFitsIff`.
- Framebuffers and matrices use two-dimensional arrays in place of flat offsets; the initializers' overflow checks are not modelled.
- Block bounds of the tiled product are unbounded numbers: `ii + block` cannot wrap in the code, because `ii > 0` implies `block <= ii` and a matrix has at most a quarter of the address space in rows.
- Dense.DenseLayer.Forward: after a failed allocation the contents of the caches are unspecified.
- BlockPool.Session: actions no lawful client makes (freeing a block it does not hold, touching one) are left out of the run.
- Dense.DenseLayer.Backward: after a failed allocation the gradients may be half updated and the contract says nothing of them. The layer's matrices and caches must be distinct from the caller's matrices, and parameter updates are not modelled.
- The PCG generator is an arbitrary stream of 32-bit draws in which draws of at least 2^31 never run out; seeding is not modelled.
- Shuffle.ShuffleRows: the feature matrix has at least one row, since the loop counter would otherwise wrap.
- BlockPool.Pool.Free: an in-pool pointer must be held, because `pool_free` has no check against a double free; pointers are stored least significant byte first.
