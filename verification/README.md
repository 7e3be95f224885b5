# Verified model of c9y

c9y is a C++20 concurrency library.  This project models its lock, condition-variable and atomic
protocols as state machines over atomic steps, and its chunked algorithms as programs whose
tasks may be interleaved in any way, and proves what they promise over all runs and schedules.

One step is one critical section, one atomic operation, one notify, one wakeup, or the start or
end of a task.  Memory is sequentially consistent; condition variables behave as in section
[thread.condition.condvar] of ISO/IEC 14882:2020, spurious wakeups included.  A run is a sequence
of actions, each enabled in turn (`Runs.Exec`); thread numbers are unbounded.

For each component there is a `State`, an `Action` and a partial function `Step`; lemmas about
every run are stated about `Step`.  Beside it stands the object with its fields: a class whose
methods are the atomic sections, each proved to perform exactly its `Step`.

| file | models |
|---|---|
| `Queue.dfy` | `c9y/queue.h`: push, pop, timed and untimed waits, stop, and the notifies between them |
| `TaskPool.dfy` | `c9y/task_pool.cpp` on top of the queue: the in-flight counter, workers, `flush`, stop |
| `PoolProgress.dfy` | progress of the pool: a measure, when `flush` misses its wakeup, workers leaving after a stop |
| `Latch.dfy` | `c9y/latch.cpp` |
| `ParallelCall.dfy` | any number of concurrent calls of `parallel`: clients, shared pool, queue, latches and task bodies composed |
| `Chunks.dfy` | the chunking loop of `c9y/parallel.h` and its arithmetic |
| `Interleaving.dfy` | tasks that update a shared array, interleaved element by element |
| `Algorithms.dfy`, `Reduce.dfy`, `MapReduce.dfy` | the algorithms of `c9y/parallel.h` |
| `EndToEnd.dfy` | algorithms on the composed protocol |
| `Sync.dfy` | `c9y/sync.cpp`: vectors per thread, batches, `once_tag` |
| `Defer.dfy` | `c9y/defer.cpp` and `delay`/`sync_point` on trees of tasks |
| `Barrier.dfy` | `c9y/barrier.h` |
| `StopState.dfy` | the stop state of `c9y/jthread.cpp` |
| `Runs.dfy`, `Sums.dfy` | runs, and counting over sequences |

## Where code and documentation differ

The model follows the code.

- `parallel_transform` and `parallel_copy` are documented as `std::transform` and `std::copy`.  They
  move the output by the size of the *next* chunk, so they agree with them if and only if the
  input fits in one chunk or the chunk size divides its length (`Algorithms.TransformIsExact`).
  Otherwise, with n elements, chunk size c and a rest of r, the rest is written at n - c in place
  of n - r (`Algorithms.TransformOutcome`): it races with the last full chunk, and either value
  may remain (`Algorithms.RaceIsReal`), and the last position is never written.
  `parallel_map_reduce` uses the former twice, so the guard is needed for the number of inputs and
  for the number of distinct keys (`MapReduce.MapReduceIsExact`).
- `parallel_reduce` applies `init` once per chunk and once more.  For an associative and commutative
  operator it agrees with `std::reduce` on all inputs if and only if combining `init` twice is
  combining it once, `op(init, op(init, x)) == op(init, x)` for all `x`, whatever the chunk size
  (`Reduce.ParallelReduceIsExact`).  Identities satisfy this, and so does any `init` for a maximum.
  For a single call: with integer addition they agree if and only if `init` is zero or the range is
  empty (`Reduce.ParallelSum`), with wrapping unsigned addition if and only if `init` times the
  number of chunks wraps around to zero (`Reduce.WrappingSumIsExact`).
- `sync` with a tag on the calling thread clears the tag whether or not a wrapper is on its way.
  In any reachable state, the first such call that returns while the tag is up breaks coalescing:
  a call can lead to two calls of the tag on their way if and only if it returns and the tag was up
  (`Sync.InlineCallDoublesExactly`).
- `arrive_and_drop` lowers the expected count only if its arrival completes the phase; otherwise
  one arrival of each other participant no longer completes a phase (`Barrier.DropTakesEffect`).
- `flush` waits for all pending work.  What it says when it returns is right
  (`TaskPool.FlushIsComplete`), but the worker notifies without the flush mutex, so a flusher can
  sleep through the only notify (`TaskPool.FlushCanMissItsWakeup`).  From any reachable state, a
  thread about to look at the counter can be stranded within that call if and only if the counter
  it reads is not zero, some worker is still in its loop and no task has itself called `flush`;
  before a stop, and with tasks that do not flush, the counter alone decides
  (`PoolProgress.FlushMissesExactly`).  A flusher that fell asleep in time is woken
  (`PoolProgress.CoveredIsWoken`); one that did not sleeps until another task is enqueued or a
  spurious wakeup comes (`PoolProgress.MissedSleepsOn`).  A task that calls `flush` on its own pool
  never returns from it (`TaskPool.TaskFlushNeverReturns`).

## Model

| member | source | states |
|---|---|---|
| Queue.NoWakeupIsLost | c9y/queue.h:73-187 | in every reachable state, for any mix of operations and threads: an un-notified sleeper implies that the queue length is at most the pending notifies plus the woken threads, and that a stop still has its `notify_all` ahead |
| Queue.StepKeepsWakeups | c9y/queue.h:73-187 | each single step, from any state with that invariant, keeps it |
| Queue.QuietSleepersAreRight | c9y/queue.h:136-187 | with nothing pending, a sleeper means an empty queue that is not stopped |
| Queue.StepRefinesFifo | c9y/queue.h:73-187 | each critical section performs one operation of a sequential queue, with the result its caller sees |
| Queue.Linearizable | c9y/queue.h:73-187 | the operations of any run, in mutex order, are a legal history of a sequential first-in first-out queue with the same results and final contents |
| Queue.FirstInFirstOut | c9y/queue.h:73-174 | initial contents followed by all pushes equal all popped values followed by the container |
| Queue.StoppedExactly | c9y/queue.h:180-187 | over every run the flag is up exactly if some `stop` has taken the mutex |
| Queue.WaitOutcome | c9y/queue.h:136-174 | one look of a wait takes the front if there is one; otherwise it gives up exactly if stopped or past the deadline, and sleeps exactly if neither |
| Queue.WaitsKeepTheirKind | c9y/queue.h:136-174 | over every run a waiter has a deadline exactly if its call has one, however it was woken |
| Queue.TimedWaitEnds | c9y/queue.h:161-174 | in every reachable state: a sleeper can wake; an awake waiter can find its deadline passed exactly if its call is timed, and then its call ends with the front or with nothing |
| Queue.Monitor.constructor | c9y/queue.h:52-60 | initial contents, not stopped, nobody inside |
| Queue.Monitor.Push | c9y/queue.h:73-80 | the locked half of `push` and `emplace` performs exactly the push step |
| Queue.Monitor.NotifyOne | c9y/queue.h:79 | wakes one sleeper if there is one, chosen arbitrarily |
| Queue.Monitor.Pop | c9y/queue.h:109-122 | takes the front or reports that there is none |
| Queue.Monitor.PopWait | c9y/queue.h:136-149 | first look of a wait: pop, give up, or sleep |
| Queue.Monitor.Recheck | c9y/queue.h:161-174 | later look of a wait, timed or not, with or without an expired deadline: result, container and wait set |
| Queue.Monitor.Wake | c9y/queue.h:139 | a spurious wakeup, or the deadline of a timed wait |
| Queue.Monitor.Stop | c9y/queue.h:180-185 | the flag is up afterwards; the notify is a separate step |
| Queue.Monitor.NotifyAll | c9y/queue.h:186 | wakes every sleeper |
| TaskPool.InFlightIsExact | c9y/task_pool.cpp:42-77 | in every reachable state the counter equals enqueuers between increment and push, plus queue length, plus tasks popped but not decremented |
| TaskPool.StepKeepsInv | c9y/task_pool.cpp:35-78 | every step keeps: exact counter, each task counted is pushed once, each task popped runs or has finished once, parents have smaller numbers, queued work has a live worker, and the queue's own invariants |
| TaskPool.StepProjects | c9y/task_pool.cpp:42-78 | every pool step is a queue step or leaves the queue alone, so the queue theorems hold of the pool |
| TaskPool.DescendsFollowsParents | c9y/task_pool.cpp:42-46 | in every reachable state the parent of a task has a smaller number, so the ancestry used for `flush` follows every chain of parents to its end |
| TaskPool.ParentIsEnqueuer | c9y/task_pool.cpp:42-46 | over every run the task of an increment is numbered by the increments before it, and its parent is for good the task that its thread was running, if any |
| TaskPool.FlushIsComplete | c9y/task_pool.cpp:42-78 | when `flush` returns, every task enqueued before the call and every task that transitively descends from it, now or in any later state, has finished |
| TaskPool.RunsKeepSince | c9y/task_pool.cpp:42-71 | after a moment with the counter at zero no task is enqueued by an older one |
| TaskPool.ZeroMeansFinished | c9y/task_pool.cpp:52-57 | with the counter at zero every task ever counted has finished exactly once |
| PoolProgress.FlushMissesExactly | c9y/task_pool.cpp:48-76 | for every reachable state and every thread about to look at the counter: some run that starts with this look and stays within this call leaves it asleep with nothing in flight and no notify coming, if and only if the counter is not zero, a worker is in its loop and no task is itself in `flush` |
| PoolProgress.Drain | c9y/task_pool.cpp:60-77 | while a flusher is about to sleep, closing steps alone can bring the counter to zero and the last alert past it |
| PoolProgress.ComingDrains | c9y/task_pool.cpp:42-77 | while a task is in flight or an alert pending, a worker in its loop, and no task in `flush`, a step that is not spurious is enabled, and the worker stays |
| PoolProgress.StepChangesWork | c9y/task_pool.cpp:42-77 | every push, notify, look, finish, decrement and alert lowers the work; an increment adds 7, a spurious wakeup 1, a stop one more than the number of threads, and flushers nothing |
| PoolProgress.WorkBoundsRuns | c9y/task_pool.cpp:42-77 | over every run, with tasks that enqueue and throw: closing steps are bounded by the initial work plus what was added on the way |
| PoolProgress.MissedSleepsOn | c9y/task_pool.cpp:57 | a flusher that missed its wakeup sleeps through every run without a further enqueue and without a spurious wakeup of its own |
| PoolProgress.CoveredUntilAwake | c9y/task_pool.cpp:57-76 | over every run, a flusher asleep with a notify coming has one coming until it is awake |
| PoolProgress.CoveredIsWoken | c9y/task_pool.cpp:57-76 | such a flusher does not sleep at the end of any run that goes on until no closing step is left, with a worker in its loop and no task in `flush` |
| PoolProgress.FlusherLooks | c9y/task_pool.cpp:50-57 | a thread that enters `flush` or was woken in it can look at the counter when nobody is between a look and a return or sleep, and leaves exactly if it reads zero |
| PoolProgress.FlusherGoesOn | c9y/task_pool.cpp:50-57 | while some thread is in `flush` and not asleep, a step inside `flush` is enabled |
| PoolProgress.FlushStepsAreBounded | c9y/task_pool.cpp:48-76 | over every run the steps inside `flush` are bounded by calls, wakeups and alerts |
| PoolProgress.CoveredReturns | c9y/task_pool.cpp:48-76 | a flusher that had a notify coming, and did not go to sleep since, has left `flush` at the end of any run that goes on until no closing step and no step inside `flush` is left |
| TaskPool.FlushersExclude | c9y/task_pool.cpp:50-57 | at most one thread is between its look at the counter and its return or sleep |
| TaskPool.TaskFlushNeverReturns | c9y/task_pool.cpp:48-73 | over every run, a task that has called `flush` on its own pool stays in it and the counter stays positive |
| TaskPool.FlushCanMissItsWakeup | c9y/task_pool.cpp:48-76 | there is a run after which all tasks have finished, the flusher sleeps, and only spurious wakeups are possible |
| TaskPool.StoppedExactly | c9y/task_pool.cpp:35-38 | over every run the queue is stopped exactly if some thread has called for it, and a push is late exactly if a thread outside the pool pushes after that |
| TaskPool.DrainOnStop | c9y/task_pool.cpp:35-78 | once all workers have left there has been a stop; if nobody outside pushed after one, the queue is empty and every pushed task was popped in order and executed exactly once |
| PoolProgress.WorkersLeaveAfterStop | c9y/task_pool.cpp:35-78 | from every state after a stop: closing steps are bounded by the work at hand and what is added on the way; when none is left and no task is in `flush` every worker has left, and without late pushes every pushed task was executed once, in push order |
| PoolProgress.StopReleasesWorkers | c9y/task_pool.cpp:35-78 | in every state after a stop, while a worker is in its loop and no task is in `flush`, a closing step is enabled |
| TaskPool.StepKeepsDrainable | c9y/task_pool.cpp:60-78 | each step keeps: while work is queued and no outside thread has pushed late, some worker has not left its loop |
| TaskPool.Pool.constructor | c9y/task_pool.cpp:32-33 | idle workers, an empty queue, nothing in flight |
| TaskPool.Pool.Increment | c9y/task_pool.cpp:44 | first half of `enqueue` |
| TaskPool.Pool.Push | c9y/task_pool.cpp:45 | second half of `enqueue`, up to the notify |
| TaskPool.Pool.NotifyOne | c9y/queue.h:79 | the notify of `enqueue` |
| TaskPool.Pool.PopWait | c9y/task_pool.cpp:62 | head of the worker loop: take a task, leave, or sleep |
| TaskPool.Pool.Recheck | c9y/task_pool.cpp:62 | a woken worker looks again |
| TaskPool.Pool.Wake | c9y/queue.h:139 | a spurious wakeup of a worker |
| TaskPool.Pool.Finish | c9y/task_pool.cpp:64-71 | the task returns, or its exception is handled |
| TaskPool.Pool.Decrement | c9y/task_pool.cpp:73 | decrement, and whether the flushers are to be alerted |
| TaskPool.Pool.AlertFlush | c9y/task_pool.cpp:75 | notify without the flush mutex |
| TaskPool.Pool.FlushCall | c9y/task_pool.cpp:48-50 | a thread outside the pool, or a task, enters `flush` |
| TaskPool.Pool.FlushCheck | c9y/task_pool.cpp:50-57 | one look at the counter under the flush mutex; says whether `flush` returns |
| TaskPool.Pool.FlushBlock | c9y/task_pool.cpp:57 | going to sleep and releasing the mutex, a step after the look |
| TaskPool.Pool.FlushWake | c9y/task_pool.cpp:57 | a spurious wakeup of a flusher |
| TaskPool.Pool.Stop | c9y/task_pool.cpp:37 | stop step of the destructor: the queue's flag is up afterwards |
| TaskPool.Pool.NotifyAll | c9y/queue.h:186 | the notify of the stop |
| Latch.LatchIsExact | c9y/latch.cpp:39-54 | over every run: count is expected less counted down, un-notified sleepers imply a positive count, passing implies count at most zero |
| Latch.StepKeepsWaiters | c9y/latch.cpp:39-54 | each step keeps what is said of sleepers and of threads that passed |
| Latch.Monitor.constructor | c9y/latch.cpp:36-37 | the expected count |
| Latch.Monitor.CountDown | c9y/latch.cpp:39-47 | decrement and conditional notify in one critical section |
| Latch.Monitor.Wait | c9y/latch.cpp:49-52 | first evaluation of the predicate |
| Latch.Monitor.Recheck | c9y/latch.cpp:52 | evaluation after a wakeup |
| Latch.Monitor.Wake | c9y/latch.cpp:52 | a spurious wakeup |
| ParallelCall.NeverReturnsEarly | c9y/parallel.h:65-79 | for each of any number of concurrent calls: its latch counts its tasks not yet counted down; a sleeping client implies a positive count; when it has returned, every step of every one of its tasks has happened exactly once and its memory is the outcome of a complete interleaving |
| ParallelCall.StepDropsMeasure | c9y/parallel.h:65-79 | every step of clients, workers and tasks that is not a spurious wakeup lowers a measure, and a spurious one adds exactly one |
| ParallelCall.RunsAreBounded | c9y/parallel.h:65-79 | a run has at most 10 steps per task, one per task step, two per worker and two per call, plus two per spurious wakeup |
| ParallelCall.NoDeadlock | c9y/parallel.h:65-79 | with at least one worker, any reachable state in which some call has not returned has a step that is not a spurious wakeup |
| ParallelCall.PoolStepsAllowed | c9y/parallel.h:65-79 | the composition restricts the pool in nothing but this: a client enqueues while it has tasks left, and a task ends when it has counted down |
| ParallelCall.LatchStepsAllowed | c9y/parallel.h:65-79 | a client waits exactly when it has sent all tasks, and wakes and looks again as the latch allows |
| ParallelCall.StepKeepsInv | c9y/parallel.h:65-79 | every step of the composed protocol keeps the pool, queue and latch invariants, the one-to-one correspondence of pool tasks and calls' tasks, and for each call that the record of its task steps replays to its memory |
| Chunks.ResultsSizeIsCeiling | c9y/parallel.h:49-59 | the number of results is the ceiling of size over chunk size |
| Chunks.SafeAdvance | c9y/parallel.h:97-103 | advances to the nearer of count and end and returns the distance |
| Chunks.BuildChunks | c9y/parallel.h:391-403 | the loop terminates with ceil(n/c) chunks; chunk k reads from min(kc, n) to min((k+1)c, n), has result k, and is written from its end less min(c, n) |
| Chunks.ChunksPartition | c9y/parallel.h:121-133 | input intervals are non-empty, at most chunk size long, and element i lies in interval i/c and no other |
| Chunks.WritesInBounds | c9y/parallel.h:395-403 | write intervals stay in [0, n); they start where the input intervals start if the guard holds, and stop short of n if it does not |
| Chunks.MisplacedChunk | c9y/parallel.h:395-403 | when the guard fails, full chunks are written where they are read, and the rest, read at n - n mod c, is written at n - c |
| Interleaving.RaceFreeOutcome | c9y/parallel.h:65-79 | if no two events share a slot, every complete interleaving applies each update exactly once and touches nothing else |
| Interleaving.UntouchedOutcome | c9y/parallel.h:65-79 | races or not, no interleaving changes a slot that no event names |
| Interleaving.WrittenOutcome | c9y/parallel.h:65-79 | races or not, if all events on a slot write values of some kind, the slot ends with such a value |
| Interleaving.EitherWins | c9y/parallel.h:65-79 | if just two events of different tasks are on a slot, each can come last |
| Interleaving.Parallel | c9y/parallel.h:65-79 | running all tasks, the scheduler choosing at each step, terminates in an outcome of a complete interleaving |
| Algorithms.ResultOutcome | c9y/parallel.h:118-135 | under every schedule the results vector holds the chunks' sequential values in order |
| Algorithms.ChunkResults | c9y/parallel.h:118-135 | tasks, results vector and `parallel` give the per-chunk values |
| Algorithms.AllChunksAllOf | c9y/parallel.h:137 | all chunks satisfy a predicate throughout exactly when the whole input does |
| Algorithms.ParallelAllOf | c9y/parallel.h:116-138 | true exactly if all elements satisfy the predicate |
| Algorithms.ParallelAnyOf | c9y/parallel.h:151-173 | true exactly if some element satisfies the predicate |
| Algorithms.ParallelNoneOf | c9y/parallel.h:186-210 | true exactly if no element satisfies the predicate |
| Algorithms.ParallelCount | c9y/parallel.h:223-245 | the multiplicity of the value in the input |
| Algorithms.ParallelCountIf | c9y/parallel.h:258-280 | the sequential count |
| Algorithms.CountsAddUp | c9y/parallel.h:279 | the chunks' counts add up to the count of the whole input |
| Algorithms.WritesTileExactly | c9y/parallel.h:391-403 | every position lies in exactly one write interval if and only if n is at most the chunk size or a multiple of it |
| Algorithms.TransformOutcome | c9y/parallel.h:387-406 | with the guard every schedule gives the sequential result; without it every position is determined: its own value, the misplaced value of the rest, either of them where both are written, and the old value elsewhere |
| Algorithms.RaceIsReal | c9y/parallel.h:387-406 | where both are written, some schedule leaves the one value and some schedule the other |
| Algorithms.TransformIsExact | c9y/parallel.h:387-406 | over all initial outputs and schedules the result is the sequential one if and only if the guard holds |
| Algorithms.ParallelTransform | c9y/parallel.h:387-406 | the method on an array, with every position in both cases |
| Algorithms.ParallelCopy | c9y/parallel.h:450-469 | the same for copying |
| Algorithms.ForEachOutcome | c9y/parallel.h:419-436 | under every schedule every element is updated exactly once |
| Algorithms.ParallelForEach | c9y/parallel.h:419-436 | the method on an array, in place |
| Reduce.ReductionIsFold | c9y/parallel.h:332-341 | for an associative and commutative operator any permutation and grouping of operands gives the fold, and the fold is one of them |
| Reduce.ParallelReduceIsExact | c9y/parallel.h:320-342 | for an associative and commutative operator, any implementation of `std::reduce` and any chunk size: `parallel_reduce` equals `std::reduce` on all inputs if and only if op(init, op(init, x)) = op(init, x) for all x |
| Reduce.ParallelValueIsFold | c9y/parallel.h:320-342 | the two levels of `std::reduce` give the fold of all elements with `init` ceil(n/c) + 1 times |
| Reduce.ParallelReduce | c9y/parallel.h:320-342 | the method: the reductions of the chunks are reduced in turn, whatever the operator; the exact fold for every input, and the value of `std::reduce` whenever `init` is absorbed |
| Reduce.ParallelSum | c9y/parallel.h:295-317 | the overload with `+`, on integers: exact value, and equal to the sequential sum if and only if `init` is zero or the range is empty |
| Reduce.WrappingSumIsExact | c9y/parallel.h:295-317 | the overload with `+` of an unsigned type: equal to `std::reduce` if and only if `init` times the number of chunks is zero modulo the type's size |
| MapReduce.Shuffle | c9y/parallel.h:502-505 | the loop gives each key that occurs the list of its values |
| MapReduce.ValuesInOrder | c9y/parallel.h:502-505 | that list has the values in input order |
| MapReduce.GroupingConserves | c9y/parallel.h:502-505 | no value is lost, none is duplicated across keys |
| MapReduce.FromPairsKeepsFirst | c9y/parallel.h:512 | the output map has the keys of the reduced list, each with the value of its first pair |
| MapReduce.ParallelMapReduce | c9y/parallel.h:490-513 | the three phases fit together, and the output keeps the first pair of each key; with the guards and a key-preserving reduction it is each mapped key with the reduction of its values |
| MapReduce.MapReduceMeetsPromise | c9y/parallel.h:490-513 | the same over every schedule of both parallel phases and every iteration order of keys |
| MapReduce.MissingGuardShowsDefault | c9y/parallel.h:498-512 | without a guard the default key is in the output under every schedule |
| MapReduce.MapReduceIsExact | c9y/parallel.h:490-513 | for n inputs with m distinct keys all instances are right if and only if both n and m are at most the chunk size or a multiple of it |
| EndToEnd.AllOfOnThePool | c9y/parallel.h:116-138 | when its call has returned among any concurrent calls, the results combine to the sequential answer |
| EndToEnd.CountIfOnThePool | c9y/parallel.h:258-280 | the same: the results add up to the sequential count |
| EndToEnd.ReduceOnThePool | c9y/parallel.h:320-342 | the same: reducing the results gives the exact fold, and the value of `std::reduce` if `init` is absorbed |
| EndToEnd.TransformOnThePool | c9y/parallel.h:387-406 | the same: memory is the sequential result, or every position is as without the guard |
| EndToEnd.ForEachOnThePool | c9y/parallel.h:419-436 | the same: every element is updated exactly once |
| EndToEnd.MapReduceOnThePool | c9y/parallel.h:490-513 | when the mapping call and the reducing call have returned, and both guards hold, the output is the promised map |
| Sync.TasksKeepOrder | c9y/sync.cpp:49-163 | for each thread, over every run: what the actions queue to it is what its `sync_point` calls have taken, call by call, then the vector; each call runs what it has taken in order, and all of it by its return, even when tasks call `sync_point`; without such nesting, queued tasks equal those run, then the running one, then the rest of the batch, then the vector |
| Sync.RunQueues | c9y/sync.cpp:49-74 | over every run a thread is queued exactly the functions of the calls that name it, and the wrappers, with tag and function, of the accepted calls that name it, in order |
| Sync.StepKeepsOrder | c9y/sync.cpp:49-163 | each step keeps these equations for every thread |
| Sync.OnceTagCoalesces | c9y/sync.cpp:56-84 | the flag is up exactly when one call is on its way, never two; accepted calls equal completed wrappers plus the one on its way, thrown or not |
| Sync.StepKeepsCoalescing | c9y/sync.cpp:56-138 | each step keeps both equations for every tag not cleared inline while up |
| Sync.StepOnItsWay | c9y/sync.cpp:56-163 | the number of calls on their way changes only by winning the exchange and by clearing the tag |
| Sync.InlineEffect | c9y/sync.cpp:119-138 | an inline call that returns clears its own flag and no other; one that throws leaves all flags; neither queues anything |
| Sync.InlineCallIsSafeExactly | c9y/sync.cpp:119-138 | in every reachable state, an inline call keeps each of the two coalescing equations if and only if it throws or the flag was down |
| Sync.InlineCallDoublesExactly | c9y/sync.cpp:119-138 | from every reachable state, for a tag not cleared inline while up: some continuation of an inline call, in which no further inline call of that tag returns, has two calls on their way if and only if the call returns and the tag is up |
| Sync.Table.constructor | c9y/sync.cpp:36 | empty vectors, all flags down |
| Sync.Table.Push | c9y/sync.cpp:49-54 | locked push to a thread's vector |
| Sync.Table.Exchange | c9y/sync.cpp:59 | raises the flag, and says whether the call was accepted |
| Sync.Table.PushWrapper | c9y/sync.cpp:61-72 | the accepted call queues its wrapper |
| Sync.Table.Swap | c9y/sync.cpp:140-148 | takes the vector and leaves an empty one, from outside or from within a running task |
| Sync.Table.Leave | c9y/sync.cpp:152-163 | the loop over the batch is over |
| Sync.Table.Start | c9y/sync.cpp:152-156 | the next task of the batch starts |
| Sync.Table.Reset | c9y/sync.cpp:62-71 | the wrapper clears its tag, on return and on exception |
| Sync.Table.End | c9y/sync.cpp:154-161 | the task is over, its exception handled |
| Sync.Table.Inline | c9y/sync.cpp:122-132 | the branch for the calling thread |
| Defer.LevelOrderIsByDepth | c9y/sync.cpp:150-163 | level order runs all tasks of smaller depth first, each depth from left to right |
| Defer.LevelOrderIsComplete | c9y/defer.cpp:41-52 | level order runs every task of the forest exactly as often as it occurs |
| Defer.QueueOrderIsLevelOrder | c9y/defer.cpp:41-52 | running a queue until it is empty is breadth first |
| Defer.Thread.constructor | c9y/defer.cpp:30 | nothing postponed |
| Defer.Thread.Defer | c9y/defer.cpp:32-39 | refuses an empty function, otherwise appends |
| Defer.Thread.RunDeferred | c9y/defer.cpp:48 | a task runs, defers its spawns in order, and may throw |
| Defer.Thread.CatchUp | c9y/defer.cpp:41-52 | terminates; runs the forest breadth first up to and including the first task that throws, if any; tasks run and tasks left are those there were; throws exactly if some task of the forest does; otherwise empties the queue and returns whether there was work |
| Defer.Thread.CatchUpUntilIdle | c9y/defer.cpp:41-52 | calling it again after each exception runs every task once, breadth first |
| Defer.UntilThrowIsExact | c9y/defer.cpp:44-49 | what runs before an exception is all tasks up to the first that throws |
| Defer.ThrowingIsExact | c9y/sync.cpp:154-161 | the exceptions handed to the handler are those of the tasks that throw, in order |
| Defer.Thread.Delay | c9y/sync.cpp:76-79 | appends to the thread's own vector |
| Defer.Thread.RunDelayed | c9y/sync.cpp:156 | a task runs, delays its spawns in order, and may throw |
| Defer.Thread.SyncPoint | c9y/sync.cpp:150-163 | runs exactly one level whatever its tasks throw, leaves the next, and hands the exceptions to the handler in order |
| Defer.Thread.SyncPoints | c9y/sync.cpp:150-163 | d calls run exactly the first d levels |
| Defer.Thread.SyncUntilIdle | c9y/sync.cpp:140-163 | calls until nothing is left run what one `catch_up` runs, in the same order |
| Barrier.LockStep | c9y/barrier.h:61-114 | completed phases differ by at most one, and nobody leaves a phase before all arrived in it |
| Barrier.StepKeepsInv | c9y/barrier.h:61-114 | each step keeps: the count is the number of participants yet to arrive in the current phase, sleepers wait for the current phase, tokens are of the current or the last one |
| Barrier.CompletionMeansAllArrived | c9y/barrier.h:94-114 | the completion function runs when all have arrived in the phase and nobody has left it |
| Barrier.NotAllBlocked | c9y/barrier.h:61-73 | no reachable state has everybody blocked |
| Barrier.PhasesAdvance | c9y/barrier.h:61-114 | a run is at most participants times (4 * completed phases + 3) long, plus two steps per spurious wakeup, so phases keep completing |
| Barrier.StepAdvances | c9y/barrier.h:61-114 | each step that is not a spurious wakeup raises the total advance |
| Barrier.ArriveManyIsOneByOne | c9y/barrier.h:56-59 | arriving n at once equals n arrivals, and completes the phase exactly when n fills it |
| Barrier.ArrivalCompletes | c9y/barrier.h:94-114 | an arrival or drop completes the phase, with one run of the completion function, exactly if one was missing; a drop lowers the expected number exactly then |
| Barrier.FullPhases | c9y/barrier.h:94-114 | q full rounds of arrivals complete exactly q phases, with one run of the completion function each |
| Barrier.DropTakesEffect | c9y/barrier.h:80-111 | after a drop, every later phase takes one arrival fewer if and only if the drop completed its own phase; otherwise each takes as many as before |
| Barrier.Monitor.constructor | c9y/barrier.h:51-52 | count and expected, iteration zero |
| Barrier.Monitor.ArriveSection | c9y/barrier.h:94-114 | counters, token, completion and notify of one arrival section |
| Barrier.Monitor.Arrive | c9y/barrier.h:56-59 | one arrival of a participant |
| Barrier.Monitor.Wait | c9y/barrier.h:61-73 | returns if the token is of an earlier phase, sleeps otherwise |
| Barrier.Monitor.Recheck | c9y/barrier.h:71-72 | looks again after a wakeup |
| Barrier.Monitor.Wake | c9y/barrier.h:72 | a spurious wakeup |
| StopState.CallbacksExactlyOnce | c9y/jthread.cpp:39-84 | the first request, and no other, returns true; the invocations of a run are exactly the survivors in registration order, with the immediate ones before and after |
| StopState.NoRequestNoCallback | c9y/jthread.cpp:63-84 | without a request nothing registered is invoked; the list holds the survivors |
| StopState.NoCallbackTwice | c9y/jthread.cpp:39-84 | no callback is invoked twice and at most one request wins, over every run |
| StopState.QuietRuns | c9y/jthread.cpp:63-84 | before any request the list is the registered objects not destroyed, in registration order |
| StopState.StoppedRuns | c9y/jthread.cpp:39-84 | after the request every construction invokes once, no request wins and no destruction matters |
| StopState.Monitor.constructor | c9y/jthread.cpp:36 | not stopping, nothing registered |
| StopState.Monitor.RequestStop | c9y/jthread.cpp:39-55 | the loop invokes every registered callback in order, once, and only for the winner |
| StopState.Monitor.StopRequested | c9y/jthread.cpp:57-61 | tells whether a stop was requested |
| StopState.Monitor.AddCallback | c9y/jthread.cpp:63-74 | registers, or invokes at once after a stop |
| StopState.Monitor.RemoveCallback | c9y/jthread.cpp:76-84 | erases the first occurrence, if any |
| StopState.Monitor.SelfRegister | c9y/jthread.cpp:170-180 | registers with a state, invokes at once without one |
| StopState.Monitor.Deregister | c9y/jthread.cpp:162-168 | removes itself if it has a state |

## Left out

- Unconditional liveness of `flush`: false of the code, as `PoolProgress.FlushMissesExactly` shows.
- TaskPool.Pool.Stop: only the queue stop of the destructor; the reset of the counter and the destruction of members are object lifetime.
- ParallelCall: the composition of clients, workers, queue and latches is modelled on values, since it is the interleaving of several threads; the objects it composes are classes.
- ParallelCall.NoDeadlock: nested `parallel`, throwing tasks and a pool without workers are excluded; a task that throws never counts down, and without workers nothing runs.
- Reduce.ParallelReduceIsExact: operators that are not associative and commutative, for which `std::reduce` itself promises no particular value.
- Reduce.ParallelSum: floating-point sums.
- MapReduce.ParallelMapReduce: output collections other than a map; and key order is any order rather than the ascending one.
- Algorithms.ParallelTransform: the output does not overlap the input, so transforming a range onto itself is not modelled.
- Algorithms.ParallelCopy: the output does not overlap the input.
- `parallel_generate`: stateful generators are copied per chunk; a pure generator would only repeat `ParallelForEach`.
- A chunk size of zero, for which `_get_results_size` divides by zero.
- Barrier.LockStep: participants loop on `arrive_and_wait`; `arrive_and_drop` is covered by `Barrier.DropTakesEffect` alone, and the completion function is counted, not run.
- StopState.Monitor.RequestStop: callbacks do not call back into the stop state, which its mutex forbids.
- Sync.Table: the overloads for the main thread and those that return a future only forward, and an exception handler is only the absorption of the exception.
- Defer.Thread.CatchUp: tasks do not call `catch_up` or `sync_point` themselves.
- Real time: the deadline of a timed wait may pass at any moment.
- Weak memory, wrap-around of counters and indices, and `vector<bool>` bit sharing: slot writes are independent.
- `c9y/async.cpp`, `c9y/thread_pool.cpp`, `c9y/coroutine.h`, thread moves and joins, and exception-handler storage: thin wrappers, or disabled.
