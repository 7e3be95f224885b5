/** The task pool: enqueuers, workers and flushers over one queue and an atomic counter of
    tasks in flight.  One step is one critical section, one atomic operation, one notify, or
    one wakeup.  A task is known by its number, given in the order of the increments. */
module TaskPool {
  import opened Runs
  import opened Sums
  import Queue

  /** Where a thread stands in the worker loop; `External` threads are not workers. */
  datatype Job =
    | External
    | Ready                    // at the top of the loop, or inside `pop_wait`
    | Running(task: nat)
    | Done(task: nat)          // the task has returned or thrown, decrement still to come
    | Alert                    // saw the counter reach zero, `notify_all` still to come
    | Exited

  /** Where a thread stands in `flush`. */
  datatype Flush =
    | NoFlush
    | Entered                  // about to take the flush mutex
    | Looked                   // has it, and has read a positive counter once
    | Blocking                 // has it, and has read a positive counter inside the wait
    | Asleep                   // has released it, blocked on the condition variable
    | Waiting                  // woken, about to take the mutex again

  /** `enq` is the task that the thread has counted but not yet pushed. */
  datatype Thread = Thread(job: Job, enq: Option<nat>, flush: Flush)

  /** `parents[d]` is the task that enqueued task `d`, if a task did.
      `finished` lists the tasks that have returned or thrown.
      `late` tells whether a thread outside the pool has pushed to a stopped queue. */
  datatype State = State(q: Queue.State<nat>, threads: seq<Thread>, inFlight: int,
                         parents: seq<Option<nat>>, finished: seq<nat>, late: bool)

  datatype Action =
    | Increment(t: nat)
    | Push(t: nat)
    | NotifyOne(t: nat, woken: Option<nat>)
    | PopWait(t: nat)
    | Wake(t: nat)
    | Recheck(t: nat)
    | Finish(t: nat, threw: bool)
    | Decrement(t: nat)
    | AlertFlush(t: nat)
    | FlushCall(t: nat)
    | FlushCheck(t: nat)
    | FlushBlock(t: nat)
    | FlushWake(t: nat)
    | Stop(t: nat)
    | NotifyAll(t: nat)

  predicate Idle(s: State, t: nat) {
    t < |s.threads| && Queue.At(s.q, t, Queue.Out) && s.threads[t].enq.None? && s.threads[t].flush.NoFlush?
  }

  function SetJob(s: State, t: nat, job: Job): State
    requires t < |s.threads|
  {
    s.(threads := s.threads[t := s.threads[t].(job := job)])
  }

  function SetFlush(s: State, t: nat, flush: Flush): State
    requires t < |s.threads|
  {
    s.(threads := s.threads[t := s.threads[t].(flush := flush)])
  }

  /** What a worker does with the outcome of `pop_wait`. */
  function JobAfter(o: Queue.Outcome<nat>): Job {
    match o
    case Got(x) => Running(x)
    case Nothing => Exited
    case Blocked => Ready
  }

  function Attempt(s: State, t: nat): State
    requires t < |s.threads| == |s.q.pcs|
  {
    var (q, o) := Queue.Attempt(s.q, t, false, false);
    SetJob(s.(q := q), t, JobAfter(o))
  }

  predicate AlertPending(s: State) { exists t :: 0 <= t < |s.threads| && s.threads[t].job.Alert? }

  /** A notify for the flushers is pending, or must still come. */
  predicate Coming(s: State) { s.inFlight != 0 || AlertPending(s) }

  predicate HoldsMutex(flush: Flush) { flush.Looked? || flush.Blocking? }

  /** Thread `t` has the flush mutex, or wants it and can take it, and looks at the counter. */
  predicate CanLook(s: State, t: nat) {
    t < |s.threads|
    && (s.threads[t].flush.Looked?
        || ((s.threads[t].flush.Entered? || s.threads[t].flush.Waiting?)
            && forall u :: 0 <= u < |s.threads| ==> !HoldsMutex(s.threads[u].flush)))
  }

  function WakeFlushers(threads: seq<Thread>): (r: seq<Thread>)
    ensures |r| == |threads|
    ensures forall i :: 0 <= i < |threads| ==>
      r[i] == if threads[i].flush.Asleep? then threads[i].(flush := Waiting) else threads[i]
  {
    seq(|threads|, i requires 0 <= i < |threads| =>
      if threads[i].flush.Asleep? then threads[i].(flush := Waiting) else threads[i])
  }

  /** A step of the queue that leaves the rest of the pool alone. */
  function QueueStep(s: State, a: Queue.Action<nat>): Option<State> {
    match Queue.Step(s.q, a)
    case None => None
    case Some(q) => Some(s.(q := q))
  }

  function Step(s: State, a: Action): Option<State> {
    if |s.q.pcs| != |s.threads| || a.t >= |s.threads| then None
    else
      var th := s.threads[a.t];
      match a
      case Increment(t) =>
        if Idle(s, t) && (th.job.External? || th.job.Running?)
        then Some(s.(inFlight := s.inFlight + 1,
                     threads := s.threads[t := th.(enq := Some(|s.parents|))],
                     parents := s.parents + [if th.job.Running? then Some(th.job.task) else None]))
        else None
      case Push(t) =>
        if th.enq.None? then None
        else
          var q := Queue.Step(s.q, Queue.Action.Push(t, th.enq.value));
          if q.None? then None
          else Some(s.(q := q.value, threads := s.threads[t := th.(enq := None)],
                       late := s.late || (th.job.External? && s.q.stopped)))
      case NotifyOne(t, woken) => QueueStep(s, Queue.Action.NotifyOne(t, woken))
      case PopWait(t) => if th.job.Ready? && Queue.At(s.q, t, Queue.Out) then Some(Attempt(s, t)) else None
      case Wake(t) => QueueStep(s, Queue.Action.Wake(t))
      case Recheck(t) =>
        if th.job.Ready? && Queue.At(s.q, t, Queue.Awake(false)) then Some(Attempt(s, t)) else None
      case Finish(t, threw) =>
        if Idle(s, t) && th.job.Running?
        then Some(SetJob(s.(finished := s.finished + [th.job.task]), t, Done(th.job.task))) else None
      case Decrement(t) =>
        if th.job.Done?
        then Some(SetJob(s.(inFlight := s.inFlight - 1), t, if s.inFlight - 1 == 0 then Alert else Ready))
        else None
      case AlertFlush(t) =>
        if th.job.Alert?
        then var s' := SetJob(s, t, Ready); Some(s'.(threads := WakeFlushers(s'.threads))) else None
      case FlushCall(t) =>
        if Idle(s, t) && (th.job.External? || th.job.Running?) then Some(SetFlush(s, t, Entered)) else None
      case FlushCheck(t) =>
        if !CanLook(s, t) then None
        else if s.inFlight == 0 then Some(SetFlush(s, t, NoFlush))
        else Some(SetFlush(s, t, if th.flush.Entered? then Looked else Blocking))
      case FlushBlock(t) =>
        if th.flush.Blocking? then Some(SetFlush(s, t, Asleep)) else None
      case FlushWake(t) => if th.flush.Asleep? then Some(SetFlush(s, t, Waiting)) else None
      case Stop(t) => if Idle(s, t) && th.job.External? then QueueStep(s, Queue.Action.Stop(t)) else None
      case NotifyAll(t) => QueueStep(s, Queue.Action.NotifyAll(t))
  }

  /** A fresh pool: `workers` workers and `externals` other threads. */
  function Init(workers: nat, externals: nat): State {
    State(Queue.Init([], workers + externals),
          seq(workers, _ => Thread(Ready, None, NoFlush)) + seq(externals, _ => Thread(External, None, NoFlush)),
          0, [], [], false)
  }

  // ---------------------------------------------------------------- the invariant

  function Counted(th: Thread): nat { if th.enq.Some? then 1 else 0 }
  function Holding(th: Thread): nat { if th.job.Running? || th.job.Done? then 1 else 0 }
  function CountedIds(th: Thread): multiset<nat> { if th.enq.Some? then multiset{th.enq.value} else multiset{} }
  function RunningIds(th: Thread): multiset<nat> { if th.job.Running? then multiset{th.job.task} else multiset{} }

  /** The counter is the number of enqueuers between increment and push, plus the length of
      the queue, plus the number of tasks popped but not yet decremented. */
  ghost predicate CounterExact(s: State) {
    s.inFlight == Sum(Counted, s.threads) + |s.q.container| + Sum(Holding, s.threads)
  }

  /** Every task ever counted is waiting to be pushed or has been pushed, once;
      every task popped is running or has finished, once. */
  ghost predicate TasksConserved(s: State) {
    && Below(|s.parents|) == Gather(CountedIds, s.threads) + multiset(s.q.pushed)
    && multiset(s.q.popped) == Gather(RunningIds, s.threads) + multiset(s.finished)
  }

  predicate ThreadOk(s: State, t: nat)
    requires t < |s.threads| == |s.q.pcs|
  {
    var th, pc := s.threads[t], s.q.pcs[t];
    && (th.enq.Some? ==> (th.job.External? || th.job.Running?) && pc.Out? && th.flush.NoFlush?)
    && (pc.Pushed? ==> th.job.External? || th.job.Running?)
    && (pc.Stopping? ==> th.job.External?)
    && (pc.Asleep? || pc.Awake? ==> th.job.Ready? && !pc.timed)
    && (!th.flush.NoFlush? ==> th.job.External? || th.job.Running?)
    && (th.job.Exited? ==> s.q.stopped)
  }

  ghost predicate ThreadsOk(s: State) {
    |s.q.pcs| == |s.threads| && forall t :: 0 <= t < |s.threads| ==> ThreadOk(s, t)
  }

  ghost predicate IsWorker(s: State, t: int) { 0 <= t < |s.threads| && !s.threads[t].job.External? }

  ghost predicate HasWorker(s: State) { exists t :: IsWorker(s, t) }

  ghost predicate LiveWorker(s: State, t: int) { IsWorker(s, t) && !s.threads[t].job.Exited? }

  /** While work is queued, and nobody outside has pushed after the stop, some worker is
      still in its loop. */
  ghost predicate Drainable(s: State) {
    HasWorker(s) && s.q.container != [] && !s.late ==> exists t :: LiveWorker(s, t)
  }

  /** A task is enqueued by a task with a smaller number. */
  ghost predicate ParentsOlder(s: State) {
    forall d :: 0 <= d < |s.parents| && s.parents[d].Some? ==> s.parents[d].value < d
  }

  ghost predicate Inv(s: State) {
    && ThreadsOk(s)
    && Queue.Fifo([], s.q)
    && Queue.NoLostWakeup(s.q)
    && CounterExact(s)
    && TasksConserved(s)
    && ParentsOlder(s)
    && Drainable(s)
  }

  /** The queue component of a pool step is a queue step, or no step at all. */
  lemma StepProjects(s: State, a: Action)
    requires ThreadsOk(s) && Step(s, a).Some?
    ensures var q := Step(s, a).value.q;
      q == s.q || exists b :: Queue.Step(s.q, b) == Some(q)
  {
    var th := s.threads[a.t];
    match a
    case Push(t) => var _ := Queue.Step(s.q, Queue.Action.Push(t, th.enq.value));
    case NotifyOne(t, woken) => var _ := Queue.Step(s.q, Queue.Action.NotifyOne(t, woken));
    case PopWait(t) => var _ := Queue.Step(s.q, Queue.Action.PopWait(t, false));
    case Wake(t) => var _ := Queue.Step(s.q, Queue.Action.Wake(t));
    case Recheck(t) => var _ := Queue.Step(s.q, Queue.Action.Recheck(t, false));
    case Stop(t) => var _ := Queue.Step(s.q, Queue.Action.Stop(t));
    case NotifyAll(t) => var _ := Queue.Step(s.q, Queue.Action.NotifyAll(t));
    case _ =>
  }

  lemma StepKeepsQueue(s: State, a: Action)
    requires ThreadsOk(s) && Queue.Fifo([], s.q) && Queue.NoLostWakeup(s.q) && Step(s, a).Some?
    ensures Queue.Fifo([], Step(s, a).value.q) && Queue.NoLostWakeup(Step(s, a).value.q)
  {
    StepProjects(s, a);
    var q := Step(s, a).value.q;
    if q != s.q {
      var b :| Queue.Step(s.q, b) == Some(q);
      Queue.StepKeepsFifo([], s.q, b);
      Queue.StepKeepsWakeups(s.q, b);
    }
  }

  lemma StepKeepsItsThread(s: State, a: Action)
    requires ThreadsOk(s) && Step(s, a).Some?
    ensures var s' := Step(s, a).value;
      |s'.threads| == |s'.q.pcs| == |s.threads| && ThreadOk(s', a.t)
  {
    assert ThreadOk(s, a.t);
  }

  lemma StepKeepsOtherThread(s: State, a: Action, t: nat)
    requires ThreadsOk(s) && Step(s, a).Some? && t < |s.threads| && t != a.t
    requires var s' := Step(s, a).value; |s'.threads| == |s'.q.pcs| == |s.threads|
    ensures ThreadOk(Step(s, a).value, t)
  {
    assert ThreadOk(s, t) && ThreadOk(s, a.t);
  }

  lemma StepKeepsThreads(s: State, a: Action)
    requires ThreadsOk(s) && Step(s, a).Some?
    ensures ThreadsOk(Step(s, a).value)
  {
    StepKeepsItsThread(s, a);
    forall t: nat | t < |s.threads| && t != a.t ensures ThreadOk(Step(s, a).value, t) {
      StepKeepsOtherThread(s, a, t);
    }
  }

  lemma WakingFlushersKeepsCounts(threads: seq<Thread>)
    ensures Sum(Counted, WakeFlushers(threads)) == Sum(Counted, threads)
    ensures Sum(Holding, WakeFlushers(threads)) == Sum(Holding, threads)
  {
    SumPointwise(Counted, WakeFlushers(threads), threads);
    SumPointwise(Holding, WakeFlushers(threads), threads);
  }

  lemma WakingFlushersKeepsIds(threads: seq<Thread>)
    ensures Gather(CountedIds, WakeFlushers(threads)) == Gather(CountedIds, threads)
    ensures Gather(RunningIds, WakeFlushers(threads)) == Gather(RunningIds, threads)
  {
    GatherPointwise(CountedIds, WakeFlushers(threads), threads);
    GatherPointwise(RunningIds, WakeFlushers(threads), threads);
  }

  /** Only thread `t` moves. */
  ghost predicate Moves(s: State, s': State, t: nat) {
    t < |s.threads| == |s'.threads| && s'.threads == s.threads[t := s'.threads[t]]
  }

  lemma StepMovesOneThread(s: State, a: Action)
    requires Step(s, a).Some? && !a.AlertFlush?
    ensures Moves(s, Step(s, a).value, a.t)
  {
  }

  /** What a step counts, pushes, pops and finishes is what its thread takes on or gives up. */
  ghost predicate Balanced(s: State, s': State, t: nat)
    requires Moves(s, s', t)
  {
    && s'.inFlight + Counted(s.threads[t]) + Holding(s.threads[t]) + |s.q.container|
       == s.inFlight + Counted(s'.threads[t]) + Holding(s'.threads[t]) + |s'.q.container|
    && Below(|s'.parents|) + multiset(s.q.pushed) + CountedIds(s.threads[t])
       == Below(|s.parents|) + multiset(s'.q.pushed) + CountedIds(s'.threads[t])
    && multiset(s'.q.popped) + multiset(s.finished) + RunningIds(s.threads[t])
       == multiset(s.q.popped) + multiset(s'.finished) + RunningIds(s'.threads[t])
  }

  lemma BalanceKeepsTasks(s: State, s': State, t: nat)
    requires CounterExact(s) && TasksConserved(s) && Moves(s, s', t) && Balanced(s, s', t)
    ensures CounterExact(s') && TasksConserved(s')
  {
    var th, th' := s.threads[t], s'.threads[t];
    SumUpdate(Counted, s.threads, t, th');
    SumUpdate(Holding, s.threads, t, th');
    GatherUpdate(CountedIds, s.threads, t, th');
    GatherUpdate(RunningIds, s.threads, t, th');
    Rebalance(Below(|s.parents|), Gather(CountedIds, s.threads), multiset(s.q.pushed),
              Below(|s'.parents|), Gather(CountedIds, s'.threads), multiset(s'.q.pushed),
              CountedIds(th), CountedIds(th'));
    Rebalance(multiset(s.q.popped), Gather(RunningIds, s.threads), multiset(s.finished),
              multiset(s'.q.popped), Gather(RunningIds, s'.threads), multiset(s'.finished),
              RunningIds(th), RunningIds(th'));
  }

  lemma PushBalances(s: State, t: nat)
    requires Step(s, Push(t)).Some?
    ensures var s' := Step(s, Push(t)).value; Moves(s, s', t) && Balanced(s, s', t)
  {
    MultisetSnoc(s.q.pushed, s.threads[t].enq.value);
  }

  lemma AttemptBalances(s: State, t: nat)
    requires t < |s.threads| == |s.q.pcs| && s.threads[t].job.Ready?
    ensures Moves(s, Attempt(s, t), t) && Balanced(s, Attempt(s, t), t)
  {
    if s.q.container != [] {
      MultisetSnoc(s.q.popped, s.q.container[0]);
    }
  }

  lemma FinishBalances(s: State, t: nat, threw: bool)
    requires Step(s, Finish(t, threw)).Some?
    ensures var s' := Step(s, Finish(t, threw)).value; Moves(s, s', t) && Balanced(s, s', t)
  {
    MultisetSnoc(s.finished, s.threads[t].job.task);
  }

  lemma IncrementBalances(s: State, t: nat)
    requires Step(s, Increment(t)).Some?
    ensures var s' := Step(s, Increment(t)).value; Moves(s, s', t) && Balanced(s, s', t)
  {
  }

  lemma QueueStepBalances(s: State, a: Action)
    requires Step(s, a).Some? && (a.NotifyOne? || a.Wake? || a.Stop? || a.NotifyAll?)
    ensures var s' := Step(s, a).value; Moves(s, s', a.t) && Balanced(s, s', a.t)
  {
    var s' := Step(s, a).value;
    assert s'.threads == s.threads;
    assert s'.q.pushed == s.q.pushed && s'.q.popped == s.q.popped && s'.q.container == s.q.container;
  }

  lemma DecrementBalances(s: State, t: nat)
    requires Step(s, Decrement(t)).Some?
    ensures var s' := Step(s, Decrement(t)).value; Moves(s, s', t) && Balanced(s, s', t)
  {
  }

  lemma FlushStepBalances(s: State, s': State, t: nat, flush: Flush)
    requires t < |s.threads| && s' == SetFlush(s, t, flush)
    ensures Moves(s, s', t) && Balanced(s, s', t)
  {
  }

  lemma StepBalances(s: State, a: Action)
    requires ThreadsOk(s) && Step(s, a).Some? && !a.AlertFlush?
    ensures var s' := Step(s, a).value; Moves(s, s', a.t) && Balanced(s, s', a.t)
  {
    match a
    case Increment(t) => IncrementBalances(s, t);
    case Push(t) => PushBalances(s, t);
    case Finish(t, threw) => FinishBalances(s, t, threw);
    case PopWait(t) => AttemptBalances(s, t);
    case Recheck(t) => AttemptBalances(s, t);
    case Decrement(t) => DecrementBalances(s, t);
    case FlushCall(t) => FlushStepBalances(s, Step(s, a).value, t, Entered);
    case FlushCheck(t) => FlushStepBalances(s, Step(s, a).value, t, Step(s, a).value.threads[t].flush);
    case FlushBlock(t) => FlushStepBalances(s, Step(s, a).value, t, Flush.Asleep);
    case FlushWake(t) => FlushStepBalances(s, Step(s, a).value, t, Waiting);
    case _ => QueueStepBalances(s, a);
  }

  lemma StepKeepsTasks(s: State, a: Action)
    requires ThreadsOk(s) && CounterExact(s) && TasksConserved(s) && Step(s, a).Some?
    ensures CounterExact(Step(s, a).value) && TasksConserved(Step(s, a).value)
  {
    if a.AlertFlush? {
      var m := SetJob(s, a.t, Ready);
      BalanceKeepsTasks(s, m, a.t);
      WakingFlushersKeepsCounts(m.threads);
      WakingFlushersKeepsIds(m.threads);
    } else {
      StepBalances(s, a);
      BalanceKeepsTasks(s, Step(s, a).value, a.t);
    }
  }

  /** A task under execution has been counted. */
  lemma RunningBelow(s: State, t: nat)
    requires Queue.Fifo([], s.q) && TasksConserved(s) && t < |s.threads| && s.threads[t].job.Running?
    ensures s.threads[t].job.task < |s.parents|
  {
    var x := s.threads[t].job.task;
    GatherIncludes(RunningIds, s.threads, t);
    assert multiset(s.q.popped)[x] >= 1;
    assert s.q.pushed == [] + s.q.pushed == s.q.popped + s.q.container;
    assert Below(|s.parents|)[x] >= multiset(s.q.pushed)[x] >= multiset(s.q.popped)[x];
  }

  lemma StepKeepsParentsOlder(s: State, a: Action)
    requires Queue.Fifo([], s.q) && TasksConserved(s) && ParentsOlder(s) && Step(s, a).Some?
    ensures ParentsOlder(Step(s, a).value)
  {
    if a.Increment? && s.threads[a.t].job.Running? {
      RunningBelow(s, a.t);
    }
  }

  lemma StepKeepsDrainable(s: State, a: Action)
    requires ThreadsOk(s) && Drainable(s) && Step(s, a).Some?
    ensures Drainable(Step(s, a).value)
  {
    var s' := Step(s, a).value;
    if HasWorker(s') && s'.q.container != [] && !s'.late {
      var w :| IsWorker(s', w);
      assert ThreadOk(s, a.t) && ThreadOk(s, w);
      if a.Push? {
        if s.threads[a.t].job.Running? {
          assert LiveWorker(s', a.t);
        } else {
          assert LiveWorker(s', w);
        }
      } else {
        assert IsWorker(s, w);
        var t :| LiveWorker(s, t);
        assert LiveWorker(s', t);
      }
    }
  }

  lemma InitOk(workers: nat, externals: nat)
    ensures Inv(Init(workers, externals))
  {
    InitTasks(workers, externals);
  }

  lemma InitTasks(workers: nat, externals: nat)
    ensures CounterExact(Init(workers, externals)) && TasksConserved(Init(workers, externals))
  {
    var s := Init(workers, externals);
    SumZero(Counted, s.threads);
    SumZero(Holding, s.threads);
    GatherEmpty(CountedIds, s.threads);
    GatherEmpty(RunningIds, s.threads);
  }

  lemma StepKeepsInv(s: State, a: Action)
    requires Inv(s) && Step(s, a).Some?
    ensures Inv(Step(s, a).value)
  {
    StepKeepsQueue(s, a);
    StepKeepsThreads(s, a);
    StepKeepsTasks(s, a);
    StepKeepsParentsOlder(s, a);
    StepKeepsDrainable(s, a);
  }

  lemma RunKeepsInv(s0: State, acts: seq<Action>, s: State)
    requires Inv(s0) && Exec(Step, s0, acts) == Some(s)
    ensures Inv(s)
  {
    forall s, a | Inv(s) && Step(s, a).Some? ensures Inv(Step(s, a).value) {
      StepKeepsInv(s, a);
    }
    assert Preserves(Step, s => Inv(s));
    InvariantOfRuns(Step, s => Inv(s), s0, acts);
  }

  /** The counter is exact in every reachable state; in particular it never goes negative. */
  lemma InFlightIsExact(workers: nat, externals: nat, acts: seq<Action>, s: State)
    requires Exec(Step, Init(workers, externals), acts) == Some(s)
    ensures s.inFlight == Sum(Counted, s.threads) + |s.q.container| + Sum(Holding, s.threads) >= 0
  {
    InitOk(workers, externals);
    RunKeepsInv(Init(workers, externals), acts, s);
  }

  // ---------------------------------------------------------------- flush

  /** Thread `t` is about to leave `flush`: it looks at the counter and reads zero. */
  predicate FlushReturns(s: State, t: nat) {
    CanLook(s, t) && s.inFlight == 0
  }

  /** A thread inside `flush` leaves it in no other way. */
  lemma FlushReturnsOnlyAtZero(s: State, a: Action, t: nat)
    requires Step(s, a).Some? && t < |s.threads|
    ensures !s.threads[t].flush.NoFlush? && Step(s, a).value.threads[t].flush.NoFlush?
       <==> a == FlushCheck(t) && FlushReturns(s, t)
  {
  }

  /** `d` is task `a`, or was enqueued by a task that descends from `a`. */
  predicate Descends(parents: seq<Option<nat>>, a: nat, d: nat)
    decreases d
  {
    d == a || (d < |parents| && parents[d].Some? && parents[d].value < d && Descends(parents, a, parents[d].value))
  }

  function Increments(acts: seq<Action>): nat {
    if acts == [] then 0 else Increments(acts[..|acts| - 1]) + if acts[|acts| - 1].Increment? then 1 else 0
  }

  lemma {:induction false} TasksAreNumbered(workers: nat, externals: nat, acts: seq<Action>, s: State)
    requires Exec(Step, Init(workers, externals), acts) == Some(s)
    ensures |s.parents| == Increments(acts)
    decreases |acts|
  {
    if acts != [] {
      var m := Exec(Step, Init(workers, externals), acts[..|acts| - 1]).value;
      TasksAreNumbered(workers, externals, acts[..|acts| - 1], m);
      StepNumbers(m, acts[|acts| - 1]);
    }
  }

  lemma StepNumbers(s: State, a: Action)
    requires Step(s, a).Some?
    ensures |Step(s, a).value.parents| == |s.parents| + if a.Increment? then 1 else 0
  {
  }

  /** What an increment records: the next number, and the task that its thread runs. */
  lemma IncrementRecords(s: State, t: nat)
    requires Step(s, Increment(t)).Some?
    ensures var s', job := Step(s, Increment(t)).value, s.threads[t].job;
      && s'.parents == s.parents + [if job.Running? then Some(job.task) else None]
      && s'.threads[t].enq == Some(|s.parents|)
  {
  }

  /** The recorded parents are the enqueuing tasks.  If the increment of thread `t` comes after
      `before`, then the task is numbered by the increments in `before`; and in every later
      state its parent is the task that `t` was running, if it was running one. */
  lemma ParentIsEnqueuer(workers: nat, externals: nat, before: seq<Action>, m: State, t: nat,
                         after: seq<Action>, s: State)
    requires Exec(Step, Init(workers, externals), before) == Some(m)
    requires Exec(Step, m, [Increment(t)] + after) == Some(s)
    ensures t < |m.threads| && Increments(before) < |s.parents|
    ensures s.parents[Increments(before)]
         == if m.threads[t].job.Running? then Some(m.threads[t].job.task) else None
  {
    TasksAreNumbered(workers, externals, before, m);
    assert [Increment(t)][..0] == [] && Exec(Step, m, [Increment(t)]) == Step(m, Increment(t));
    ExecJoin(Step, m, [Increment(t)], after);
    IncrementRecords(m, t);
    RunsOnlyAdd(Step(m, Increment(t)).value, after, s);
  }

  /** In every reachable state parents are older, so `Descends` follows every chain of parents
      to its end. */
  lemma DescendsFollowsParents(workers: nat, externals: nat, acts: seq<Action>, s: State, a: nat, d: nat)
    requires Exec(Step, Init(workers, externals), acts) == Some(s) && d < |s.parents|
    ensures Descends(s.parents, a, d)
       <==> d == a || (s.parents[d].Some? && Descends(s.parents, a, s.parents[d].value))
  {
    InitOk(workers, externals);
    RunKeepsInv(Init(workers, externals), acts, s);
  }

  /** When the counter is zero, every task ever counted has finished, exactly once. */
  lemma ZeroMeansFinished(s: State)
    requires Inv(s) && s.inFlight == 0
    ensures multiset(s.finished) == Below(|s.parents|)
  {
    forall t | 0 <= t < |s.threads| ensures CountedIds(s.threads[t]) == multiset{} == RunningIds(s.threads[t]) {
      SumAtLeast(Counted, s.threads, t);
      SumAtLeast(Holding, s.threads, t);
    }
    GatherEmpty(CountedIds, s.threads);
    GatherEmpty(RunningIds, s.threads);
    assert s.q.pushed == [] + s.q.pushed == s.q.popped + s.q.container == s.q.popped;
  }

  /** A task that has finished is not running. */
  lemma FinishedIsNotRunning(s: State, t: nat)
    requires Inv(s) && t < |s.threads| && s.threads[t].job.Running?
    ensures s.threads[t].job.task !in s.finished
  {
    var x := s.threads[t].job.task;
    GatherIncludes(RunningIds, s.threads, t);
    assert Gather(RunningIds, s.threads)[x] >= 1;
    assert s.q.pushed == [] + s.q.pushed == s.q.popped + s.q.container;
    assert multiset(s.q.pushed)[x] >= multiset(s.q.popped)[x] >= 1 + multiset(s.finished)[x];
    assert 1 >= Below(|s.parents|)[x] >= multiset(s.q.pushed)[x];
  }

  /** Since state `s1`: tasks and results are only added, and no new task has an old parent. */
  ghost predicate Since(s1: State, s: State) {
    && s1.parents <= s.parents && s1.finished <= s.finished
    && forall d :: |s1.parents| <= d < |s.parents| && s.parents[d].Some? ==> s.parents[d].value >= |s1.parents|
  }

  lemma NewTaskHasNewParent(s1: State, s: State, t: nat)
    requires multiset(s1.finished) == Below(|s1.parents|)
    requires Inv(s) && s1.finished <= s.finished && t < |s.threads| && s.threads[t].job.Running?
    ensures s.threads[t].job.task >= |s1.parents|
  {
    FinishedIsNotRunning(s, t);
    var x := s.threads[t].job.task;
    assert x in multiset(s1.finished) ==> x in s1.finished && x in s.finished;
  }

  lemma StepKeepsSince(s1: State, s: State, a: Action)
    requires multiset(s1.finished) == Below(|s1.parents|)
    requires Inv(s) && Since(s1, s) && Step(s, a).Some?
    ensures Since(s1, Step(s, a).value)
  {
    StepOnlyAdds(s, a);
    if a.Increment? && s.threads[a.t].job.Running? {
      NewTaskHasNewParent(s1, s, a.t);
    }
  }

  lemma {:induction false} OldTasksStayOld(s1: State, s: State, a: nat, d: nat)
    requires Since(s1, s) && a < |s1.parents| && Descends(s.parents, a, d)
    ensures d < |s1.parents|
    decreases d
  {
    if d != a {
      OldTasksStayOld(s1, s, a, s.parents[d].value);
    }
  }

  lemma RunsKeepSince(s1: State, acts: seq<Action>, s: State)
    requires Inv(s1) && multiset(s1.finished) == Below(|s1.parents|) && Exec(Step, s1, acts) == Some(s)
    ensures Since(s1, s)
  {
    forall s, a | Inv(s) && Since(s1, s) && Step(s, a).Some?
      ensures Inv(Step(s, a).value) && Since(s1, Step(s, a).value)
    {
      StepKeepsInv(s, a);
      StepKeepsSince(s1, s, a);
    }
    assert Preserves(Step, s => Inv(s) && Since(s1, s));
    InvariantOfRuns(Step, s => Inv(s) && Since(s1, s), s1, acts);
  }

  ghost predicate Grows(s0: State, s: State) { s0.parents <= s.parents && s0.finished <= s.finished }

  lemma StepOnlyAdds(s: State, a: Action)
    requires Step(s, a).Some?
    ensures Grows(s, Step(s, a).value)
  {
  }

  lemma RunsOnlyAdd(s0: State, acts: seq<Action>, s: State)
    requires Exec(Step, s0, acts) == Some(s)
    ensures Grows(s0, s)
  {
    forall s, a | Grows(s0, s) && Step(s, a).Some? ensures Grows(s0, Step(s, a).value) {
      StepOnlyAdds(s, a);
    }
    assert Preserves(Step, s => Grows(s0, s));
    InvariantOfRuns(Step, s => Grows(s0, s), s0, acts);
  }

  /** `flush` is complete.  Let `s0` be the state in which some thread calls `flush`, `s1` the
      state in which it returns, and `s` any later state.  Every task that descends from one
      enqueued before the call had finished, by returning or by throwing, when `flush`
      returned; none is enqueued afterwards. */
  lemma FlushIsComplete(workers: nat, externals: nat, before: seq<Action>, s0: State,
                        during: seq<Action>, s1: State, t: nat, after: seq<Action>, s: State, a: nat, d: nat)
    requires Exec(Step, Init(workers, externals), before) == Some(s0)
    requires Exec(Step, s0, during) == Some(s1) && FlushReturns(s1, t)
    requires Exec(Step, s1, after) == Some(s)
    requires a < |s0.parents| && Descends(s.parents, a, d)
    ensures d in s1.finished
  {
    InitOk(workers, externals);
    RunKeepsInv(Init(workers, externals), before, s0);
    RunKeepsInv(s0, during, s1);
    ZeroMeansFinished(s1);
    RunsOnlyAdd(s0, during, s1);
    RunsKeepSince(s1, after, s);
    OldTasksStayOld(s1, s, a, d);
    assert d in multiset(s1.finished);
  }

  ghost predicate OneFlusher(s: State) {
    forall t, u :: 0 <= t < |s.threads| && 0 <= u < |s.threads| ==>
      HoldsMutex(s.threads[t].flush) && HoldsMutex(s.threads[u].flush) ==> t == u
  }

  lemma StepKeepsOneFlusher(s: State, a: Action)
    requires OneFlusher(s) && Step(s, a).Some?
    ensures OneFlusher(Step(s, a).value)
  {
    StepKeepsRoles(s, a);
  }

  /** At most one thread is between its look at the counter and its return or its sleep. */
  lemma FlushersExclude(workers: nat, externals: nat, acts: seq<Action>, s: State)
    requires Exec(Step, Init(workers, externals), acts) == Some(s)
    ensures OneFlusher(s)
  {
    forall s, a | OneFlusher(s) && Step(s, a).Some? ensures OneFlusher(Step(s, a).value) {
      StepKeepsOneFlusher(s, a);
    }
    assert OneFlusher(Init(workers, externals));
    assert Preserves(Step, s => OneFlusher(s));
    InvariantOfRuns(Step, s => OneFlusher(s), Init(workers, externals), acts);
  }

  /** Thread `t` runs task `x`, and the task has called `flush` on its own pool. */
  predicate FlushesItself(s: State, t: nat, x: nat) {
    t < |s.threads| && s.threads[t].job == Running(x) && !s.threads[t].flush.NoFlush?
  }

  lemma StepKeepsFlushing(s: State, a: Action, t: nat, x: nat)
    requires ThreadsOk(s) && s.inFlight > 0 && FlushesItself(s, t, x) && Step(s, a).Some?
    ensures FlushesItself(Step(s, a).value, t, x)
  {
    assert ThreadOk(s, t);
    StepKeepsRoles(s, a);
  }

  lemma RunningIsCounted(s: State, t: nat)
    requires Inv(s) && t < |s.threads| && s.threads[t].job.Running?
    ensures s.inFlight > 0
  {
    SumAtLeast(Holding, s.threads, t);
  }

  /** A task that calls `flush` on its own pool never returns from it: the counter counts it. */
  lemma {:induction false} TaskFlushNeverReturns(s0: State, acts: seq<Action>, s: State, t: nat, x: nat)
    requires Inv(s0) && FlushesItself(s0, t, x) && Exec(Step, s0, acts) == Some(s)
    ensures Inv(s) && FlushesItself(s, t, x) && s.inFlight > 0
    decreases |acts|
  {
    if acts != [] {
      var m := Exec(Step, s0, acts[..|acts| - 1]).value;
      TaskFlushNeverReturns(s0, acts[..|acts| - 1], m, t, x);
      StepKeepsInv(m, acts[|acts| - 1]);
      StepKeepsFlushing(m, acts[|acts| - 1], t, x);
    }
    RunningIsCounted(s, t);
  }

  // ---------------------------------------------------------------- drain on stop

  lemma StepStops(s: State, a: Action)
    requires Step(s, a).Some?
    ensures var s' := Step(s, a).value;
      && (s'.q.stopped <==> s.q.stopped || a.Stop?)
      && (s'.late <==> s.late || (a.Push? && s.threads[a.t].job.External? && s.q.stopped))
  {
  }

  ghost predicate HasStop(acts: seq<Action>) { exists i :: 0 <= i < |acts| && acts[i].Stop? }

  /** A thread outside the pool pushes after a stop. */
  ghost predicate PushesLate(workers: nat, acts: seq<Action>) {
    exists i, j :: 0 <= i < j < |acts| && acts[i].Stop? && acts[j].Push? && acts[j].t >= workers
  }

  lemma LateSnoc(workers: nat, acts: seq<Action>)
    requires acts != []
    ensures var front, a := acts[..|acts| - 1], acts[|acts| - 1];
      && (HasStop(acts) <==> HasStop(front) || a.Stop?)
      && (PushesLate(workers, acts) <==>
        PushesLate(workers, front) || (a.Push? && a.t >= workers && HasStop(front)))
  {
    var front, a := acts[..|acts| - 1], acts[|acts| - 1];
    assert forall i :: 0 <= i < |front| ==> front[i] == acts[i];
    if a.Push? && a.t >= workers && HasStop(front) {
      var i :| 0 <= i < |front| && front[i].Stop?;
      assert acts[i].Stop? && acts[|acts| - 1].Push?;
    }
  }

  /** The queue is stopped exactly when some thread has called for it, and `late` is up exactly
      when a thread outside the pool has pushed after that. */
  lemma {:induction false} StoppedExactly(workers: nat, externals: nat, acts: seq<Action>, s: State)
    requires Exec(Step, Init(workers, externals), acts) == Some(s)
    ensures s.q.stopped <==> exists i :: 0 <= i < |acts| && acts[i].Stop?
    ensures s.late <==> PushesLate(workers, acts)
    decreases |acts|
  {
    if acts != [] {
      var front, a := acts[..|acts| - 1], acts[|acts| - 1];
      var m := Exec(Step, Init(workers, externals), front).value;
      StoppedExactly(workers, externals, front, m);
      WorkersStayWorkers(workers, externals, front, m);
      StepStops(m, a);
      LateSnoc(workers, acts);
      assert HasStop(acts) <==> s.q.stopped;
    }
  }

  /** Once every worker has left its loop, and no thread outside the pool has pushed after the
      stop, every task pushed has been popped in push order and executed exactly once. */
  lemma DrainOnStop(workers: nat, externals: nat, acts: seq<Action>, s: State)
    requires workers > 0 && Exec(Step, Init(workers, externals), acts) == Some(s)
    requires !PushesLate(workers, acts)
    requires forall t :: 0 <= t < |s.threads| ==> s.threads[t].job.External? || s.threads[t].job.Exited?
    ensures exists i :: 0 <= i < |acts| && acts[i].Stop?
    ensures s.q.stopped && s.q.container == [] && s.q.popped == s.q.pushed
    ensures multiset(s.finished) == multiset(s.q.pushed) <= Below(|s.parents|)
  {
    InitOk(workers, externals);
    RunKeepsInv(Init(workers, externals), acts, s);
    WorkersStayWorkers(workers, externals, acts, s);
    StoppedExactly(workers, externals, acts, s);
    AllLeft(s, 0);
  }

  lemma AllLeft(s: State, w: nat)
    requires Inv(s) && !s.late && IsWorker(s, w)
    requires forall t :: 0 <= t < |s.threads| ==> s.threads[t].job.External? || s.threads[t].job.Exited?
    ensures s.q.stopped && s.q.container == [] && s.q.popped == s.q.pushed
    ensures multiset(s.finished) == multiset(s.q.pushed) <= Below(|s.parents|)
  {
    assert ThreadOk(s, w);
    assert !exists t :: LiveWorker(s, t);
    assert [] + s.q.pushed == s.q.pushed && s.q.popped + s.q.container == s.q.popped;
    GatherEmpty(RunningIds, s.threads);
  }

  ghost predicate SameRoles(s0: State, s: State) {
    |s.threads| == |s0.threads|
    && forall t :: 0 <= t < |s.threads| ==> s.threads[t].job.External? == s0.threads[t].job.External?
  }

  lemma StepKeepsRoles(s: State, a: Action)
    requires Step(s, a).Some?
    ensures SameRoles(s, Step(s, a).value)
  {
    var s' := Step(s, a).value;
    if a.AlertFlush? {
      var threads := SetJob(s, a.t, Ready).threads;
      assert s'.threads == WakeFlushers(threads);
    } else {
      StepMovesOneThread(s, a);
    }
  }

  lemma WorkersStayWorkers(workers: nat, externals: nat, acts: seq<Action>, s: State)
    requires Exec(Step, Init(workers, externals), acts) == Some(s)
    ensures SameRoles(Init(workers, externals), s)
  {
    var s0 := Init(workers, externals);
    forall s, a | SameRoles(s0, s) && Step(s, a).Some? ensures SameRoles(s0, Step(s, a).value) {
      StepKeepsRoles(s, a);
    }
    assert Preserves(Step, s => SameRoles(s0, s));
    InvariantOfRuns(Step, s => SameRoles(s0, s), s0, acts);
  }

  // ---------------------------------------------------------------- the wakeup that flush can miss

  /** One worker and one other thread, one task, and nothing else going on. */
  function Scene(pc: Queue.Pc, popped: seq<nat>, job: Job, flush: Flush, inFlight: int, finished: seq<nat>): State {
    State(Queue.State([], false, [pc, Queue.Out], [0], popped),
          [Thread(job, None, NoFlush), Thread(External, None, flush)], inFlight, [None], finished, false)
  }

  lemma TaskIsQueued() returns (acts: seq<Action>, s: State)
    ensures Exec(Step, Init(1, 1), acts) == Some(s)
    ensures s == Init(1, 1).(q := Queue.State([0], false, [Queue.Out, Queue.Pushed], [0], []),
                             inFlight := 1, parents := [None])
  {
    var s0 := Init(1, 1);
    var s1 := Step(s0, Increment(1)).value;
    ExecNext(Step, s0, [], s0, Increment(1));
    ExecNext(Step, s0, [] + [Increment(1)], s1, Push(1));
    acts := [] + [Increment(1)] + [Push(1)];
    s := Step(s1, Push(1)).value;
    assert s.threads == s0.threads && s.q.pcs == [Queue.Out, Queue.Pushed];
    assert [] + [0] == [0];
  }

  lemma TaskIsTaken() returns (acts: seq<Action>)
    ensures Exec(Step, Init(1, 1), acts) == Some(Scene(Queue.Out, [0], Running(0), NoFlush, 1, []))
  {
    var s: State;
    acts, s := TaskIsQueued();
    ExecNext(Step, Init(1, 1), acts, s, NotifyOne(1, None));
    var s' := Step(s, NotifyOne(1, None)).value;
    assert s'.q.pcs == [Queue.Out, Queue.Out];
    acts := acts + [NotifyOne(1, None)];
    assert [] + [0] == [0];
    acts := Then(acts, s', PopWait(0), Scene(Queue.Out, [0], Running(0), NoFlush, 1, []));
  }

  /** Extend a run by one step of the scene. */
  lemma Then(acts: seq<Action>, s: State, a: Action, s': State) returns (more: seq<Action>)
    requires Exec(Step, Init(1, 1), acts) == Some(s)
    requires Step(s, a).Some? && Step(s, a).value.threads == s'.threads && Step(s, a).value.q.pcs == s'.q.pcs
    requires Step(s, a).value.(threads := s'.threads, q := Step(s, a).value.q.(pcs := s'.q.pcs)) == s'
    ensures Exec(Step, Init(1, 1), more) == Some(s')
  {
    more := acts + [a];
    ExecNext(Step, Init(1, 1), acts, s, a);
  }

  lemma FlusherLooks(before: seq<Action>) returns (acts: seq<Action>)
    requires Exec(Step, Init(1, 1), before) == Some(Scene(Queue.Out, [0], Running(0), NoFlush, 1, []))
    ensures Exec(Step, Init(1, 1), acts) == Some(Scene(Queue.Out, [0], Running(0), Blocking, 1, []))
  {
    var s1 := Scene(Queue.Out, [0], Running(0), NoFlush, 1, []);
    var s2 := Scene(Queue.Out, [0], Running(0), Entered, 1, []);
    acts := Then(before, s1, FlushCall(1), s2);
    acts := FlusherLooksTwice(acts);
  }

  lemma FlusherLooksTwice(before: seq<Action>) returns (acts: seq<Action>)
    requires Exec(Step, Init(1, 1), before) == Some(Scene(Queue.Out, [0], Running(0), Entered, 1, []))
    ensures Exec(Step, Init(1, 1), acts) == Some(Scene(Queue.Out, [0], Running(0), Blocking, 1, []))
  {
    var s1 := Scene(Queue.Out, [0], Running(0), Entered, 1, []);
    var s2 := Scene(Queue.Out, [0], Running(0), Looked, 1, []);
    acts := Then(before, s1, FlushCheck(1), s2);
    acts := Then(acts, s2, FlushCheck(1), Scene(Queue.Out, [0], Running(0), Blocking, 1, []));
  }

  lemma WorkerFinishes(before: seq<Action>) returns (acts: seq<Action>)
    requires Exec(Step, Init(1, 1), before) == Some(Scene(Queue.Out, [0], Running(0), Blocking, 1, []))
    ensures Exec(Step, Init(1, 1), acts) == Some(Scene(Queue.Out, [0], Ready, Blocking, 0, [0]))
  {
    var s1 := Scene(Queue.Out, [0], Running(0), Blocking, 1, []);
    var s2 := Scene(Queue.Out, [0], Done(0), Blocking, 1, [0]);
    var s3 := Scene(Queue.Out, [0], Alert, Blocking, 0, [0]);
    assert [] + [0] == [0];
    acts := Then(before, s1, Finish(0, false), s2);
    acts := Then(acts, s2, Decrement(0), s3);
    acts := WorkerAlerts(acts);
  }

  lemma WorkerAlerts(before: seq<Action>) returns (acts: seq<Action>)
    requires Exec(Step, Init(1, 1), before) == Some(Scene(Queue.Out, [0], Alert, Blocking, 0, [0]))
    ensures Exec(Step, Init(1, 1), acts) == Some(Scene(Queue.Out, [0], Ready, Blocking, 0, [0]))
  {
    var s1, s2 := Scene(Queue.Out, [0], Alert, Blocking, 0, [0]), Scene(Queue.Out, [0], Ready, Blocking, 0, [0]);
    acts := Then(before, s1, AlertFlush(0), s2);
  }

  /** Nothing is in flight or pending, the worker waits for tasks, and the flusher sleeps. */
  lemma OnlySpuriousSteps(a: Action)
    requires Step(Scene(Queue.Asleep(false), [0], Ready, Flush.Asleep, 0, [0]), a).Some?
    ensures a.Wake? || a.FlushWake?
  {
    assert a.t == 0 || a.t == 1;
  }

  predicate Reaches(workers: nat, externals: nat, acts: seq<Action>, s: State) {
    Exec(Step, Init(workers, externals), acts) == Some(s)
  }

  /** Thread `t` sleeps in `flush` although all is done, and only spurious wakeups can happen. */
  ghost predicate Stranded(s: State, t: nat) {
    && t < |s.threads| && s.threads[t].flush.Asleep?
    && s.inFlight == 0 && multiset(s.finished) == Below(|s.parents|)
    && forall a :: Step(s, a).Some? ==> a.Wake? || a.FlushWake?
  }

  /** The worker notifies without the flush mutex, so its notify can fall between a flusher's
      look at the counter and its going to sleep.  There is a run after which nothing is in
      flight or pending, the worker waits for tasks and the flusher sleeps, and the only steps
      left are spurious wakeups. */
  lemma FlushCanMissItsWakeup()
    ensures exists acts, s :: Reaches(1, 1, acts, s) && Stranded(s, 1)
  {
    var acts := TaskIsTaken();
    acts := FlusherLooks(acts);
    acts := WorkerFinishes(acts);
    var s: State;
    acts, s := FlusherSleeps(acts);
    forall a | Step(s, a).Some? ensures a.Wake? || a.FlushWake? {
      OnlySpuriousSteps(a);
    }
    assert Reaches(1, 1, acts, s) && Stranded(s, 1);
  }

  lemma FlusherSleeps(before: seq<Action>) returns (acts: seq<Action>, s: State)
    requires Exec(Step, Init(1, 1), before) == Some(Scene(Queue.Out, [0], Ready, Blocking, 0, [0]))
    ensures s == Scene(Queue.Asleep(false), [0], Ready, Flush.Asleep, 0, [0])
    ensures Exec(Step, Init(1, 1), acts) == Some(s)
  {
    var s1, s2 := Scene(Queue.Out, [0], Ready, Blocking, 0, [0]), Scene(Queue.Out, [0], Ready, Flush.Asleep, 0, [0]);
    acts := Then(before, s1, FlushBlock(1), s2);
    acts, s := WorkerSleeps(acts);
  }

  lemma WorkerSleeps(before: seq<Action>) returns (acts: seq<Action>, s: State)
    requires Exec(Step, Init(1, 1), before) == Some(Scene(Queue.Out, [0], Ready, Flush.Asleep, 0, [0]))
    ensures s == Scene(Queue.Asleep(false), [0], Ready, Flush.Asleep, 0, [0])
    ensures Exec(Step, Init(1, 1), acts) == Some(s)
  {
    s := Scene(Queue.Asleep(false), [0], Ready, Flush.Asleep, 0, [0]);
    acts := Then(before, Scene(Queue.Out, [0], Ready, Flush.Asleep, 0, [0]), PopWait(0), s);
  }

  // ---------------------------------------------------------------- the class

  /** The pool object; each method is one atomic section of a member function. */
  class Pool {
    const tasks: Queue.Monitor<nat>
    var threads: seq<Thread>
    var inFlight: int
    var parents: seq<Option<nat>>
    ghost var finished: seq<nat>
    ghost var late: bool

    ghost function View(): State
      reads this, tasks
    {
      State(tasks.View(), threads, inFlight, parents, finished, late)
    }

    ghost predicate Valid()
      reads this, tasks
    {
      |threads| == |tasks.pcs|
    }

    constructor (workers: nat, externals: nat)
      ensures fresh(tasks) && Valid() && View() == Init(workers, externals)
      ensures |threads| == workers + externals && inFlight == 0 && parents == [] && finished == [] && !late
      ensures tasks.container == [] && !tasks.stopped
      ensures forall t :: 0 <= t < |threads| ==> tasks.pcs[t].Out?
      ensures forall t :: 0 <= t < |threads| ==> threads[t] == Thread(if t < workers then Ready else External, None, NoFlush)
    {
      tasks := new Queue.Monitor<nat>([], workers + externals);
      threads := seq(workers, _ => Thread(Ready, None, NoFlush)) + seq(externals, _ => Thread(External, None, NoFlush));
      inFlight, parents, finished, late := 0, [], [], false;
    }

    /** The first half of `enqueue`. */
    method Increment(t: nat) returns (id: nat)
      requires Valid() && t < |threads| && tasks.pcs[t].Out? && threads[t].enq.None? && threads[t].flush.NoFlush?
      requires threads[t].job.External? || threads[t].job.Running?
      modifies this`inFlight, this`threads, this`parents
      ensures Step(old(View()), Action.Increment(t)) == Some(View())
      ensures id == |old(parents)| && inFlight == old(inFlight) + 1
      ensures threads == old(threads)[t := old(threads)[t].(enq := Some(id))]
      ensures parents == old(parents) + [if threads[t].job.Running? then Some(threads[t].job.task) else None]
    {
      var th := threads[t];
      id := |parents|;
      inFlight := inFlight + 1;
      threads := threads[t := th.(enq := Some(id))];
      parents := parents + [if th.job.Running? then Some(th.job.task) else None];
    }

    /** The second half of `enqueue`, up to the notify. */
    method Push(t: nat)
      requires Valid() && t < |threads| && threads[t].enq.Some? && tasks.pcs[t].Out?
      modifies this`threads, this`late, tasks`container, tasks`pcs, tasks`pushed
      ensures Step(old(View()), Action.Push(t)) == Some(View())
      ensures tasks.container == old(tasks.container) + [old(threads)[t].enq.value]
      ensures tasks.pcs == old(tasks.pcs)[t := Queue.Pushed]
      ensures threads == old(threads)[t := old(threads)[t].(enq := None)]
      ensures late <==> old(late) || (threads[t].job.External? && tasks.stopped)
    {
      var th := threads[t];
      late := late || (th.job.External? && tasks.stopped);
      tasks.Push(t, th.enq.value);
      threads := threads[t := th.(enq := None)];
    }

    /** The notify of `enqueue`. */
    method NotifyOne(t: nat) returns (woken: Option<nat>)
      requires Valid() && t < |threads| && tasks.pcs[t].Pushed?
      modifies tasks`pcs
      ensures Step(old(View()), Action.NotifyOne(t, woken)) == Some(View())
      ensures woken.None? ==> forall i :: 0 <= i < |tasks.pcs| ==> !old(tasks.pcs)[i].Asleep?
      ensures woken.None? ==> tasks.pcs == old(tasks.pcs)[t := Queue.Out]
      ensures woken.Some? ==> woken.value < |tasks.pcs| && old(tasks.pcs)[woken.value].Asleep?
      ensures woken.Some? ==>
        tasks.pcs == old(tasks.pcs)[t := Queue.Out][woken.value := Queue.Awake(old(tasks.pcs)[woken.value].timed)]
    {
      woken := tasks.NotifyOne(t);
    }

    /** The head of the worker loop: take a task, leave the loop, or sleep. */
    method PopWait(t: nat)
      requires Valid() && t < |threads| && threads[t].job.Ready? && tasks.pcs[t].Out?
      modifies this`threads, tasks`container, tasks`pcs, tasks`popped
      ensures Step(old(View()), Action.PopWait(t)) == Some(View())
      ensures tasks.container == if old(tasks.container) == [] then [] else old(tasks.container)[1..]
      ensures var stays := old(tasks.container) == [] && !tasks.stopped;
        && tasks.pcs == old(tasks.pcs)[t := if stays then Queue.Asleep(false) else Queue.Out]
        && threads == old(threads)[t := old(threads)[t].(job :=
          if old(tasks.container) != [] then Running(old(tasks.container)[0]) else if stays then Ready else Exited)]
    {
      var o := tasks.PopWait(t, false);
      threads := threads[t := threads[t].(job := JobAfter(o))];
    }

    method Recheck(t: nat)
      requires Valid() && t < |threads| && threads[t].job.Ready? && tasks.pcs[t] == Queue.Awake(false)
      modifies this`threads, tasks`container, tasks`pcs, tasks`popped
      ensures Step(old(View()), Action.Recheck(t)) == Some(View())
      ensures tasks.container == if old(tasks.container) == [] then [] else old(tasks.container)[1..]
      ensures var stays := old(tasks.container) == [] && !tasks.stopped;
        && tasks.pcs == old(tasks.pcs)[t := if stays then Queue.Asleep(false) else Queue.Out]
        && threads == old(threads)[t := old(threads)[t].(job :=
          if old(tasks.container) != [] then Running(old(tasks.container)[0]) else if stays then Ready else Exited)]
    {
      var o := tasks.Recheck(t, false);
      threads := threads[t := threads[t].(job := JobAfter(o))];
    }

    /** A spurious wakeup of a worker. */
    method Wake(t: nat)
      requires Valid() && t < |threads| && tasks.pcs[t].Asleep?
      modifies tasks`pcs
      ensures Step(old(View()), Action.Wake(t)) == Some(View())
      ensures tasks.pcs == old(tasks.pcs)[t := Queue.Awake(old(tasks.pcs)[t].timed)]
    {
      tasks.Wake(t);
    }

    /** The task returns, or throws and is handled. */
    method Finish(t: nat, threw: bool)
      requires Valid() && t < |threads| && threads[t].job.Running?
      requires tasks.pcs[t].Out? && threads[t].enq.None? && threads[t].flush.NoFlush?
      modifies this`threads, this`finished
      ensures Step(old(View()), Action.Finish(t, threw)) == Some(View())
      ensures finished == old(finished) + [old(threads)[t].job.task]
      ensures threads == old(threads)[t := old(threads)[t].(job := Done(old(threads)[t].job.task))]
    {
      var x := threads[t].job.task;
      finished := finished + [x];
      threads := threads[t := threads[t].(job := Done(x))];
    }

    method Decrement(t: nat)
      requires Valid() && t < |threads| && threads[t].job.Done?
      modifies this`threads, this`inFlight
      ensures Step(old(View()), Action.Decrement(t)) == Some(View())
      ensures inFlight == old(inFlight) - 1
      ensures threads == old(threads)[t := old(threads)[t].(job := if inFlight == 0 then Alert else Ready)]
    {
      inFlight := inFlight - 1;
      threads := threads[t := threads[t].(job := if inFlight == 0 then Alert else Ready)];
    }

    method AlertFlush(t: nat)
      requires Valid() && t < |threads| && threads[t].job.Alert?
      modifies this`threads
      ensures Step(old(View()), Action.AlertFlush(t)) == Some(View())
      ensures |threads| == |old(threads)|
      ensures forall i :: 0 <= i < |threads| ==> threads[i] == old(threads)[i].(
        job := if i == t then Ready else old(threads)[i].job,
        flush := if old(threads)[i].flush.Asleep? then Waiting else old(threads)[i].flush)
    {
      threads := WakeFlushers(threads[t := threads[t].(job := Ready)]);
    }

    method FlushCall(t: nat)
      requires Valid() && t < |threads| && tasks.pcs[t].Out? && threads[t].enq.None? && threads[t].flush.NoFlush?
      requires threads[t].job.External? || threads[t].job.Running?
      modifies this`threads
      ensures Step(old(View()), Action.FlushCall(t)) == Some(View())
      ensures threads == old(threads)[t := old(threads)[t].(flush := Entered)]
    {
      threads := threads[t := threads[t].(flush := Entered)];
    }

    /** One look at the counter inside `flush`; `left` tells whether `flush` returns. */
    method FlushCheck(t: nat) returns (left: bool)
      requires Valid() && t < |threads|
      requires threads[t].flush.Looked? || threads[t].flush.Entered? || threads[t].flush.Waiting?
      requires threads[t].flush.Looked?
        || forall u :: 0 <= u < |threads| ==> !threads[u].flush.Looked? && !threads[u].flush.Blocking?
      modifies this`threads
      ensures Step(old(View()), Action.FlushCheck(t)) == Some(View())
      ensures left <==> inFlight == 0
      ensures threads == old(threads)[t := old(threads)[t].(flush :=
        if left then NoFlush else if old(threads)[t].flush.Entered? then Looked else Blocking)]
    {
      left := inFlight == 0;
      var f := if left then NoFlush else if threads[t].flush.Entered? then Looked else Blocking;
      threads := threads[t := threads[t].(flush := f)];
    }

    method FlushBlock(t: nat)
      requires Valid() && t < |threads| && threads[t].flush.Blocking?
      modifies this`threads
      ensures Step(old(View()), Action.FlushBlock(t)) == Some(View())
      ensures threads == old(threads)[t := old(threads)[t].(flush := Flush.Asleep)]
    {
      threads := threads[t := threads[t].(flush := Asleep)];
    }

    method FlushWake(t: nat)
      requires Valid() && t < |threads| && threads[t].flush.Asleep?
      modifies this`threads
      ensures Step(old(View()), Action.FlushWake(t)) == Some(View())
      ensures threads == old(threads)[t := old(threads)[t].(flush := Waiting)]
    {
      threads := threads[t := threads[t].(flush := Waiting)];
    }

    /** The stop of the destructor, up to the notify. */
    method Stop(t: nat)
      requires Valid() && t < |threads| && threads[t].job.External?
      requires tasks.pcs[t].Out? && threads[t].enq.None? && threads[t].flush.NoFlush?
      modifies tasks`stopped, tasks`pcs
      ensures Step(old(View()), Action.Stop(t)) == Some(View())
      ensures tasks.stopped && tasks.pcs == old(tasks.pcs)[t := Queue.Stopping]
    {
      tasks.Stop(t);
    }

    /** The notify of the stop. */
    method NotifyAll(t: nat)
      requires Valid() && t < |threads| && tasks.pcs[t].Stopping?
      modifies tasks`pcs
      ensures Step(old(View()), Action.NotifyAll(t)) == Some(View())
      ensures |tasks.pcs| == |old(tasks.pcs)| && tasks.pcs[t].Out?
      ensures forall i :: 0 <= i < |tasks.pcs| && i != t ==>
        tasks.pcs[i] == if old(tasks.pcs)[i].Asleep? then Queue.Awake(old(tasks.pcs)[i].timed) else old(tasks.pcs)[i]
    {
      tasks.NotifyAll(t);
    }
  }
}
