/** Progress of the task pool.  The steps that close what has been begun (enqueues, tasks,
    notifies) lower a measure, and some closing step is enabled while a task is in flight or a
    stop has been called.  From this follow when `flush` can miss its wakeup, when it cannot,
    and that the workers leave after a stop. */
module PoolProgress {
  import opened Runs
  import opened Sums
  import opened TaskPool
  import Queue

  // ---------------------------------------------------------------- the measure

  /** What is left to do for the task that a thread is at, and for its enqueue. */
  function JobWeight(th: Thread): nat {
    (match th.job
     case Running(_) => 4
     case Done(_) => 3
     case Alert => 2
     case Ready => 1
     case _ => 0) + if th.enq.Some? then 7 else 0
  }

  /** A stop may wake all of the `n` threads. */
  function PcWeight(n: nat): Queue.Pc -> nat {
    (pc: Queue.Pc) =>
      if pc.Pushed? then 3 else if pc.Stopping? then n + 2 else if pc.Asleep? then 0 else 1
  }

  function Work(s: State): nat {
    Sum(JobWeight, s.threads) + Sum(PcWeight(|s.threads|), s.q.pcs) + 4 * |s.q.container|
  }

  /** Steps that end something that has been begun. */
  predicate Closing(a: Action) {
    a.Push? || a.NotifyOne? || a.PopWait? || a.Recheck? || a.Finish? || a.Decrement? || a.AlertFlush? || a.NotifyAll?
  }

  /** What a step that is not closing may add to the work of `n` threads. */
  function Raise(n: nat, a: Action): nat {
    if a.Increment? then 7 else if a.Wake? then 1 else if a.Stop? then n + 1 else 0
  }

  lemma OneThreadMoves(s: State, s': State, t: nat)
    requires Moves(s, s', t) && t < |s.q.pcs| == |s'.q.pcs| && s'.q.pcs == s.q.pcs[t := s'.q.pcs[t]]
    ensures var w := PcWeight(|s.threads|);
      Work(s') - Work(s) == JobWeight(s'.threads[t]) - JobWeight(s.threads[t])
         + w(s'.q.pcs[t]) - w(s.q.pcs[t]) + 4 * (|s'.q.container| - |s.q.container|)
  {
    SumUpdate(JobWeight, s.threads, t, s'.threads[t]);
    SumUpdate(PcWeight(|s.threads|), s.q.pcs, t, s'.q.pcs[t]);
  }

  lemma AttemptDropsWork(s: State, t: nat)
    requires t < |s.threads| == |s.q.pcs| && s.threads[t].job.Ready?
    requires s.q.pcs[t].Out? || s.q.pcs[t].Awake?
    ensures Work(Attempt(s, t)) < Work(s)
  {
    OneThreadMoves(s, Attempt(s, t), t);
  }

  lemma NotifyOneDropsWork(s: State, t: nat, woken: Option<nat>)
    requires Step(s, NotifyOne(t, woken)).Some?
    ensures Work(Step(s, NotifyOne(t, woken)).value) < Work(s)
  {
    var w := PcWeight(|s.threads|);
    SumUpdate(w, s.q.pcs, t, Queue.Out);
    if woken.Some? {
      var i := woken.value;
      SumUpdate(w, s.q.pcs[t := Queue.Out], i, Queue.Awake(s.q.pcs[i].timed));
    }
  }

  lemma {:induction false} WakeAllAddsOneEach(n: nat, pcs: seq<Queue.Pc>)
    ensures Sum(PcWeight(n), Queue.WakeAll(pcs)) <= Sum(PcWeight(n), pcs) + |pcs|
    decreases |pcs|
  {
    if pcs != [] {
      WakeAllAddsOneEach(n, pcs[..|pcs| - 1]);
      assert Queue.WakeAll(pcs)[..|pcs| - 1] == Queue.WakeAll(pcs[..|pcs| - 1]);
    }
  }

  lemma NotifyAllDropsWork(s: State, t: nat)
    requires Step(s, NotifyAll(t)).Some?
    ensures Work(Step(s, NotifyAll(t)).value) < Work(s)
  {
    SumUpdate(PcWeight(|s.threads|), s.q.pcs, t, Queue.Out);
    WakeAllAddsOneEach(|s.threads|, s.q.pcs[t := Queue.Out]);
  }

  lemma AlertDropsWork(s: State, t: nat)
    requires Step(s, AlertFlush(t)).Some?
    ensures Work(Step(s, AlertFlush(t)).value) < Work(s)
  {
    var threads := SetJob(s, t, Ready).threads;
    SumUpdate(JobWeight, s.threads, t, threads[t]);
    SumPointwise(JobWeight, WakeFlushers(threads), threads);
  }

  lemma FlushStepKeepsWork(s: State, t: nat, flush: Flush)
    requires t < |s.threads|
    ensures Work(SetFlush(s, t, flush)) == Work(s)
  {
    SumUpdate(JobWeight, s.threads, t, s.threads[t].(flush := flush));
  }

  lemma EnqueueChangesWork(s: State, a: Action)
    requires Step(s, a).Some? && (a.Increment? || a.Push?)
    ensures var s' := Step(s, a).value;
      if a.Push? then Work(s') < Work(s) else Work(s') == Work(s) + 7
  {
    OneThreadMoves(s, Step(s, a).value, a.t);
  }

  lemma TaskStepDropsWork(s: State, a: Action)
    requires ThreadsOk(s) && Step(s, a).Some? && (a.Finish? || a.Decrement?)
    ensures Work(Step(s, a).value) < Work(s)
  {
    OneThreadMoves(s, Step(s, a).value, a.t);
  }

  lemma WakeOrStopRaisesWork(s: State, a: Action)
    requires ThreadsOk(s) && Step(s, a).Some? && (a.Wake? || a.Stop?)
    ensures Work(Step(s, a).value) == Work(s) + Raise(|s.threads|, a)
  {
    OneThreadMoves(s, Step(s, a).value, a.t);
  }

  /** A closing step lowers the work; any other step adds exactly what it is charged. */
  lemma StepChangesWork(s: State, a: Action)
    requires ThreadsOk(s) && Step(s, a).Some?
    ensures var s' := Step(s, a).value;
      if Closing(a) then Work(s') < Work(s) else Work(s') == Work(s) + Raise(|s.threads|, a)
  {
    match a
    case Increment(_) => EnqueueChangesWork(s, a);
    case Push(_) => EnqueueChangesWork(s, a);
    case NotifyOne(t, woken) => NotifyOneDropsWork(s, t, woken);
    case PopWait(t) => AttemptDropsWork(s, t);
    case Recheck(t) => AttemptDropsWork(s, t);
    case Finish(_, _) => TaskStepDropsWork(s, a);
    case Decrement(_) => TaskStepDropsWork(s, a);
    case AlertFlush(t) => AlertDropsWork(s, t);
    case FlushCall(t) => FlushStepKeepsWork(s, t, Entered);
    case FlushCheck(t) => FlushStepKeepsWork(s, t, Step(s, a).value.threads[t].flush);
    case FlushBlock(t) => FlushStepKeepsWork(s, t, Flush.Asleep);
    case FlushWake(t) => FlushStepKeepsWork(s, t, Waiting);
    case NotifyAll(t) => NotifyAllDropsWork(s, t);
    case _ => WakeOrStopRaisesWork(s, a);
  }

  function ClosingSteps(acts: seq<Action>): nat {
    if acts == [] then 0
    else ClosingSteps(acts[..|acts| - 1]) + if Closing(acts[|acts| - 1]) then 1 else 0
  }

  function Raises(n: nat, acts: seq<Action>): nat {
    if acts == [] then 0 else Raises(n, acts[..|acts| - 1]) + Raise(n, acts[|acts| - 1])
  }

  /** Over any run, whatever the tasks enqueue and however often they throw: the number of
      closing steps is bounded by the work at hand, 7 for each task enqueued on the way, one
      for each spurious wakeup and one for each thread and one more for each stop. */
  lemma {:induction false} WorkBoundsRuns(s0: State, acts: seq<Action>, s: State)
    requires Inv(s0) && Exec(Step, s0, acts) == Some(s)
    ensures Inv(s) && |s.threads| == |s0.threads|
    ensures ClosingSteps(acts) + Work(s) <= Work(s0) + Raises(|s0.threads|, acts)
    decreases |acts|
  {
    if acts != [] {
      var m := Exec(Step, s0, acts[..|acts| - 1]).value;
      WorkBoundsRuns(s0, acts[..|acts| - 1], m);
      StepKeepsInv(m, acts[|acts| - 1]);
      StepKeepsRoles(m, acts[|acts| - 1]);
      StepChangesWork(m, acts[|acts| - 1]);
    }
  }

  // ---------------------------------------------------------------- some closing step is enabled

  /** `a` is a closing step that is enabled. */
  predicate Closes(s: State, a: Action) { Closing(a) && Step(s, a).Some? }

  /** A closing step after which every live worker is still in its loop. */
  predicate Drains(s: State, a: Action) {
    Closes(s, a) && (a.PopWait? || a.Recheck? ==> s.q.container != [])
  }

  lemma NotifierDrains(s: State, t: nat)
    requires ThreadsOk(s) && t < |s.threads| && s.q.pcs[t].Pushed?
    ensures exists a :: Drains(s, a)
  {
    if i: nat :| i < |s.q.pcs| && s.q.pcs[i].Asleep? {
      assert Drains(s, NotifyOne(t, Some(i)));
    } else {
      assert Queue.Step(s.q, Queue.Action.NotifyOne(t, None)).Some?;
      assert Drains(s, NotifyOne(t, None));
    }
  }

  /** No task has called `flush` on its own pool. */
  ghost predicate NoTaskFlushes(s: State) { forall t, x :: !FlushesItself(s, t, x) }

  /** A worker with a task, or about to alert, can go on. */
  lemma HolderDrains(s: State, t: nat)
    requires ThreadsOk(s) && NoTaskFlushes(s) && t < |s.threads|
    requires var job := s.threads[t].job; job.Running? || job.Done? || job.Alert?
    ensures exists a :: Drains(s, a)
  {
    assert ThreadOk(s, t);
    if s.threads[t].enq.Some? {
      assert Drains(s, Push(t));
    } else if s.q.pcs[t].Pushed? {
      NotifierDrains(s, t);
    } else {
      match s.threads[t].job
      case Running(x) => assert !FlushesItself(s, t, x) && Drains(s, Finish(t, false));
      case Done(_) => assert Drains(s, Decrement(t));
      case Alert => assert Drains(s, AlertFlush(t));
    }
  }

  /** While work is queued, a sleeping worker has a pending notify or a woken colleague. */
  lemma SleeperHasHelp(s: State, t: nat)
    requires ThreadsOk(s) && Queue.NoLostWakeup(s.q)
    requires t < |s.threads| && s.q.pcs[t].Asleep? && s.q.container != []
    ensures exists a :: Drains(s, a)
  {
    if Sum(Queue.PushedWeight, s.q.pcs) > 0 {
      var i := SumPositive(Queue.PushedWeight, s.q.pcs);
      NotifierDrains(s, i);
    } else {
      var i := SumPositive(Queue.AwakeWeight, s.q.pcs);
      assert ThreadOk(s, i) && Drains(s, Recheck(i));
    }
  }

  lemma WorkerDrains(s: State, t: nat)
    requires ThreadsOk(s) && NoTaskFlushes(s) && Queue.NoLostWakeup(s.q) && s.q.container != [] && LiveWorker(s, t)
    ensures exists a :: Drains(s, a)
  {
    assert ThreadOk(s, t);
    if !s.threads[t].job.Ready? {
      HolderDrains(s, t);
    } else if s.q.pcs[t].Asleep? {
      SleeperHasHelp(s, t);
    } else if s.q.pcs[t].Awake? {
      assert Drains(s, Recheck(t));
    } else {
      assert Drains(s, PopWait(t));
    }
  }

  /** While a task is in flight or a notify for the flushers is pending, some worker is in its
      loop, and no task waits for itself in `flush`, a closing step is enabled that keeps the
      worker there. */
  lemma ComingDrains(s: State, w: nat)
    requires Inv(s) && NoTaskFlushes(s) && Coming(s) && LiveWorker(s, w)
    ensures exists a :: Drains(s, a)
  {
    if AlertPending(s) {
      var t :| 0 <= t < |s.threads| && s.threads[t].job.Alert?;
      HolderDrains(s, t);
    } else if Sum(Counted, s.threads) > 0 {
      var t := SumPositive(Counted, s.threads);
      assert ThreadOk(s, t) && Drains(s, Push(t));
    } else if Sum(Holding, s.threads) > 0 {
      var t := SumPositive(Holding, s.threads);
      HolderDrains(s, t);
    } else {
      WorkerDrains(s, w);
    }
  }

  lemma ClosingKeepsNoTaskFlushes(s: State, a: Action)
    requires ThreadsOk(s) && NoTaskFlushes(s) && Closes(s, a)
    ensures NoTaskFlushes(Step(s, a).value)
  {
    var s' := Step(s, a).value;
    StepKeepsRoles(s, a);
    assert ThreadOk(s, a.t);
    forall t: nat, x: nat ensures !FlushesItself(s', t, x) {
      assert !FlushesItself(s, t, x);
    }
  }

  lemma DrainStepKeepsLive(s: State, a: Action, w: nat)
    requires ThreadsOk(s) && Drains(s, a) && LiveWorker(s, w)
    ensures LiveWorker(Step(s, a).value, w)
  {
    StepKeepsRoles(s, a);
  }

  // ---------------------------------------------------------------- when flush misses its wakeup

  lemma ClosingKeepsBlocking(s: State, a: Action, t: nat)
    requires Closes(s, a) && t < |s.threads| && s.threads[t].flush.Blocking?
    ensures var s' := Step(s, a).value; t < |s'.threads| && s'.threads[t].flush.Blocking?
  {
    StepKeepsRoles(s, a);
  }

  /** A run of closing steps that ends with the counter at zero and no notify pending, while
      thread `t` is still about to go to sleep. */
  ghost predicate DrainsTo(s: State, t: nat, acts: seq<Action>, s': State) {
    && Exec(Step, s, acts) == Some(s') && ThreadsOk(s') && !Coming(s')
    && (forall a :: a in acts ==> Closing(a))
    && t < |s'.threads| && s'.threads[t].flush.Blocking?
  }

  lemma PrependStep(s: State, a: Action, m: State, acts: seq<Action>)
    requires Step(s, a) == Some(m)
    ensures Exec(Step, s, [a] + acts) == Exec(Step, m, acts)
  {
    assert [a][..0] == [];
    assert Exec(Step, s, [a]) == Some(m);
    ExecJoin(Step, s, [a], acts);
  }

  lemma PrependDrain(s: State, t: nat, a: Action, m: State, acts: seq<Action>, s': State)
    requires Step(s, a) == Some(m) && Closing(a) && DrainsTo(m, t, acts, s')
    ensures DrainsTo(s, t, [a] + acts, s')
  {
    PrependStep(s, a, m, acts);
  }

  /** What the drain keeps. */
  ghost predicate CanDrain(s: State, t: nat, w: nat) {
    && Inv(s) && NoTaskFlushes(s) && LiveWorker(s, w)
    && t < |s.threads| && s.threads[t].flush.Blocking?
  }

  lemma DrainOnce(s: State, t: nat, w: nat, a: Action)
    requires CanDrain(s, t, w) && Drains(s, a)
    ensures CanDrain(Step(s, a).value, t, w) && Work(Step(s, a).value) < Work(s)
  {
    StepKeepsInv(s, a);
    StepChangesWork(s, a);
    DrainStepKeepsLive(s, a, w);
    ClosingKeepsBlocking(s, a, t);
    ClosingKeepsNoTaskFlushes(s, a);
  }

  /** All tasks in flight can be brought to their end while a flusher is about to sleep. */
  lemma {:induction false} Drain(s: State, t: nat, w: nat)
    requires CanDrain(s, t, w)
    ensures exists acts, s' :: DrainsTo(s, t, acts, s')
    decreases Work(s)
  {
    if !Coming(s) {
      assert DrainsTo(s, t, [], s);
    } else {
      ComingDrains(s, w);
      var a :| Drains(s, a);
      DrainOnce(s, t, w, a);
      var m := Step(s, a).value;
      Drain(m, t, w);
      var acts, s' :| DrainsTo(m, t, acts, s');
      PrependDrain(s, t, a, m, acts, s');
    }
  }

  lemma FirstStep(s: State, acts: seq<Action>, s': State)
    requires acts != [] && Exec(Step, s, acts) == Some(s')
    ensures Step(s, acts[0]).Some? && Exec(Step, Step(s, acts[0]).value, acts[1..]) == Some(s')
  {
    var a := acts[0];
    assert [a][..0] == [] && Exec(Step, s, [a]) == Step(s, a);
    assert acts == [a] + acts[1..];
    ExecJoin(Step, s, [a], acts[1..]);
  }

  /** A run in which thread `t` does not call `flush` anew, and that leaves it asleep in
      `flush` with no notify coming. */
  ghost predicate Misses(s: State, t: nat, acts: seq<Action>, s': State) {
    && Exec(Step, s, acts) == Some(s') && FlushCall(t) !in acts
    && t < |s'.threads| && s'.threads[t].flush.Asleep? && !Coming(s')
  }

  /** The same, and the run starts with thread `t`'s look at the counter. */
  ghost predicate Strands(s: State, t: nat, acts: seq<Action>, s': State) {
    acts != [] && acts[0] == FlushCheck(t) && Misses(s, t, acts, s')
  }

  ghost predicate CanStrand(s: State, t: nat) { exists acts, s' :: Strands(s, t, acts, s') }

  lemma SleepsAfterDrain(s: State, t: nat, acts: seq<Action>, m: State)
    requires DrainsTo(s, t, acts, m)
    ensures Misses(s, t, acts + [FlushBlock(t)], SetFlush(m, t, Flush.Asleep))
  {
    var s' := SetFlush(m, t, Flush.Asleep);
    assert Step(m, FlushBlock(t)) == Some(s');
    ExecNext(Step, s, acts, m, FlushBlock(t));
    forall w | 0 <= w < |s'.threads| ensures !s'.threads[w].job.Alert? {
      assert !m.threads[w].job.Alert?;
    }
  }

  /** A flusher that is about to sleep can be stranded. */
  lemma BlockingCanMiss(s: State, t: nat, w: nat)
    requires Inv(s) && NoTaskFlushes(s) && LiveWorker(s, w)
    requires t < |s.threads| && s.threads[t].flush.Blocking?
    ensures exists acts, s' :: Misses(s, t, acts, s')
  {
    Drain(s, t, w);
    var acts, m :| DrainsTo(s, t, acts, m);
    SleepsAfterDrain(s, t, acts, m);
  }

  lemma FlushStepKeepsNoTaskFlushes(s: State, t: nat, flush: Flush)
    requires NoTaskFlushes(s) && t < |s.threads| && !s.threads[t].flush.NoFlush?
    ensures NoTaskFlushes(SetFlush(s, t, flush))
  {
    forall u: nat, x: nat ensures !FlushesItself(SetFlush(s, t, flush), u, x) {
      assert !FlushesItself(s, u, x);
    }
  }

  /** A look that reads a positive counter. */
  lemma LookAgain(s: State, t: nat, w: nat) returns (m: State)
    requires Inv(s) && NoTaskFlushes(s) && LiveWorker(s, w) && s.inFlight != 0
    requires CanLook(s, t)
    ensures Step(s, FlushCheck(t)) == Some(m)
    ensures m == SetFlush(s, t, if s.threads[t].flush.Entered? then Looked else Blocking)
    ensures Inv(m) && NoTaskFlushes(m) && LiveWorker(m, w)
  {
    m := SetFlush(s, t, if s.threads[t].flush.Entered? then Looked else Blocking);
    FlushStepKeepsNoTaskFlushes(s, t, m.threads[t].flush);
    StepKeepsInv(s, FlushCheck(t));
  }

  lemma LooksFirst(s: State, t: nat, m: State, acts: seq<Action>, s': State)
    requires Step(s, FlushCheck(t)) == Some(m) && Misses(m, t, acts, s')
    ensures Strands(s, t, [FlushCheck(t)] + acts, s')
  {
    PrependStep(s, FlushCheck(t), m, acts);
  }

  /** This look is the last before the sleep. */
  lemma LastLookCanMiss(s: State, t: nat, w: nat)
    requires Inv(s) && NoTaskFlushes(s) && LiveWorker(s, w) && s.inFlight != 0
    requires CanLook(s, t) && !s.threads[t].flush.Entered?
    ensures CanStrand(s, t)
  {
    var m := LookAgain(s, t, w);
    BlockingCanMiss(m, t, w);
    var acts, s' :| Misses(m, t, acts, s');
    LooksFirst(s, t, m, acts, s');
  }

  lemma LookerCanMiss(s: State, t: nat, w: nat)
    requires Inv(s) && NoTaskFlushes(s) && LiveWorker(s, w) && s.inFlight != 0
    requires CanLook(s, t)
    ensures CanStrand(s, t)
  {
    if !s.threads[t].flush.Entered? {
      LastLookCanMiss(s, t, w);
    } else {
      var m := LookAgain(s, t, w);
      LastLookCanMiss(m, t, w);
      var acts, s' :| Strands(m, t, acts, s');
      LooksFirst(s, t, m, acts, s');
    }
  }

  lemma StepKeepsOutside(s: State, a: Action, t: nat)
    requires t < |s.threads| && s.threads[t].flush.NoFlush? && Step(s, a).Some? && a != FlushCall(t)
    ensures var s' := Step(s, a).value; t < |s'.threads| && s'.threads[t].flush.NoFlush?
  {
    StepKeepsRoles(s, a);
  }

  /** A thread outside `flush` stays outside until it calls it. */
  lemma {:induction false} OutsideUntilCall(s0: State, acts: seq<Action>, s: State, t: nat)
    requires t < |s0.threads| && s0.threads[t].flush.NoFlush? && FlushCall(t) !in acts
    requires Exec(Step, s0, acts) == Some(s)
    ensures t < |s.threads| && s.threads[t].flush.NoFlush?
    decreases |acts|
  {
    if acts != [] {
      var m := Exec(Step, s0, acts[..|acts| - 1]).value;
      OutsideUntilCall(s0, acts[..|acts| - 1], m, t);
      assert acts[|acts| - 1] in acts;
      StepKeepsOutside(m, acts[|acts| - 1], t);
    }
  }

  /** Tasks are in flight and every worker has left. */
  ghost predicate Abandoned(s: State) {
    ThreadsOk(s) && s.inFlight > 0 && forall w :: 0 <= w < |s.threads| ==> !LiveWorker(s, w)
  }

  lemma StepKeepsAbandoned(s: State, a: Action)
    requires Abandoned(s) && Step(s, a).Some?
    ensures Abandoned(Step(s, a).value)
  {
    StepKeepsThreads(s, a);
    StepKeepsRoles(s, a);
    assert !LiveWorker(s, a.t);
    var s' := Step(s, a).value;
    forall w | 0 <= w < |s.threads| ensures !LiveWorker(s', w) {
      assert !LiveWorker(s, w);
    }
  }

  lemma RunKeepsAbandoned(s0: State, acts: seq<Action>, s: State)
    requires Abandoned(s0) && Exec(Step, s0, acts) == Some(s)
    ensures Abandoned(s)
  {
    forall s, a | Abandoned(s) && Step(s, a).Some? ensures Abandoned(Step(s, a).value) {
      StepKeepsAbandoned(s, a);
    }
    assert Preserves(Step, s => Abandoned(s));
    InvariantOfRuns(Step, s => Abandoned(s), s0, acts);
  }

  lemma ZeroLeaves(s: State, t: nat)
    requires Step(s, FlushCheck(t)).Some? && s.inFlight == 0
    ensures var m := Step(s, FlushCheck(t)).value; t < |m.threads| && m.threads[t].flush.NoFlush?
  {
  }

  /** A look that reads zero leaves `flush`, and a thread outside `flush` is not stranded. */
  lemma StrandedReadPositive(s: State, t: nat, acts: seq<Action>, s': State)
    requires Strands(s, t, acts, s')
    ensures s.inFlight != 0
  {
    FirstStep(s, acts, s');
    if s.inFlight == 0 {
      ZeroLeaves(s, t);
      OutsideUntilCall(Step(s, FlushCheck(t)).value, acts[1..], s', t);
      assert false;
    }
  }

  lemma StrandedHadWorker(s: State, t: nat, acts: seq<Action>, s': State)
    requires Inv(s) && s.inFlight != 0 && Strands(s, t, acts, s')
    ensures exists w :: LiveWorker(s, w)
  {
    if !exists w :: LiveWorker(s, w) {
      assert Abandoned(s);
      RunKeepsAbandoned(s, acts, s');
      assert false;
    }
  }

  lemma StrandedHasNoTaskFlush(s: State, t: nat, acts: seq<Action>, s': State)
    requires Inv(s) && Strands(s, t, acts, s')
    ensures NoTaskFlushes(s)
  {
    forall u: nat, x: nat ensures !FlushesItself(s, u, x) {
      if FlushesItself(s, u, x) {
        TaskFlushNeverReturns(s, acts, s', u, x);
      }
    }
  }

  /** Exactly when `flush` can miss its wakeup.  In any reachable state, a thread that is about
      to look at the counter can end up asleep with nothing in flight and no notify coming,
      within the same call of `flush`, if and only if it reads a positive counter, some worker
      is still in its loop and no task waits for itself in `flush`.  Before a stop, and with
      tasks that do not flush, the counter alone decides. */
  lemma FlushMissesExactly(workers: nat, externals: nat, before: seq<Action>, s: State, t: nat)
    requires Exec(Step, Init(workers, externals), before) == Some(s)
    requires CanLook(s, t)
    ensures CanStrand(s, t) <==> s.inFlight != 0 && NoTaskFlushes(s) && exists w :: LiveWorker(s, w)
    ensures workers > 0 && !s.q.stopped && NoTaskFlushes(s) ==> (CanStrand(s, t) <==> s.inFlight != 0)
  {
    InitOk(workers, externals);
    RunKeepsInv(Init(workers, externals), before, s);
    if CanStrand(s, t) {
      var acts, s' :| Strands(s, t, acts, s');
      StrandedReadPositive(s, t, acts, s');
      StrandedHadWorker(s, t, acts, s');
      StrandedHasNoTaskFlush(s, t, acts, s');
    }
    if w :| s.inFlight != 0 && NoTaskFlushes(s) && LiveWorker(s, w) {
      LookerCanMiss(s, t, w);
    }
    WorkersStayWorkers(workers, externals, before, s);
    if workers > 0 && !s.q.stopped {
      assert ThreadOk(s, 0) && LiveWorker(s, 0);
    }
  }

  /** A sleeper with no notify coming, and nothing in flight. */
  ghost predicate Missed(s: State, t: nat) {
    Inv(s) && t < |s.threads| && s.threads[t].flush.Asleep? && !Coming(s)
  }

  /** With nothing in flight and no alert pending, only an enqueue changes that. */
  lemma StepKeepsQuiet(s: State, a: Action)
    requires Inv(s) && !Coming(s) && Step(s, a).Some? && !a.Increment?
    ensures !Coming(Step(s, a).value) && Moves(s, Step(s, a).value, a.t)
  {
    SumAtLeast(Holding, s.threads, a.t);
    assert !s.threads[a.t].job.Alert? && !s.threads[a.t].job.Done?;
    StepMovesOneThread(s, a);
    var s' := Step(s, a).value;
    assert s'.inFlight == 0 && !s'.threads[a.t].job.Alert?;
    forall w | 0 <= w < |s'.threads| ensures !s'.threads[w].job.Alert? {
      assert !s.threads[w].job.Alert?;
    }
  }

  lemma StepKeepsAsleep(s: State, a: Action, t: nat)
    requires t < |s.threads| && s.threads[t].flush.Asleep? && Step(s, a).Some? && a != FlushWake(t)
    requires Moves(s, Step(s, a).value, a.t) && !a.AlertFlush?
    requires ThreadsOk(s)
    ensures Step(s, a).value.threads[t].flush.Asleep?
  {
    assert ThreadOk(s, t);
  }

  lemma StepKeepsMissed(s: State, a: Action, t: nat)
    requires Missed(s, t) && Step(s, a).Some? && !a.Increment? && a != FlushWake(t)
    ensures Missed(Step(s, a).value, t)
  {
    StepKeepsInv(s, a);
    StepKeepsQuiet(s, a);
    assert !s.threads[a.t].job.Alert?;
    StepKeepsAsleep(s, a, t);
  }

  /** What it means to miss the wakeup: until another task is enqueued, or a spurious wakeup
      comes, the flusher sleeps, whatever else happens. */
  lemma {:induction false} MissedSleepsOn(s0: State, acts: seq<Action>, s: State, t: nat)
    requires Missed(s0, t) && Exec(Step, s0, acts) == Some(s)
    requires FlushWake(t) !in acts && forall a :: a in acts ==> !a.Increment?
    ensures Missed(s, t)
    decreases |acts|
  {
    if acts != [] {
      var m := Exec(Step, s0, acts[..|acts| - 1]).value;
      MissedSleepsOn(s0, acts[..|acts| - 1], m, t);
      assert acts[|acts| - 1] in acts;
      StepKeepsMissed(m, acts[|acts| - 1], t);
    }
  }

  // ---------------------------------------------------------------- when flush is woken

  /** Thread `t` does not sleep in `flush`, or a notify is coming. */
  ghost predicate Covered(s: State, t: nat) {
    t < |s.threads| && (s.threads[t].flush.Asleep? ==> Coming(s))
  }

  lemma StepKeepsCovered(s: State, a: Action, t: nat)
    requires s.inFlight >= 0 && Covered(s, t) && Step(s, a).Some?
    requires a == FlushBlock(t) ==> Coming(s)
    ensures Covered(Step(s, a).value, t)
  {
    var s' := Step(s, a).value;
    StepKeepsRoles(s, a);
    if !a.AlertFlush? && AlertPending(s) {
      var w :| 0 <= w < |s.threads| && s.threads[w].job.Alert?;
      assert s'.threads[w].job.Alert?;
    }
    if a.Decrement? {
      assert s'.threads[a.t].job == if s'.inFlight == 0 then Alert else Ready;
    }
  }

  /** A flusher that goes to sleep while a notify is coming has one coming until it is awake. */
  lemma {:induction false} CoveredUntilAwake(s0: State, acts: seq<Action>, s: State, t: nat)
    requires Inv(s0) && Covered(s0, t) && FlushBlock(t) !in acts && Exec(Step, s0, acts) == Some(s)
    ensures Inv(s) && Covered(s, t)
    decreases |acts|
  {
    if acts != [] {
      var m := Exec(Step, s0, acts[..|acts| - 1]).value;
      CoveredUntilAwake(s0, acts[..|acts| - 1], m, t);
      StepKeepsInv(m, acts[|acts| - 1]);
      assert acts[|acts| - 1] in acts;
      StepKeepsCovered(m, acts[|acts| - 1], t);
    }
  }

  /** Such a flusher is woken: in every run that goes on until no closing step is left, it does
      not sleep at the end.  By `WorkBoundsRuns` every run in which closing steps are taken
      while there are any gets there, unless tasks keep being enqueued. */
  lemma CoveredIsWoken(s0: State, acts: seq<Action>, s: State, t: nat, w: nat)
    requires Inv(s0) && Covered(s0, t) && FlushBlock(t) !in acts && Exec(Step, s0, acts) == Some(s)
    requires LiveWorker(s, w) && NoTaskFlushes(s) && forall a :: !Closes(s, a)
    ensures t < |s.threads| && !s.threads[t].flush.Asleep?
  {
    CoveredUntilAwake(s0, acts, s, t);
    if s.threads[t].flush.Asleep? {
      ComingDrains(s, w);
      assert false;
    }
  }

  // ---------------------------------------------------------------- flush returns

  /** A flusher that wants to look can, once nobody is between a look and its return or sleep;
      and if it then reads zero, it leaves. */
  lemma FlusherLooks(s: State, t: nat)
    requires |s.q.pcs| == |s.threads| && t < |s.threads| && (s.threads[t].flush.Entered? || s.threads[t].flush.Waiting?)
    requires forall u :: 0 <= u < |s.threads| ==> !s.threads[u].flush.Looked? && !s.threads[u].flush.Blocking?
    ensures Step(s, FlushCheck(t)).Some?
    ensures Step(s, FlushCheck(t)).value.threads[t].flush.NoFlush? <==> s.inFlight == 0
  {
  }

  /** Whoever has the flush mutex can go on: to leave or to look again, or to sleep. */
  lemma HolderGoesOn(s: State, u: nat)
    requires |s.q.pcs| == |s.threads| && u < |s.threads|
    ensures s.threads[u].flush.Looked? ==> Step(s, FlushCheck(u)).Some?
    ensures s.threads[u].flush.Blocking? ==> Step(s, FlushBlock(u)).Some?
  {
  }

  predicate FlushStep(a: Action) { a.FlushCheck? || a.FlushBlock? }

  /** In `flush` and not asleep: then somebody in `flush` can go on. */
  lemma FlusherGoesOn(s: State, t: nat)
    requires |s.q.pcs| == |s.threads| && t < |s.threads|
    requires !s.threads[t].flush.NoFlush? && !s.threads[t].flush.Asleep?
    ensures exists a :: FlushStep(a) && Step(s, a).Some?
  {
    if u: nat :| u < |s.threads| && (s.threads[u].flush.Looked? || s.threads[u].flush.Blocking?) {
      HolderGoesOn(s, u);
      assert FlushStep(FlushCheck(u)) && FlushStep(FlushBlock(u));
    } else {
      FlusherLooks(s, t);
      assert FlushStep(FlushCheck(t));
    }
  }

  /** How far a thread is from leaving `flush` or falling asleep in it. */
  function FlushWeight(th: Thread): nat {
    match th.flush
    case NoFlush => 0
    case Asleep => 1
    case Blocking => 2
    case Looked => 3
    case Waiting => 3
    case Entered => 4
  }

  /** What a step that is not a flush step may add, with `n` threads. */
  function FlushCharge(n: nat, a: Action): nat {
    if a.FlushCall? then 4 else if a.FlushWake? then 2 else if a.AlertFlush? then 2 * n else 0
  }

  lemma {:induction false} WakingAddsTwoEach(threads: seq<Thread>)
    ensures Sum(FlushWeight, WakeFlushers(threads)) <= Sum(FlushWeight, threads) + 2 * |threads|
    decreases |threads|
  {
    if threads != [] {
      WakingAddsTwoEach(threads[..|threads| - 1]);
      assert WakeFlushers(threads)[..|threads| - 1] == WakeFlushers(threads[..|threads| - 1]);
    }
  }

  lemma StepChangesFlushWeight(s: State, a: Action)
    requires Step(s, a).Some?
    ensures var s' := Step(s, a).value;
      if FlushStep(a) then Sum(FlushWeight, s'.threads) < Sum(FlushWeight, s.threads)
      else Sum(FlushWeight, s'.threads) <= Sum(FlushWeight, s.threads) + FlushCharge(|s.threads|, a)
  {
    var s' := Step(s, a).value;
    if a.AlertFlush? {
      var threads := SetJob(s, a.t, Ready).threads;
      SumUpdate(FlushWeight, s.threads, a.t, threads[a.t]);
      WakingAddsTwoEach(threads);
    } else {
      StepMovesOneThread(s, a);
      SumUpdate(FlushWeight, s.threads, a.t, s'.threads[a.t]);
    }
  }

  function FlushSteps(acts: seq<Action>): nat {
    if acts == [] then 0
    else FlushSteps(acts[..|acts| - 1]) + if FlushStep(acts[|acts| - 1]) then 1 else 0
  }

  function FlushCharges(n: nat, acts: seq<Action>): nat {
    if acts == [] then 0 else FlushCharges(n, acts[..|acts| - 1]) + FlushCharge(n, acts[|acts| - 1])
  }

  /** Over any run the steps inside `flush` are bounded by the calls, the wakeups and the
      alerts, which are closing steps. */
  lemma {:induction false} FlushStepsAreBounded(s0: State, acts: seq<Action>, s: State)
    requires Exec(Step, s0, acts) == Some(s)
    ensures |s.threads| == |s0.threads|
    ensures FlushSteps(acts) + Sum(FlushWeight, s.threads)
         <= Sum(FlushWeight, s0.threads) + FlushCharges(|s0.threads|, acts)
    decreases |acts|
  {
    if acts != [] {
      var m := Exec(Step, s0, acts[..|acts| - 1]).value;
      FlushStepsAreBounded(s0, acts[..|acts| - 1], m);
      StepKeepsRoles(m, acts[|acts| - 1]);
      StepChangesFlushWeight(m, acts[|acts| - 1]);
    }
  }

  /** `flush` returns unless it goes to sleep too late.  In every run that goes on until no
      closing step and no step inside `flush` is left, a flusher that had a notify coming, and
      has not gone to sleep since, has left `flush`.  By `WorkBoundsRuns` and
      `FlushStepsAreBounded` every run in which such steps are taken while there are any gets
      there, unless tasks keep being enqueued. */
  lemma CoveredReturns(s0: State, acts: seq<Action>, s: State, t: nat, w: nat)
    requires Inv(s0) && Covered(s0, t) && FlushBlock(t) !in acts && Exec(Step, s0, acts) == Some(s)
    requires LiveWorker(s, w) && NoTaskFlushes(s)
    requires forall a :: Step(s, a).Some? ==> !Closing(a) && !FlushStep(a)
    ensures t < |s.threads| && s.threads[t].flush.NoFlush?
  {
    CoveredIsWoken(s0, acts, s, t, w);
    CoveredUntilAwake(s0, acts, s, t);
    if !s.threads[t].flush.NoFlush? {
      FlusherGoesOn(s, t);
      assert false;
    }
  }

  // ---------------------------------------------------------------- after a stop

  /** After a stop, while some worker is in its loop, a closing step is enabled. */
  lemma StoppedCloses(s: State, w: nat)
    requires Inv(s) && NoTaskFlushes(s) && s.q.stopped && LiveWorker(s, w)
    ensures exists a :: Closes(s, a)
  {
    assert ThreadOk(s, w);
    if !s.threads[w].job.Ready? {
      HolderDrains(s, w);
      var a :| Drains(s, a);
      assert Closes(s, a);
    } else if s.q.pcs[w].Asleep? {
      var t := SumPositive(Queue.StoppingWeight, s.q.pcs);
      assert Closes(s, NotifyAll(t));
    } else if s.q.pcs[w].Awake? {
      assert Closes(s, Recheck(w));
    } else {
      assert Closes(s, PopWait(w));
    }
  }

  lemma QuietAfterStop(s: State)
    requires Inv(s) && NoTaskFlushes(s) && s.q.stopped && forall a :: !Closes(s, a)
    ensures forall w :: !LiveWorker(s, w)
  {
    forall w ensures !LiveWorker(s, w) {
      if LiveWorker(s, w) {
        StoppedCloses(s, w);
        assert false;
      }
    }
  }

  lemma AllLeftMeansDrained(workers: nat, externals: nat, acts: seq<Action>, s: State)
    requires workers > 0 && Exec(Step, Init(workers, externals), acts) == Some(s) && !PushesLate(workers, acts)
    requires forall w :: !LiveWorker(s, w)
    ensures s.q.popped == s.q.pushed && multiset(s.finished) == multiset(s.q.pushed)
  {
    forall t | 0 <= t < |s.threads| ensures s.threads[t].job.External? || s.threads[t].job.Exited? {
      assert !LiveWorker(s, t);
    }
    DrainOnStop(workers, externals, acts, s);
  }

  lemma ReachableInv(workers: nat, externals: nat, acts: seq<Action>, s: State)
    requires Exec(Step, Init(workers, externals), acts) == Some(s)
    ensures Inv(s) && |s.threads| == workers + externals
  {
    InitOk(workers, externals);
    RunKeepsInv(Init(workers, externals), acts, s);
    WorkersStayWorkers(workers, externals, acts, s);
    assert |Init(workers, externals).threads| == workers + externals;
  }

  /** A stop releases the workers: in every state after one, while some worker is in its loop
      and no task waits for itself in `flush`, a closing step is enabled. */
  lemma StopReleasesWorkers(workers: nat, externals: nat, acts: seq<Action>, s: State, t: nat, w: nat)
    requires Exec(Step, Init(workers, externals), acts) == Some(s) && Stop(t) in acts
    requires NoTaskFlushes(s) && LiveWorker(s, w)
    ensures exists a :: Closes(s, a)
  {
    ReachableInv(workers, externals, acts, s);
    StoppedExactly(workers, externals, acts, s);
    StoppedCloses(s, w);
  }

  lemma StopIsJoined(acts: seq<Action>, more: seq<Action>, t: nat)
    requires Stop(t) in acts
    ensures HasStop(acts + more)
  {
    var i :| 0 <= i < |acts| && acts[i] == Stop(t);
    assert (acts + more)[i].Stop?;
  }

  lemma WorkAfterStop(workers: nat, externals: nat, before: seq<Action>, s0: State, acts: seq<Action>, s: State)
    requires Exec(Step, Init(workers, externals), before) == Some(s0) && Exec(Step, s0, acts) == Some(s)
    ensures ClosingSteps(acts) + Work(s) <= Work(s0) + Raises(workers + externals, acts)
  {
    ReachableInv(workers, externals, before, s0);
    WorkBoundsRuns(s0, acts, s);
  }

  lemma JoinStopped(workers: nat, externals: nat, before: seq<Action>, s0: State, t: nat, acts: seq<Action>, s: State)
    requires Exec(Step, Init(workers, externals), before) == Some(s0) && Stop(t) in before
    requires Exec(Step, s0, acts) == Some(s)
    ensures Exec(Step, Init(workers, externals), before + acts) == Some(s) && HasStop(before + acts)
  {
    ExecJoin(Step, Init(workers, externals), before, acts);
    StopIsJoined(before, acts, t);
  }

  /** A run that has a stop behind it and no closing step left. */
  lemma QuietRunHasDrained(workers: nat, externals: nat, acts: seq<Action>, s: State)
    requires workers > 0 && Exec(Step, Init(workers, externals), acts) == Some(s) && HasStop(acts)
    requires NoTaskFlushes(s) && forall a :: !Closes(s, a)
    ensures forall w :: !LiveWorker(s, w)
    ensures !PushesLate(workers, acts) ==> s.q.popped == s.q.pushed && multiset(s.finished) == multiset(s.q.pushed)
  {
    ReachableInv(workers, externals, acts, s);
    StoppedExactly(workers, externals, acts, s);
    QuietAfterStop(s);
    if !PushesLate(workers, acts) {
      AllLeftMeansDrained(workers, externals, acts, s);
    }
  }

  /** What the destructor's join rests on.  From any state after a stop: a run has at most
      as many closing steps as there is work, plus 7 for each task enqueued on the way, one
      for each spurious wakeup, and the charge of each further stop; when no closing step is
      left, and no task waits for itself in `flush`, every worker has left; and if moreover
      nobody outside pushed after the stop, every task ever pushed has then been executed
      exactly once, in push order. */
  lemma WorkersLeaveAfterStop(workers: nat, externals: nat, before: seq<Action>, s0: State, t: nat,
                              acts: seq<Action>, s: State)
    requires workers > 0 && Exec(Step, Init(workers, externals), before) == Some(s0) && Stop(t) in before
    requires Exec(Step, s0, acts) == Some(s)
    ensures ClosingSteps(acts) + Work(s) <= Work(s0) + Raises(workers + externals, acts)
    ensures (forall a :: !Closes(s, a)) && NoTaskFlushes(s) ==> forall w :: !LiveWorker(s, w)
    ensures (forall a :: !Closes(s, a)) && NoTaskFlushes(s) && !PushesLate(workers, before + acts) ==>
      s.q.popped == s.q.pushed && multiset(s.finished) == multiset(s.q.pushed)
  {
    WorkAfterStop(workers, externals, before, s0, acts, s);
    JoinStopped(workers, externals, before, s0, t, acts, s);
    if (forall a :: !Closes(s, a)) && NoTaskFlushes(s) {
      QuietRunHasDrained(workers, externals, before + acts, s);
    }
  }
}
