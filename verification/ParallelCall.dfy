/** Calls of `parallel` on the shared pool.  Any number of threads outside the pool call it at
    the same time, each with its own tasks and its own latch; their loops of enqueues and their
    waits are composed with the pool, its queue, its workers and the tasks' own steps.
    A task may take any number of steps; when they are done it counts its call's latch down. */
module ParallelCall {
  import opened Runs
  import opened Sums
  import Queue
  import TaskPool
  import PoolProgress
  import Latch
  import Interleaving

  /** The tasks of each call. */
  type Programs<!T> = seq<Interleaving.Program<T>>

  /** `sent[k]` is the number that the pool has given to task `k`; `counted[k]` tells whether
      task `k` has counted down; `sched` records which task took each step of a task body. */
  datatype Call<T> = Call(latch: Latch.State, m: Interleaving.Machine<T>, counted: seq<bool>,
                          sched: seq<nat>, sent: seq<nat>)

  /** Task `task` of call `call`. */
  datatype Slot = Slot(call: nat, task: nat)

  /** `owner[d]` is what the pool knows as task `d`. */
  datatype State<T> = State(pool: TaskPool.State, calls: seq<Call<T>>, owner: seq<Slot>)

  /** What happens to one call besides its enqueues. */
  datatype Move = Run(k: nat) | Down(k: nat) | Enter | Rouse | Look

  datatype Action =
    | Pool(a: TaskPool.Action)
    | Body(t: nat)
    | CountDown(t: nat)
    | LatchWait(j: nat)
    | LatchWake(j: nat)
    | LatchRecheck(j: nat)

  /** The workers come first, then one thread for each call. */
  function Workers<T>(s: State<T>): nat
    requires |s.calls| <= |s.pool.threads|
  {
    |s.pool.threads| - |s.calls|
  }

  function Client<T>(s: State<T>, j: nat): nat
    requires |s.calls| <= |s.pool.threads|
  {
    Workers(s) + j
  }

  /** The task that thread `t` runs. */
  function SlotAt<T>(s: State<T>, t: nat): Option<Slot> {
    if t < |s.pool.threads| && s.pool.threads[t].job.Running? && s.pool.threads[t].job.task < |s.owner|
       && s.owner[s.pool.threads[t].job.task].call < |s.calls|
    then Some(s.owner[s.pool.threads[t].job.task]) else None
  }

  predicate IsCounted<T>(s: State<T>, slot: Slot) {
    slot.call < |s.calls| && slot.task < |s.calls[slot.call].counted| && s.calls[slot.call].counted[slot.task]
  }

  /** The pool steps that occur in the calls: a client runs its loop body once for each task,
      and the workers run theirs.  Tasks enqueue nothing and do not throw. */
  predicate Allowed<T>(progs: Programs<T>, s: State<T>, a: TaskPool.Action)
    requires |progs| == |s.calls| <= |s.pool.threads|
  {
    match a
    case Increment(t) =>
      Workers(s) <= t < |s.pool.threads| && |s.calls[t - Workers(s)].sent| < |progs[t - Workers(s)]|
    case Finish(t, threw) => !threw && SlotAt(s, t).Some? && IsCounted(s, SlotAt(s, t).value)
    case FlushCall(_) => false
    case FlushCheck(_) => false
    case FlushBlock(_) => false
    case FlushWake(_) => false
    case Stop(_) => false
    case NotifyAll(_) => false
    case _ => true
  }

  function PoolStep<T>(progs: Programs<T>, s: State<T>, b: TaskPool.Action): Option<State<T>>
    requires |progs| == |s.calls| <= |s.pool.threads|
  {
    if !Allowed(progs, s, b) || TaskPool.Step(s.pool, b).None? then None
    else
      var pool := TaskPool.Step(s.pool, b).value;
      if !b.Increment? then Some(s.(pool := pool))
      else
        var j := b.t - Workers(s);
        var c := s.calls[j];
        Some(State(pool, s.calls[j := c.(sent := c.sent + [|s.owner|])], s.owner + [Slot(j, |c.sent|)]))
  }

  function OnLatch<T>(c: Call<T>, a: Latch.Action): Option<Call<T>> {
    var l := Latch.Step(c.latch, a);
    if l.None? then None else Some(c.(latch := l.value))
  }

  function CallStep<T>(prog: Interleaving.Program<T>, c: Call<T>, b: Move): Option<Call<T>> {
    match b
    case Run(k) =>
      var m := Interleaving.Step(prog, c.m, k);
      if m.None? then None else Some(c.(m := m.value, sched := c.sched + [k]))
    case Down(k) =>
      if k < |prog| && k < |c.m.pos| && k < |c.counted| && c.m.pos[k] == |prog[k]| && !c.counted[k]
      then Some(c.(latch := Latch.Step(c.latch, Latch.Action.CountDown(1)).value, counted := c.counted[k := true]))
      else None
    case Enter => OnLatch(c, Latch.Wait(0))
    case Rouse => OnLatch(c, Latch.Wake(0))
    case Look => OnLatch(c, Latch.Recheck(0))
  }

  /** The call that an action concerns, and what happens to it. */
  function Target<T>(progs: Programs<T>, s: State<T>, a: Action): Option<(nat, Move)>
    requires |progs| == |s.calls| <= |s.pool.threads| && !a.Pool?
  {
    match a
    case Body(t) =>
      if SlotAt(s, t).None? then None else Some((SlotAt(s, t).value.call, Run(SlotAt(s, t).value.task)))
    case CountDown(t) =>
      if SlotAt(s, t).None? then None else Some((SlotAt(s, t).value.call, Down(SlotAt(s, t).value.task)))
    case LatchWait(j) =>
      if j < |s.calls| && |s.calls[j].sent| == |progs[j]| && TaskPool.Idle(s.pool, Client(s, j))
      then Some((j, Enter)) else None
    case LatchWake(j) => if j < |s.calls| then Some((j, Rouse)) else None
    case LatchRecheck(j) => if j < |s.calls| then Some((j, Look)) else None
  }

  function Step<T>(progs: Programs<T>, s: State<T>, a: Action): Option<State<T>> {
    if |progs| != |s.calls| || |s.calls| > |s.pool.threads| then None
    else if a.Pool? then PoolStep(progs, s, a.a)
    else
      var x := Target(progs, s, a);
      if x.None? then None
      else
        var (j, b) := x.value;
        var c := CallStep(progs[j], s.calls[j], b);
        if c.None? then None else Some(s.(calls := s.calls[j := c.value]))
  }

  function Stepper<T>(progs: Programs<T>): (State<T>, Action) -> Option<State<T>> {
    (s: State<T>, a: Action) => Step(progs, s, a)
  }

  function StartOf<T>(prog: Interleaving.Program<T>, mem: seq<T>): Call<T> {
    Call(Latch.Init(|prog|, 1), Interleaving.Start(prog, mem), seq(|prog|, _ => false), [], [])
  }

  /** All calls are about to begin, and the pool is idle. */
  function Init<T>(progs: Programs<T>, mems: seq<seq<T>>, workers: nat): State<T>
    requires |mems| == |progs|
  {
    State(TaskPool.Init(workers, |progs|),
          seq(|progs|, j requires 0 <= j < |progs| => StartOf(progs[j], mems[j])), [])
  }

  /** The client of call `j` has come through its latch, so the call has returned. */
  predicate Returned<T>(s: State<T>, j: nat) {
    j < |s.calls| && |s.calls[j].latch.waiters| > 0 && s.calls[j].latch.waiters[0].Through?
  }

  // ---------------------------------------------------------------- the invariant

  function Open(counted: bool): nat { if counted then 0 else 1 }

  ghost predicate CallShape<T>(prog: Interleaving.Program<T>, c: Call<T>) {
    && |c.counted| == |c.m.pos| == |prog| && |c.latch.waiters| == 1 && |c.sent| <= |prog|
    && (forall k :: 0 <= k < |prog| ==> c.m.pos[k] <= |prog[k]|)
  }

  /** The latch counts the tasks that have not counted down, tasks count down when their steps
      are done, and the record of task steps replays to the memory. */
  ghost predicate CallOk<T>(prog: Interleaving.Program<T>, mem: seq<T>, c: Call<T>) {
    && CallShape(prog, c)
    && (forall k :: 0 <= k < |prog| && c.counted[k] ==> c.m.pos[k] == |prog[k]|)
    && c.latch.count == Sum(Open, c.counted)
    && Latch.WaitersOk(c.latch)
    && Exec(Interleaving.Stepper(prog), Interleaving.Start(prog, mem), c.sched) == Some(c.m)
  }

  ghost predicate CallsOk<T>(progs: Programs<T>, mems: seq<seq<T>>, s: State<T>) {
    |progs| == |mems| == |s.calls| && forall j :: 0 <= j < |progs| ==> CallOk(progs[j], mems[j], s.calls[j])
  }

  /** Workers enqueue nothing, clients are outside the pool, nobody flushes or stops. */
  ghost predicate PartsOk<T>(s: State<T>) {
    && |s.calls| < |s.pool.threads| == |s.pool.q.pcs|
    && !s.pool.q.stopped
    && forall t :: 0 <= t < |s.pool.threads| ==>
      && s.pool.threads[t].flush.NoFlush? && !s.pool.q.pcs[t].Stopping?
      && (s.pool.threads[t].job.External? <==> t >= Workers(s))
      && (t < Workers(s) ==> s.pool.threads[t].enq.None? && !s.pool.q.pcs[t].Pushed?)
  }

  /** A client at its latch has sent all its tasks and has nothing to do in the pool. */
  ghost predicate ClientOk<T>(progs: Programs<T>, s: State<T>, j: nat)
    requires |progs| == |s.calls| <= |s.pool.threads| && j < |progs|
  {
    |s.calls[j].latch.waiters| == 1 && !s.calls[j].latch.waiters[0].Free? ==>
      |s.calls[j].sent| == |progs[j]| && TaskPool.Idle(s.pool, Client(s, j))
  }

  /** The pool's numbers and the calls' tasks correspond one to one. */
  ghost predicate OwnersOk<T>(s: State<T>) {
    && |s.owner| == |s.pool.parents|
    && (forall d :: 0 <= d < |s.owner| ==>
      var slot := s.owner[d];
      slot.call < |s.calls| && slot.task < |s.calls[slot.call].sent| && s.calls[slot.call].sent[slot.task] == d)
    && (forall j: nat, k: nat :: j < |s.calls| && k < |s.calls[j].sent| ==>
      s.calls[j].sent[k] < |s.owner| && s.owner[s.calls[j].sent[k]] == Slot(j, k))
  }

  ghost predicate FinishedOk<T>(s: State<T>) {
    forall d :: d in s.pool.finished ==> d < |s.owner| && IsCounted(s, s.owner[d])
  }

  ghost predicate Inv<T>(progs: Programs<T>, mems: seq<seq<T>>, s: State<T>) {
    && TaskPool.Inv(s.pool)
    && CallsOk(progs, mems, s)
    && PartsOk(s)
    && (forall j: nat :: j < |progs| ==> ClientOk(progs, s, j))
    && OwnersOk(s) && FinishedOk(s)
  }

  lemma CallStepKeepsOk<T>(prog: Interleaving.Program<T>, mem: seq<T>, c: Call<T>, b: Move)
    requires CallOk(prog, mem, c) && CallStep(prog, c, b).Some?
    ensures CallOk(prog, mem, CallStep(prog, c, b).value)
  {
    match b
    case Run(k) => ExecNext(Interleaving.Stepper(prog), Interleaving.Start(prog, mem), c.sched, c.m, k);
    case Down(k) => SumUpdate(Open, c.counted, k, true);
    case _ => LatchMoveFrame(prog, c, b);
  }

  /** What a move leaves as it is. */
  ghost predicate Continues<T>(c: Call<T>, c': Call<T>) {
    && c'.sent == c.sent && |c'.counted| == |c.counted|
    && forall k :: 0 <= k < |c.counted| && c.counted[k] ==> c'.counted[k]
  }

  lemma CallStepFrame<T>(prog: Interleaving.Program<T>, c: Call<T>, b: Move)
    requires CallStep(prog, c, b).Some?
    ensures var c' := CallStep(prog, c, b).value;
      && Continues(c, c') && |c'.latch.waiters| == |c.latch.waiters|
      && (|c.latch.waiters| == 1 && c.latch.waiters[0].Free? && !b.Enter? ==> c'.latch.waiters[0].Free?)
  {
  }

  lemma MoveKeepsOwners<T>(s: State<T>, j: nat, c: Call<T>)
    requires OwnersOk(s) && FinishedOk(s) && j < |s.calls| && Continues(s.calls[j], c)
    ensures OwnersOk(s.(calls := s.calls[j := c])) && FinishedOk(s.(calls := s.calls[j := c]))
  {
    var s' := s.(calls := s.calls[j := c]);
    forall d | d in s'.pool.finished ensures IsCounted(s', s'.owner[d]) {
      assert IsCounted(s, s.owner[d]);
    }
  }

  lemma MoveKeepsClients<T>(progs: Programs<T>, s: State<T>, a: Action, i: nat)
    requires Step(progs, s, a).Some? && !a.Pool? && i < |progs| && ClientOk(progs, s, i)
    ensures ClientOk(progs, Step(progs, s, a).value, i)
  {
    var (j, b) := Target(progs, s, a).value;
    CallStepFrame(progs[j], s.calls[j], b);
  }

  lemma MoveKeepsInv<T>(progs: Programs<T>, mems: seq<seq<T>>, s: State<T>, a: Action)
    requires Inv(progs, mems, s) && Step(progs, s, a).Some? && !a.Pool?
    ensures Inv(progs, mems, Step(progs, s, a).value)
  {
    var (j, b) := Target(progs, s, a).value;
    var c := CallStep(progs[j], s.calls[j], b).value;
    CallStepKeepsOk(progs[j], mems[j], s.calls[j], b);
    CallStepFrame(progs[j], s.calls[j], b);
    MoveKeepsOwners(s, j, c);
    forall i: nat | i < |progs| ensures ClientOk(progs, Step(progs, s, a).value, i) {
      MoveKeepsClients(progs, s, a, i);
    }
  }

  /** The clients' loops and the workers' keep every thread in its part. */
  lemma PoolStepKeepsParts<T>(progs: Programs<T>, s: State<T>, b: TaskPool.Action)
    requires |progs| == |s.calls| && TaskPool.ThreadsOk(s.pool) && PartsOk(s) && PoolStep(progs, s, b).Some?
    ensures PartsOk(PoolStep(progs, s, b).value)
  {
    assert TaskPool.ThreadOk(s.pool, b.t);
    TaskPool.StepKeepsRoles(s.pool, b);
  }

  /** A thread with nothing to do in the pool is left alone by the others. */
  lemma StaysIdle(p: TaskPool.State, b: TaskPool.Action, t: nat)
    requires TaskPool.ThreadsOk(p) && TaskPool.Idle(p, t) && p.threads[t].job.External?
    requires TaskPool.Step(p, b).Some? && !b.Increment? && !b.FlushCall? && !b.Stop? && !b.NotifyAll?
    ensures TaskPool.Idle(TaskPool.Step(p, b).value, t)
  {
    assert TaskPool.ThreadOk(p, t);
    TaskPool.StepKeepsRoles(p, b);
  }

  lemma StaysIdleBesideEnqueue(p: TaskPool.State, u: nat, t: nat)
    requires TaskPool.ThreadsOk(p) && TaskPool.Idle(p, t) && t != u && TaskPool.Step(p, TaskPool.Increment(u)).Some?
    ensures TaskPool.Idle(TaskPool.Step(p, TaskPool.Increment(u)).value, t)
  {
  }

  lemma PoolStepKeepsClient<T>(progs: Programs<T>, s: State<T>, b: TaskPool.Action, j: nat)
    requires |progs| == |s.calls| && TaskPool.ThreadsOk(s.pool) && PartsOk(s) && PoolStep(progs, s, b).Some?
    requires j < |progs| && ClientOk(progs, s, j) && PartsOk(PoolStep(progs, s, b).value)
    ensures ClientOk(progs, PoolStep(progs, s, b).value, j)
  {
    TaskPool.StepKeepsRoles(s.pool, b);
    if |s.calls[j].latch.waiters| == 1 && !s.calls[j].latch.waiters[0].Free? {
      if b.Increment? {
        StaysIdleBesideEnqueue(s.pool, b.t, Client(s, j));
      } else {
        StaysIdle(s.pool, b, Client(s, j));
      }
    }
  }

  /** An enqueue gives the next number to the next task of its call. */
  lemma EnqueueKeepsOwners<T>(s: State<T>, s': State<T>, j: nat)
    requires OwnersOk(s) && j < |s.calls| && |s'.pool.parents| == |s.pool.parents| + 1
    requires s'.owner == s.owner + [Slot(j, |s.calls[j].sent|)]
    requires s'.calls == s.calls[j := s.calls[j].(sent := s.calls[j].sent + [|s.owner|])]
    ensures OwnersOk(s')
  {
  }

  lemma EnqueueKeepsFinished<T>(progs: Programs<T>, s: State<T>, t: nat)
    requires |progs| == |s.calls| <= |s.pool.threads| && FinishedOk(s)
    requires PoolStep(progs, s, TaskPool.Increment(t)).Some?
    ensures FinishedOk(PoolStep(progs, s, TaskPool.Increment(t)).value)
  {
    var s' := PoolStep(progs, s, TaskPool.Increment(t)).value;
    forall d | d in s'.pool.finished ensures d < |s'.owner| && IsCounted(s', s'.owner[d]) {
      assert IsCounted(s, s.owner[d]);
    }
  }

  lemma OtherStepsKeepOwners<T>(progs: Programs<T>, s: State<T>, b: TaskPool.Action)
    requires |progs| == |s.calls| <= |s.pool.threads| && OwnersOk(s) && FinishedOk(s)
    requires PoolStep(progs, s, b).Some? && !b.Increment?
    ensures OwnersOk(PoolStep(progs, s, b).value) && FinishedOk(PoolStep(progs, s, b).value)
  {
    var s' := PoolStep(progs, s, b).value;
    assert s'.pool.parents == s.pool.parents;
    forall d | d in s'.pool.finished ensures d < |s'.owner| && IsCounted(s', s'.owner[d]) {
      assert d !in s.pool.finished ==> b.Finish? && s.pool.threads[b.t].job.task == d;
    }
  }

  lemma PoolStepKeepsCalls<T>(progs: Programs<T>, mems: seq<seq<T>>, s: State<T>, b: TaskPool.Action)
    requires CallsOk(progs, mems, s) && |s.calls| <= |s.pool.threads| && PoolStep(progs, s, b).Some?
    ensures CallsOk(progs, mems, PoolStep(progs, s, b).value)
  {
  }

  /** Every step of the composed protocol keeps the invariant. */
  lemma StepKeepsInv<T>(progs: Programs<T>, mems: seq<seq<T>>, s: State<T>, a: Action)
    requires Inv(progs, mems, s) && Step(progs, s, a).Some?
    ensures Inv(progs, mems, Step(progs, s, a).value)
  {
    if a.Pool? {
      PoolStepKeepsInv(progs, mems, s, a.a);
    } else {
      MoveKeepsInv(progs, mems, s, a);
    }
  }

  lemma PoolStepKeepsInv<T>(progs: Programs<T>, mems: seq<seq<T>>, s: State<T>, b: TaskPool.Action)
    requires Inv(progs, mems, s) && PoolStep(progs, s, b).Some?
    ensures Inv(progs, mems, PoolStep(progs, s, b).value)
  {
    TaskPool.StepKeepsInv(s.pool, b);
    PoolStepKeepsCalls(progs, mems, s, b);
    PoolStepKeepsParts(progs, s, b);
    forall j: nat | j < |progs| ensures ClientOk(progs, PoolStep(progs, s, b).value, j) {
      PoolStepKeepsClient(progs, s, b, j);
    }
    if b.Increment? {
      EnqueueKeepsOwners(s, PoolStep(progs, s, b).value, b.t - Workers(s));
      EnqueueKeepsFinished(progs, s, b.t);
    } else {
      OtherStepsKeepOwners(progs, s, b);
    }
  }

  lemma {:induction false} AllOpen(n: nat)
    ensures Sum(Open, seq(n, _ => false)) == n
  {
    if n > 0 {
      AllOpen(n - 1);
      assert seq(n, _ => false)[..n - 1] == seq(n - 1, _ => false);
    }
  }

  lemma InitOk<T>(progs: Programs<T>, mems: seq<seq<T>>, workers: nat)
    requires workers > 0 && |mems| == |progs|
    ensures Inv(progs, mems, Init(progs, mems, workers))
  {
    TaskPool.InitOk(workers, |progs|);
    forall j | 0 <= j < |progs| ensures CallOk(progs[j], mems[j], StartOf(progs[j], mems[j])) {
      AllOpen(|progs[j]|);
    }
  }

  lemma RunKeepsInv<T(!new)>(progs: Programs<T>, mems: seq<seq<T>>, workers: nat, acts: seq<Action>, s: State<T>)
    requires workers > 0 && |mems| == |progs| && Exec(Stepper(progs), Init(progs, mems, workers), acts) == Some(s)
    ensures Inv(progs, mems, s)
  {
    InitOk(progs, mems, workers);
    forall s: State<T>, a | Inv(progs, mems, s) && Step(progs, s, a).Some?
      ensures Inv(progs, mems, Step(progs, s, a).value)
    {
      StepKeepsInv(progs, mems, s, a);
    }
    assert Preserves(Stepper(progs), s => Inv<T>(progs, mems, s));
    InvariantOfRuns(Stepper(progs), s => Inv<T>(progs, mems, s), Init(progs, mems, workers), acts);
  }

  // ---------------------------------------------------------------- no call returns early

  lemma ThroughMeansDone<T>(prog: Interleaving.Program<T>, mem: seq<T>, c: Call<T>)
    requires CallOk(prog, mem, c) && c.latch.waiters[0].Through?
    ensures (forall k :: 0 <= k < |prog| ==> c.counted[k]) && c.m.pos == Interleaving.Lengths(prog)
    ensures Interleaving.Outcome(prog, mem, c.m.mem)
  {
    forall k | 0 <= k < |prog| ensures c.counted[k] && c.m.pos[k] == |prog[k]| {
      SumAtLeast(Open, c.counted, k);
    }
    assert c.m.pos == Interleaving.Lengths(prog);
    assert c.m == Interleaving.Machine(Interleaving.Lengths(prog), c.m.mem);
  }

  /** For each of the concurrent calls, in every reachable state: its latch counts its tasks
      that have not yet counted down; and when it has returned, every step of every one of its
      tasks has been performed exactly once, so its memory is the outcome of a complete
      interleaving of its task bodies. */
  lemma NeverReturnsEarly<T(!new)>(progs: Programs<T>, mems: seq<seq<T>>, workers: nat,
                                   acts: seq<Action>, s: State<T>, j: nat)
    requires workers > 0 && |mems| == |progs| && Exec(Stepper(progs), Init(progs, mems, workers), acts) == Some(s)
    requires j < |progs|
    ensures |s.calls| == |progs|
    ensures var c, prog := s.calls[j], progs[j];
      && |c.counted| == |prog| && c.latch.count == Sum(Open, c.counted)
      && |c.latch.waiters| == 1 && (c.latch.waiters[0].Asleep? ==> c.latch.count > 0)
      && (Returned(s, j) ==>
        && (forall k :: 0 <= k < |prog| ==> c.counted[k]) && c.m.pos == Interleaving.Lengths(prog)
        && Interleaving.Outcome(prog, mems[j], c.m.mem))
  {
    RunKeepsInv(progs, mems, workers, acts, s);
    assert CallOk(progs[j], mems[j], s.calls[j]);
    if Returned(s, j) {
      ThroughMeansDone(progs[j], mems[j], s.calls[j]);
    }
  }

  // ---------------------------------------------------------------- the calls make progress

  function WaiterWeight(w: Latch.Waiter): nat { if w.Free? || w.Awake? then 1 else 0 }

  ghost function CallWork<T>(prog: Interleaving.Program<T>, c: Call<T>): nat
    requires CallShape(prog, c)
  {
    8 * (|prog| - |c.sent|) + Interleaving.Remaining(prog, c.m.pos) + 2 * Sum(Open, c.counted)
    + WaiterWeight(c.latch.waiters[0])
  }

  ghost predicate Shapes<T>(progs: Programs<T>, calls: seq<Call<T>>) {
    |progs| == |calls| && forall j :: 0 <= j < |progs| ==> CallShape(progs[j], calls[j])
  }

  ghost function Loads<T>(progs: Programs<T>, calls: seq<Call<T>>): (r: seq<nat>)
    requires Shapes(progs, calls)
    ensures |r| == |calls| && forall j :: 0 <= j < |r| ==> r[j] == CallWork(progs[j], calls[j])
  {
    seq(|calls|, j requires 0 <= j < |calls| => CallWork(progs[j], calls[j]))
  }

  /** Drops with every step that is not a spurious wakeup. */
  ghost function Measure<T>(progs: Programs<T>, s: State<T>): nat
    requires Shapes(progs, s.calls)
  {
    PoolProgress.Work(s.pool) + Sum(Interleaving.Identity, Loads(progs, s.calls))
  }

  predicate Spurious(a: Action) { a.LatchWake? || (a.Pool? && a.a.Wake?) }

  function SpuriousCount(acts: seq<Action>): nat {
    if acts == [] then 0
    else SpuriousCount(acts[..|acts| - 1]) + if Spurious(acts[|acts| - 1]) then 1 else 0
  }

  lemma OneCallMoves<T>(progs: Programs<T>, calls: seq<Call<T>>, j: nat, c: Call<T>)
    requires Shapes(progs, calls) && j < |calls| && CallShape(progs[j], c)
    ensures Shapes(progs, calls[j := c])
    ensures Sum(Interleaving.Identity, Loads(progs, calls[j := c])) + CallWork(progs[j], calls[j])
         == Sum(Interleaving.Identity, Loads(progs, calls)) + CallWork(progs[j], c)
  {
    SumUpdate(Interleaving.Identity, Loads(progs, calls), j, CallWork(progs[j], c));
    assert Loads(progs, calls)[j := CallWork(progs[j], c)] == Loads(progs, calls[j := c]);
  }

  /** A move lowers the work of its call, except for a spurious wakeup, which adds one. */
  lemma CallStepDropsWork<T>(prog: Interleaving.Program<T>, mem: seq<T>, c: Call<T>, b: Move)
    requires CallOk(prog, mem, c) && CallStep(prog, c, b).Some?
    ensures var c' := CallStep(prog, c, b).value;
      && CallShape(prog, c')
      && if b.Rouse? then CallWork(prog, c') == CallWork(prog, c) + 1 else CallWork(prog, c') < CallWork(prog, c)
  {
    CallStepKeepsOk(prog, mem, c, b);
    match b
    case Run(k) => Interleaving.StepDropsRemaining(prog, c.m.pos, k);
    case Down(k) => SumUpdate(Open, c.counted, k, true);
    case _ => LatchMoveFrame(prog, c, b);
  }

  lemma LatchMoveFrame<T>(prog: Interleaving.Program<T>, c: Call<T>, b: Move)
    requires CallStep(prog, c, b).Some? && (b.Enter? || b.Rouse? || b.Look?)
    ensures var c' := CallStep(prog, c, b).value; c' == c.(latch := c'.latch)
  {
  }

  lemma MoveDropsMeasure<T>(progs: Programs<T>, mems: seq<seq<T>>, s: State<T>, a: Action)
    requires CallsOk(progs, mems, s) && Step(progs, s, a).Some? && !a.Pool?
    ensures Shapes(progs, Step(progs, s, a).value.calls)
    ensures var m, m' := Measure(progs, s), Measure(progs, Step(progs, s, a).value);
      if Spurious(a) then m' == m + 1 else m' < m
  {
    var (j, b) := Target(progs, s, a).value;
    CallStepDropsWork(progs[j], mems[j], s.calls[j], b);
    OneCallMoves(progs, s.calls, j, CallStep(progs[j], s.calls[j], b).value);
  }

  lemma PoolStepDropsMeasure<T>(progs: Programs<T>, s: State<T>, b: TaskPool.Action)
    requires TaskPool.ThreadsOk(s.pool) && Shapes(progs, s.calls)
    requires Step(progs, s, Pool(b)).Some?
    ensures Shapes(progs, Step(progs, s, Pool(b)).value.calls)
    ensures var m, m' := Measure(progs, s), Measure(progs, Step(progs, s, Pool(b)).value);
      if b.Wake? then m' == m + 1 else m' < m
  {
    PoolProgress.StepChangesWork(s.pool, b);
    if b.Increment? {
      var j := b.t - Workers(s);
      OneCallMoves(progs, s.calls, j, s.calls[j].(sent := s.calls[j].sent + [|s.owner|]));
    }
  }

  /** Every step other than a spurious wakeup lowers the measure; a spurious one adds one. */
  lemma StepDropsMeasure<T>(progs: Programs<T>, mems: seq<seq<T>>, s: State<T>, a: Action)
    requires Inv(progs, mems, s) && Step(progs, s, a).Some?
    ensures Inv(progs, mems, Step(progs, s, a).value)
    ensures var m, m' := Measure(progs, s), Measure(progs, Step(progs, s, a).value);
      if Spurious(a) then m' == m + 1 else m' < m
  {
    StepKeepsInv(progs, mems, s, a);
    if a.Pool? {
      PoolStepDropsMeasure(progs, s, a.a);
    } else {
      MoveDropsMeasure(progs, mems, s, a);
    }
  }

  /** 10 for each task, 1 for each task step, and one for the wait. */
  ghost function Load<T>(prog: Interleaving.Program<T>): nat {
    10 * |prog| + Sum(Interleaving.Identity, Interleaving.Lengths(prog)) + 1
  }

  ghost function StartingLoads<T>(progs: Programs<T>): (r: seq<nat>)
    ensures |r| == |progs| && forall j :: 0 <= j < |r| ==> r[j] == Load(progs[j])
  {
    seq(|progs|, j requires 0 <= j < |progs| => Load(progs[j]))
  }

  ghost function TotalLoad<T>(progs: Programs<T>): nat { Sum(Interleaving.Identity, StartingLoads(progs)) }

  lemma StartingWork<T>(prog: Interleaving.Program<T>, mem: seq<T>)
    ensures CallShape(prog, StartOf(prog, mem)) && CallWork(prog, StartOf(prog, mem)) == Load(prog)
  {
    var c := StartOf(prog, mem);
    AllOpen(|prog|);
    assert Interleaving.Left(prog, c.m.pos) == Interleaving.Lengths(prog);
  }

  lemma {:induction false} IdleWork(workers: nat, externals: nat)
    ensures PoolProgress.Work(TaskPool.Init(workers, externals)) == 2 * workers + externals
  {
    var s := TaskPool.Init(workers, externals);
    var ready := seq(workers, _ => TaskPool.Thread(TaskPool.Ready, None, TaskPool.NoFlush));
    var others := seq(externals, _ => TaskPool.Thread(TaskPool.External, None, TaskPool.NoFlush));
    SumConcat(PoolProgress.JobWeight, ready, others);
    SumConstant(PoolProgress.JobWeight, ready, 1);
    SumZero(PoolProgress.JobWeight, others);
    SumConstant(PoolProgress.PcWeight(workers + externals), s.q.pcs, 1);
  }

  lemma InitialLoads<T>(progs: Programs<T>, mems: seq<seq<T>>, workers: nat)
    requires |mems| == |progs|
    ensures Shapes(progs, Init(progs, mems, workers).calls)
    ensures Loads(progs, Init(progs, mems, workers).calls) == StartingLoads(progs)
  {
    var calls := Init(progs, mems, workers).calls;
    forall j | 0 <= j < |progs| ensures CallShape(progs[j], calls[j]) && CallWork(progs[j], calls[j]) == Load(progs[j]) {
      StartingWork(progs[j], mems[j]);
    }
  }

  lemma InitialMeasure<T>(progs: Programs<T>, mems: seq<seq<T>>, workers: nat)
    requires |mems| == |progs|
    ensures Shapes(progs, Init(progs, mems, workers).calls)
    ensures Measure(progs, Init(progs, mems, workers)) == TotalLoad(progs) + 2 * workers + |progs|
  {
    InitialLoads(progs, mems, workers);
    IdleWork(workers, |progs|);
  }

  /** A run has at most as many steps as the calls' loads, two for each worker and one for each
      call, plus two for each spurious wakeup. */
  lemma {:induction false} RunsAreBounded<T(!new)>(progs: Programs<T>, mems: seq<seq<T>>, workers: nat,
                                                   acts: seq<Action>, s: State<T>)
    requires workers > 0 && |mems| == |progs| && Exec(Stepper(progs), Init(progs, mems, workers), acts) == Some(s)
    ensures Inv(progs, mems, s)
    ensures |acts| + Measure(progs, s) <= TotalLoad(progs) + 2 * workers + |progs| + 2 * SpuriousCount(acts)
    decreases |acts|
  {
    InitOk(progs, mems, workers);
    InitialMeasure(progs, mems, workers);
    if acts != [] {
      var m := Exec(Stepper(progs), Init(progs, mems, workers), acts[..|acts| - 1]).value;
      RunsAreBounded(progs, mems, workers, acts[..|acts| - 1], m);
      StepDropsMeasure(progs, mems, m, acts[|acts| - 1]);
    }
  }

  // ---------------------------------------------------------------- what the composition allows

  /** The calls restrict the pool in nothing but what the clients enqueue and when tasks end:
      every other pool step that is enabled in the pool, spurious wakeups included, is enabled
      in the composition; a client may enqueue exactly while it has tasks left; and a task may
      end exactly when it has counted down. */
  lemma PoolStepsAllowed<T>(progs: Programs<T>, mems: seq<seq<T>>, s: State<T>, b: TaskPool.Action)
    requires Inv(progs, mems, s) && TaskPool.Step(s.pool, b).Some?
    ensures b.Push? || b.NotifyOne? || b.PopWait? || b.Wake? || b.Recheck? || b.Decrement? || b.AlertFlush? ==>
      Step(progs, s, Pool(b)).Some?
    ensures b.Increment? ==>
      (Step(progs, s, Pool(b)).Some? <==>
        b.t >= Workers(s) && |s.calls[b.t - Workers(s)].sent| < |progs[b.t - Workers(s)]|)
    ensures b.Finish? ==>
      s.pool.threads[b.t].job.task < |s.owner|
      && (Step(progs, s, Pool(b)).Some? <==> !b.threw && IsCounted(s, s.owner[s.pool.threads[b.t].job.task]))
  {
    assert TaskPool.ThreadOk(s.pool, b.t);
    if b.Finish? {
      TaskPool.RunningBelow(s.pool, b.t);
    }
  }

  /** What a client can do at its latch: wait when it has sent all its tasks, wake up
      spuriously while it sleeps, and look again whenever it is awake. */
  lemma LatchStepsAllowed<T>(progs: Programs<T>, mems: seq<seq<T>>, s: State<T>, j: nat)
    requires Inv(progs, mems, s) && j < |progs|
    ensures var w := s.calls[j].latch.waiters[0];
      && (Step(progs, s, LatchWait(j)).Some? <==>
        w.Free? && |s.calls[j].sent| == |progs[j]| && TaskPool.Idle(s.pool, Client(s, j)))
      && (Step(progs, s, LatchWake(j)).Some? <==> w.Asleep?)
      && (Step(progs, s, LatchRecheck(j)).Some? <==> w.Awake?)
  {
    assert CallOk(progs[j], mems[j], s.calls[j]);
  }

  // ---------------------------------------------------------------- no deadlock

  /** Some step other than a spurious wakeup is possible. */
  ghost predicate CanMove<T>(progs: Programs<T>, s: State<T>) {
    exists a :: !Spurious(a) && Step(progs, s, a).Some?
  }

  lemma MovesBy<T>(progs: Programs<T>, s: State<T>, a: Action)
    requires !Spurious(a) && Step(progs, s, a).Some?
    ensures CanMove(progs, s)
  {
  }

  lemma PoolMovesBy<T>(progs: Programs<T>, s: State<T>, b: TaskPool.Action)
    requires |progs| == |s.calls| <= |s.pool.threads|
    requires Allowed(progs, s, b) && TaskPool.Step(s.pool, b).Some? && !b.Wake?
    ensures CanMove(progs, s)
  {
    MovesBy(progs, s, Pool(b));
  }

  lemma NotifierMoves<T>(progs: Programs<T>, s: State<T>, t: nat)
    requires |progs| == |s.calls| <= |s.pool.threads| == |s.pool.q.pcs|
    requires t < |s.pool.q.pcs| && s.pool.q.pcs[t].Pushed?
    ensures CanMove(progs, s)
  {
    if i: nat :| i < |s.pool.q.pcs| && s.pool.q.pcs[i].Asleep? {
      PoolMovesBy(progs, s, TaskPool.NotifyOne(t, Some(i)));
    } else {
      assert Queue.Step(s.pool.q, Queue.NotifyOne(t, None)).Some?;
      PoolMovesBy(progs, s, TaskPool.NotifyOne(t, None));
    }
  }

  /** A client that is not asleep at its latch can always go on. */
  lemma ClientMoves<T>(progs: Programs<T>, mems: seq<seq<T>>, s: State<T>, j: nat)
    requires Inv(progs, mems, s) && j < |progs| && !Returned(s, j) && !s.calls[j].latch.waiters[0].Asleep?
    ensures CanMove(progs, s)
  {
    var t, c := Client(s, j), s.calls[j];
    assert TaskPool.ThreadOk(s.pool, t) && CallOk(progs[j], mems[j], c);
    if c.latch.waiters[0].Awake? {
      assert CallStep(progs[j], c, Look).Some?;
      MovesBy(progs, s, LatchRecheck(j));
    } else if s.pool.q.pcs[t].Pushed? {
      NotifierMoves(progs, s, t);
    } else if s.pool.threads[t].enq.Some? {
      PoolMovesBy(progs, s, TaskPool.Push(t));
    } else if |c.sent| < |progs[j]| {
      PoolMovesBy(progs, s, TaskPool.Increment(t));
    } else {
      assert CallStep(progs[j], c, Enter).Some?;
      MovesBy(progs, s, LatchWait(j));
    }
  }

  /** A worker that runs a task can go on with it. */
  lemma TaskMoves<T>(progs: Programs<T>, mems: seq<seq<T>>, s: State<T>, t: nat)
    requires Inv(progs, mems, s) && t < Workers(s) && s.pool.threads[t].job.Running?
    requires forall j :: 0 <= j < |progs| ==> Interleaving.InBounds(progs[j], |mems[j]|)
    ensures CanMove(progs, s)
  {
    TaskPool.RunningBelow(s.pool, t);
    var slot := s.owner[s.pool.threads[t].job.task];
    var j, k := slot.call, slot.task;
    var prog, c := progs[j], s.calls[j];
    assert SlotAt(s, t) == Some(slot) && CallOk(prog, mems[j], c);
    Interleaving.RunKeepsSound(prog, mems[j], c.sched, c.m);
    if c.m.pos[k] < |prog[k]| {
      assert CallStep(prog, c, Run(k)).Some?;
      MovesBy(progs, s, Body(t));
    } else if !c.counted[k] {
      assert CallStep(prog, c, Down(k)).Some?;
      MovesBy(progs, s, CountDown(t));
    } else {
      assert TaskPool.ThreadOk(s.pool, t) && IsCounted(s, slot);
      PoolMovesBy(progs, s, TaskPool.Finish(t, false));
    }
  }

  /** A worker that is not asleep on the queue can always go on. */
  lemma WorkerMoves<T>(progs: Programs<T>, mems: seq<seq<T>>, s: State<T>, t: nat)
    requires Inv(progs, mems, s) && t < Workers(s) && !s.pool.q.pcs[t].Asleep?
    requires forall j :: 0 <= j < |progs| ==> Interleaving.InBounds(progs[j], |mems[j]|)
    ensures CanMove(progs, s)
  {
    assert TaskPool.ThreadOk(s.pool, t);
    match s.pool.threads[t].job
    case Ready =>
      if s.pool.q.pcs[t].Out? {
        PoolMovesBy(progs, s, TaskPool.PopWait(t));
      } else {
        PoolMovesBy(progs, s, TaskPool.Recheck(t));
      }
    case Running(_) => TaskMoves(progs, mems, s, t);
    case Done(_) => PoolMovesBy(progs, s, TaskPool.Decrement(t));
    case Alert => PoolMovesBy(progs, s, TaskPool.AlertFlush(t));
  }

  /** Workers asleep and clients at rest. */
  ghost predicate AtRest(p: TaskPool.State, workers: nat) {
    && workers <= |p.threads| == |p.q.pcs|
    && (forall t :: 0 <= t < workers ==> p.q.pcs[t].Asleep?)
    && (forall t :: workers <= t < |p.threads| ==>
      p.q.pcs[t].Out? && p.threads[t].enq.None? && p.threads[t].job.External?)
  }

  lemma RestMeansNoWork(p: TaskPool.State, workers: nat)
    requires TaskPool.Inv(p) && workers > 0 && AtRest(p, workers)
    ensures p.q.container == []
    ensures Gather(TaskPool.CountedIds, p.threads) == multiset{} == Gather(TaskPool.RunningIds, p.threads)
  {
    assert p.q.pcs[0].Asleep?;
    SumZero(Queue.PushedWeight, p.q.pcs);
    SumZero(Queue.AwakeWeight, p.q.pcs);
    forall t | 0 <= t < |p.threads|
      ensures TaskPool.CountedIds(p.threads[t]) == multiset{} == TaskPool.RunningIds(p.threads[t])
    {
      assert TaskPool.ThreadOk(p, t);
    }
    GatherEmpty(TaskPool.CountedIds, p.threads);
    GatherEmpty(TaskPool.RunningIds, p.threads);
  }

  /** Then every task ever counted has finished. */
  lemma RestMeansFinished(p: TaskPool.State, d: nat)
    requires TaskPool.Inv(p) && p.q.container == [] && d < |p.parents|
    requires Gather(TaskPool.CountedIds, p.threads) == multiset{} == Gather(TaskPool.RunningIds, p.threads)
    ensures d in p.finished
  {
    assert Below(|p.parents|)[d] == 1;
    assert p.q.pushed == [] + p.q.pushed == p.q.popped + p.q.container == p.q.popped;
    assert multiset(p.finished)[d] == 1;
  }

  /** With the pool at rest no client can still wait for a task. */
  lemma RestWakesClients<T>(progs: Programs<T>, mems: seq<seq<T>>, s: State<T>, j: nat)
    requires Inv(progs, mems, s) && AtRest(s.pool, Workers(s)) && j < |progs|
    ensures !s.calls[j].latch.waiters[0].Asleep?
  {
    var c := s.calls[j];
    assert CallOk(progs[j], mems[j], c) && ClientOk(progs, s, j);
    if c.latch.waiters[0].Asleep? {
      var k := SumPositive(Open, c.counted);
      assert s.owner[c.sent[k]] == Slot(j, k);
      RestMeansNoWork(s.pool, Workers(s));
      RestMeansFinished(s.pool, c.sent[k]);
      assert false;
    }
  }

  /** Deadlock freedom: until every call has returned, some step other than a spurious wakeup
      is possible.  With the bound on runs, every schedule that goes on while it can, and
      suffers finitely many spurious wakeups, returns from all calls. */
  lemma NoDeadlock<T(!new)>(progs: Programs<T>, mems: seq<seq<T>>, workers: nat,
                            acts: seq<Action>, s: State<T>, j: nat)
    requires workers > 0 && |mems| == |progs| && Exec(Stepper(progs), Init(progs, mems, workers), acts) == Some(s)
    requires forall i :: 0 <= i < |progs| ==> Interleaving.InBounds(progs[i], |mems[i]|)
    requires j < |progs| && !Returned(s, j)
    ensures CanMove(progs, s)
  {
    RunKeepsInv(progs, mems, workers, acts, s);
    SomeoneMoves(progs, mems, s, j);
  }

  lemma SomeoneMoves<T>(progs: Programs<T>, mems: seq<seq<T>>, s: State<T>, j: nat)
    requires Inv(progs, mems, s) && j < |progs| && !Returned(s, j)
    requires forall i :: 0 <= i < |progs| ==> Interleaving.InBounds(progs[i], |mems[i]|)
    ensures CanMove(progs, s)
  {
    if i: nat :| i < |progs| && !Returned(s, i) && !s.calls[i].latch.waiters[0].Asleep? {
      ClientMoves(progs, mems, s, i);
    } else if t: nat :| t < Workers(s) && !s.pool.q.pcs[t].Asleep? {
      WorkerMoves(progs, mems, s, t);
    } else {
      ClientsRest(progs, mems, s);
      RestWakesClients(progs, mems, s, j);
      assert false;
    }
  }

  lemma ClientsRest<T>(progs: Programs<T>, mems: seq<seq<T>>, s: State<T>)
    requires Inv(progs, mems, s)
    requires forall i: nat :: i < |progs| ==> Returned(s, i) || s.calls[i].latch.waiters[0].Asleep?
    requires forall t: nat :: t < Workers(s) ==> s.pool.q.pcs[t].Asleep?
    ensures AtRest(s.pool, Workers(s))
  {
    forall t | Workers(s) <= t < |s.pool.threads|
      ensures s.pool.q.pcs[t].Out? && s.pool.threads[t].enq.None? && s.pool.threads[t].job.External?
    {
      var i := t - Workers(s);
      assert CallOk(progs[i], mems[i], s.calls[i]) && ClientOk(progs, s, i);
    }
  }
}
