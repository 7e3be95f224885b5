/** The thread-safe queue: a container and a `stopped` flag guarded by one mutex, with one
    condition variable.  One step is one critical section, one notify or one wakeup; the
    notify that follows a push or a stop is a step of its own. */
module Queue {
  import opened Runs
  import opened Sums

  /** Where a thread stands with respect to the queue. */
  datatype Pc =
    | Out                      // not inside a queue call
    | Pushed                   // pushed, `notify_one` still to come
    | Stopping                 // set `stopped`, `notify_all` still to come
    | Asleep(timed: bool)      // blocked on the condition variable
    | Awake(timed: bool)       // woken, predicate not yet evaluated again

  /** `pushed` and `popped` record all values in the order in which the mutex was taken. */
  datatype State<T> = State(container: seq<T>, stopped: bool, pcs: seq<Pc>,
                            pushed: seq<T>, popped: seq<T>)

  datatype Action<T> =
    | Push(t: nat, x: T)
    | NotifyOne(t: nat, woken: Option<nat>)
    | Pop(t: nat)
    | PopWait(t: nat, timed: bool)
    | Wake(t: nat)                         // a spurious wakeup, or the deadline of a timed wait
    | Recheck(t: nat, expired: bool)
    | Stop(t: nat)
    | NotifyAll(t: nat)

  /** What one critical section of a popping call gives its caller. */
  datatype Outcome<+T> = Got(value: T) | Nothing | Blocked

  predicate At<T>(s: State<T>, t: nat, pc: Pc) { t < |s.pcs| && s.pcs[t] == pc }

  /** Take the front element, or report that there is none. */
  function TakeFront<T>(s: State<T>, t: nat): (State<T>, Outcome<T>)
    requires t < |s.pcs|
  {
    if s.container == [] then (s.(pcs := s.pcs[t := Out]), Nothing)
    else (s.(container := s.container[1..], popped := s.popped + [s.container[0]], pcs := s.pcs[t := Out]),
          Got(s.container[0]))
  }

  /** One evaluation of the wait predicate under the mutex, and what follows it. */
  function Attempt<T>(s: State<T>, t: nat, timed: bool, expired: bool): (State<T>, Outcome<T>)
    requires t < |s.pcs|
  {
    if s.container != [] || s.stopped || expired then TakeFront(s, t)
    else (s.(pcs := s.pcs[t := Asleep(timed)]), Blocked)
  }

  function WakeAll(pcs: seq<Pc>): (r: seq<Pc>)
    ensures |r| == |pcs|
    ensures forall i :: 0 <= i < |pcs| ==> r[i] == if pcs[i].Asleep? then Awake(pcs[i].timed) else pcs[i]
  {
    seq(|pcs|, i requires 0 <= i < |pcs| => if pcs[i].Asleep? then Awake(pcs[i].timed) else pcs[i])
  }

  function Step<T>(s: State<T>, a: Action<T>): Option<State<T>> {
    match a
    case Push(t, x) =>
      if At(s, t, Out)
      then Some(s.(container := s.container + [x], pushed := s.pushed + [x], pcs := s.pcs[t := Pushed]))
      else None
    case NotifyOne(t, woken) =>
      if !At(s, t, Pushed) then None
      else if woken.None?
      then if forall i :: 0 <= i < |s.pcs| ==> !s.pcs[i].Asleep?
           then Some(s.(pcs := s.pcs[t := Out])) else None
      else if woken.value < |s.pcs| && s.pcs[woken.value].Asleep?
      then Some(s.(pcs := s.pcs[t := Out][woken.value := Awake(s.pcs[woken.value].timed)]))
      else None
    case Pop(t) => if At(s, t, Out) then Some(TakeFront(s, t).0) else None
    case PopWait(t, timed) => if At(s, t, Out) then Some(Attempt(s, t, timed, false).0) else None
    case Wake(t) =>
      if t < |s.pcs| && s.pcs[t].Asleep? then Some(s.(pcs := s.pcs[t := Awake(s.pcs[t].timed)])) else None
    case Recheck(t, expired) =>
      if t < |s.pcs| && s.pcs[t].Awake? && (expired ==> s.pcs[t].timed)
      then Some(Attempt(s, t, s.pcs[t].timed, expired).0) else None
    case Stop(t) =>
      if At(s, t, Out) then Some(s.(stopped := true, pcs := s.pcs[t := Stopping])) else None
    case NotifyAll(t) =>
      if At(s, t, Stopping) then Some(s.(pcs := WakeAll(s.pcs[t := Out]))) else None
  }

  function Init<T>(initial: seq<T>, n: nat): State<T> {
    State(initial, false, seq(n, _ => Out), [], [])
  }

  // ---------------------------------------------------------------- no lost wakeup

  function PushedWeight(pc: Pc): nat { if pc.Pushed? then 1 else 0 }
  function AwakeWeight(pc: Pc): nat { if pc.Awake? then 1 else 0 }
  function StoppingWeight(pc: Pc): nat { if pc.Stopping? then 1 else 0 }

  ghost predicate HasSleeper(pcs: seq<Pc>) { exists i :: 0 <= i < |pcs| && pcs[i].Asleep? }

  /** While some thread sleeps un-notified, every queued element is matched by a pending
      notify or a woken thread, and a stop still has its `notify_all` ahead of it. */
  ghost predicate NoLostWakeup<T>(s: State<T>) {
    HasSleeper(s.pcs) ==>
      && |s.container| <= Sum(PushedWeight, s.pcs) + Sum(AwakeWeight, s.pcs)
      && (s.stopped ==> Sum(StoppingWeight, s.pcs) > 0)
  }

  lemma MovePc(pcs: seq<Pc>, t: nat, pc: Pc)
    requires t < |pcs|
    ensures Sum(PushedWeight, pcs[t := pc]) + PushedWeight(pcs[t]) == Sum(PushedWeight, pcs) + PushedWeight(pc)
    ensures Sum(AwakeWeight, pcs[t := pc]) + AwakeWeight(pcs[t]) == Sum(AwakeWeight, pcs) + AwakeWeight(pc)
    ensures Sum(StoppingWeight, pcs[t := pc]) + StoppingWeight(pcs[t]) == Sum(StoppingWeight, pcs) + StoppingWeight(pc)
    ensures HasSleeper(pcs[t := pc]) ==> HasSleeper(pcs) || pc.Asleep?
  {
    SumUpdate(PushedWeight, pcs, t, pc);
    SumUpdate(AwakeWeight, pcs, t, pc);
    SumUpdate(StoppingWeight, pcs, t, pc);
    var u := pcs[t := pc];
    if i :| 0 <= i < |u| && u[i].Asleep? {
      assert i != t ==> pcs[i].Asleep?;
    }
  }

  lemma NotifyKeepsWakeups<T>(s: State<T>, t: nat, woken: Option<nat>)
    requires NoLostWakeup(s) && Step(s, NotifyOne(t, woken)).Some?
    ensures NoLostWakeup(Step(s, NotifyOne(t, woken)).value)
  {
    MovePc(s.pcs, t, Out);
    if woken.Some? {
      MovePc(s.pcs[t := Out], woken.value, Awake(s.pcs[woken.value].timed));
    }
  }

  lemma AttemptKeepsWakeups<T>(s: State<T>, t: nat, timed: bool, expired: bool)
    requires NoLostWakeup(s) && t < |s.pcs| && (s.pcs[t].Out? || s.pcs[t].Awake?)
    ensures NoLostWakeup(Attempt(s, t, timed, expired).0)
  {
    MovePc(s.pcs, t, Attempt(s, t, timed, expired).0.pcs[t]);
  }

  /** Every step, of whatever kind and by whatever thread, keeps the wakeup invariant. */
  lemma StepKeepsWakeups<T>(s: State<T>, a: Action<T>)
    requires NoLostWakeup(s) && Step(s, a).Some?
    ensures NoLostWakeup(Step(s, a).value)
  {
    var s' := Step(s, a).value;
    match a
    case Push(t, x) => MovePc(s.pcs, t, Pushed);
    case NotifyOne(t, woken) => NotifyKeepsWakeups(s, t, woken);
    case Pop(t) => MovePc(s.pcs, t, Out);
    case PopWait(t, timed) => AttemptKeepsWakeups(s, t, timed, false);
    case Wake(t) => MovePc(s.pcs, t, s'.pcs[t]);
    case Recheck(t, expired) => AttemptKeepsWakeups(s, t, s.pcs[t].timed, expired);
    case Stop(t) =>
      MovePc(s.pcs, t, Stopping);
      SumAtLeast(StoppingWeight, s'.pcs, t);
    case NotifyAll(t) =>
      assert !HasSleeper(s'.pcs);
  }

  /** No lost wakeup, over every run of any mix of the operations by any number of threads. */
  lemma NoWakeupIsLost<T(!new)>(initial: seq<T>, n: nat, acts: seq<Action<T>>, s: State<T>)
    requires Exec(Step, Init(initial, n), acts) == Some(s)
    ensures NoLostWakeup(s)
  {
    forall s: State<T>, a | NoLostWakeup(s) && Step(s, a).Some? ensures NoLostWakeup(Step(s, a).value) {
      StepKeepsWakeups(s, a);
    }
    assert NoLostWakeup(Init(initial, n));
    assert Preserves(Step, s => NoLostWakeup<T>(s));
    InvariantOfRuns(Step, s => NoLostWakeup<T>(s), Init(initial, n), acts);
  }

  /** With no notify pending and no woken thread still to look, a sleeper means that the
      queue is empty and not stopped. */
  lemma QuietSleepersAreRight<T(!new)>(initial: seq<T>, n: nat, acts: seq<Action<T>>, s: State<T>)
    requires Exec(Step, Init(initial, n), acts) == Some(s)
    requires forall i :: 0 <= i < |s.pcs| ==> s.pcs[i].Out? || s.pcs[i].Asleep?
    requires HasSleeper(s.pcs)
    ensures s.container == [] && !s.stopped
  {
    NoWakeupIsLost(initial, n, acts, s);
    SumZero(PushedWeight, s.pcs);
    SumZero(AwakeWeight, s.pcs);
    SumZero(StoppingWeight, s.pcs);
  }

  // ---------------------------------------------------------------- linearizability

  /** The operations of a sequential first-in first-out queue, with their results. */
  datatype FifoOp<T> = Enqueue(x: T) | Dequeue(x: T) | FoundEmpty | Internal

  function FifoStep<T(==)>(contents: seq<T>, op: FifoOp<T>): Option<seq<T>> {
    match op
    case Enqueue(x) => Some(contents + [x])
    case Dequeue(x) => if contents != [] && contents[0] == x then Some(contents[1..]) else None
    case FoundEmpty => if contents == [] then Some(contents) else None
    case Internal => Some(contents)
  }

  function OutcomeOp<T>(o: Outcome<T>): FifoOp<T> {
    match o
    case Got(x) => Dequeue(x)
    case Nothing => FoundEmpty
    case Blocked => Internal
  }

  /** The sequential operation, with the result its caller sees, that a step performs. */
  function Op<T>(s: State<T>, a: Action<T>): FifoOp<T>
    requires Step(s, a).Some?
  {
    match a
    case Push(t, x) => Enqueue(x)
    case Pop(t) => OutcomeOp(TakeFront(s, t).1)
    case PopWait(t, timed) => OutcomeOp(Attempt(s, t, timed, false).1)
    case Recheck(t, expired) => OutcomeOp(Attempt(s, t, s.pcs[t].timed, expired).1)
    case _ => Internal
  }

  ghost function Ops<T>(s: State<T>, acts: seq<Action<T>>): seq<FifoOp<T>>
    requires Exec(Step, s, acts).Some?
    decreases |acts|
  {
    if acts == [] then []
    else
      var m := Exec(Step, s, acts[..|acts| - 1]).value;
      Ops(s, acts[..|acts| - 1]) + [Op(m, acts[|acts| - 1])]
  }

  function Enqueued<T>(op: FifoOp<T>): seq<T> { if op.Enqueue? then [op.x] else [] }

  function Dequeued<T>(op: FifoOp<T>): seq<T> { if op.Dequeue? then [op.x] else [] }

  function Values<T>(f: FifoOp<T> -> seq<T>, ops: seq<FifoOp<T>>): seq<T> {
    if ops == [] then [] else Values(f, ops[..|ops| - 1]) + f(ops[|ops| - 1])
  }

  /** One step refines one operation of the sequential queue. */
  lemma StepRefinesFifo<T>(s: State<T>, a: Action<T>)
    requires Step(s, a).Some?
    ensures var op, s' := Op(s, a), Step(s, a).value;
      && FifoStep(s.container, op) == Some(s'.container)
      && s'.pushed == s.pushed + Enqueued(op)
      && s'.popped == s.popped + Dequeued(op)
  {
  }

  /** Every interleaving refines the sequential queue: performing the operations in the order
      in which they took the mutex is a legal sequential history with the same results,
      and it ends with the same contents.  The logs are the values of that history. */
  lemma {:induction false} Linearizable<T(!new)>(s0: State<T>, acts: seq<Action<T>>, s: State<T>)
    requires Exec(Step, s0, acts) == Some(s)
    ensures Exec(FifoStep, s0.container, Ops(s0, acts)) == Some(s.container)
    ensures s.pushed == s0.pushed + Values(Enqueued, Ops(s0, acts))
    ensures s.popped == s0.popped + Values(Dequeued, Ops(s0, acts))
    decreases |acts|
  {
    if acts != [] {
      var before := acts[..|acts| - 1];
      var m := Exec(Step, s0, before).value;
      Linearizable(s0, before, m);
      StepRefinesFifo(m, acts[|acts| - 1]);
      var ops, op := Ops(s0, acts), Op(m, acts[|acts| - 1]);
      assert ops[..|ops| - 1] == Ops(s0, before) && ops[|ops| - 1] == op;
    }
  }

  ghost predicate Fifo<T>(initial: seq<T>, s: State<T>) {
    initial + s.pushed == s.popped + s.container
  }

  lemma StepKeepsFifo<T>(initial: seq<T>, s: State<T>, a: Action<T>)
    requires Fifo(initial, s) && Step(s, a).Some?
    ensures Fifo(initial, Step(s, a).value)
  {
    var s' := Step(s, a).value;
    if a.Push? {
      assert initial + s'.pushed == (initial + s.pushed) + [a.x];
      assert s'.popped + s'.container == (s.popped + s.container) + [a.x];
    } else if s'.container != s.container {
      assert s.container == [s.container[0]] + s'.container;
      assert s'.popped + s'.container == s.popped + s.container;
    }
  }

  /** Nothing is lost, duplicated or reordered: the initial contents followed by all pushed
      values are the popped values followed by the container. */
  lemma FirstInFirstOut<T(!new)>(initial: seq<T>, n: nat, acts: seq<Action<T>>, s: State<T>)
    requires Exec(Step, Init(initial, n), acts) == Some(s)
    ensures initial + s.pushed == s.popped + s.container
  {
    forall s: State<T>, a | Fifo(initial, s) && Step(s, a).Some? ensures Fifo(initial, Step(s, a).value) {
      StepKeepsFifo(initial, s, a);
    }
    assert Fifo(initial, Init(initial, n));
    assert Preserves(Step, s => Fifo<T>(initial, s));
    InvariantOfRuns(Step, s => Fifo<T>(initial, s), Init(initial, n), acts);
  }

  // ---------------------------------------------------------------- stops and deadlines

  lemma StepStops<T>(s: State<T>, a: Action<T>)
    requires Step(s, a).Some?
    ensures Step(s, a).value.stopped <==> s.stopped || a.Stop?
  {
  }

  ghost predicate HasStop<T>(acts: seq<Action<T>>) { exists i :: 0 <= i < |acts| && acts[i].Stop? }

  lemma StopSnoc<T>(acts: seq<Action<T>>)
    requires acts != []
    ensures HasStop(acts) <==> HasStop(acts[..|acts| - 1]) || acts[|acts| - 1].Stop?
  {
    var front := acts[..|acts| - 1];
    assert forall i :: 0 <= i < |front| ==> front[i] == acts[i];
  }

  /** The flag is up exactly when some `stop` has taken the mutex. */
  lemma {:induction false} StoppedExactly<T(!new)>(initial: seq<T>, n: nat, acts: seq<Action<T>>, s: State<T>)
    requires Exec(Step, Init(initial, n), acts) == Some(s)
    ensures s.stopped <==> exists i :: 0 <= i < |acts| && acts[i].Stop?
    decreases |acts|
  {
    if acts != [] {
      var front := acts[..|acts| - 1];
      var m := Exec(Step, Init(initial, n), front).value;
      StoppedExactly(initial, n, front, m);
      StepStops(m, acts[|acts| - 1]);
      StopSnoc(acts);
      assert s.stopped <==> HasStop(acts);
    }
  }

  /** One evaluation of the wait predicate takes the front if there is one; otherwise it comes
      back empty-handed exactly from a stopped queue or after the deadline, and sleeps again
      exactly if there was neither. */
  lemma WaitOutcome<T>(s: State<T>, t: nat, timed: bool, expired: bool)
    requires t < |s.pcs|
    ensures var (s', o) := Attempt(s, t, timed, expired);
      && (o.Got? <==> s.container != [])
      && (o.Got? ==> [o.value] + s'.container == s.container)
      && (!o.Got? ==> s'.container == s.container)
      && (o == Nothing <==> s.container == [] && (s.stopped || expired))
      && (o == Blocked <==> s.container == [] && !s.stopped && !expired)
      && s'.pcs == s.pcs[t := if o.Blocked? then Asleep(timed) else Out]
  {
  }

  /** Whether the last wait that thread `t` has begun has a deadline. */
  function LastWait<T>(acts: seq<Action<T>>, t: nat): bool {
    if acts == [] then false
    else
      var a := acts[|acts| - 1];
      if a.PopWait? && a.t == t then a.timed else LastWait(acts[..|acts| - 1], t)
  }

  predicate Waiting(pc: Pc) { pc.Asleep? || pc.Awake? }

  lemma StepKeepsKind<T>(s: State<T>, a: Action<T>, t: nat)
    requires Step(s, a).Some? && t < |s.pcs|
    ensures var s' := Step(s, a).value;
      |s'.pcs| == |s.pcs| &&
      (Waiting(s'.pcs[t]) ==>
        if a.PopWait? && a.t == t then s'.pcs[t].timed == a.timed
        else Waiting(s.pcs[t]) && s'.pcs[t].timed == s.pcs[t].timed)
  {
  }

  /** A thread waits with a deadline exactly if its call has one, however it was woken. */
  lemma {:induction false} WaitsKeepTheirKind<T(!new)>(
    initial: seq<T>, n: nat, acts: seq<Action<T>>, s: State<T>, t: nat)
    requires Exec(Step, Init(initial, n), acts) == Some(s) && t < n
    ensures |s.pcs| == n && (Waiting(s.pcs[t]) ==> s.pcs[t].timed == LastWait(acts, t))
    decreases |acts|
  {
    if acts != [] {
      var m := Exec(Step, Init(initial, n), acts[..|acts| - 1]).value;
      WaitsKeepTheirKind(initial, n, acts[..|acts| - 1], m, t);
      StepKeepsKind(m, acts[|acts| - 1], t);
    }
  }

  /** A timed wait ends.  A thread asleep in one may wake at any moment, and once awake its
      deadline may have passed; its call is then over, with the front element if there is one
      and with nothing otherwise.  Without a deadline no wakeup can pass for one. */
  lemma TimedWaitEnds<T(!new)>(initial: seq<T>, n: nat, acts: seq<Action<T>>, s: State<T>, t: nat)
    requires Exec(Step, Init(initial, n), acts) == Some(s) && t < n
    ensures |s.pcs| == n
    ensures s.pcs[t].Asleep? ==> Step(s, Wake(t)).Some? && Step(s, Wake(t)).value.pcs[t].Awake?
    ensures s.pcs[t].Awake? ==>
      && (Step(s, Recheck(t, true)).Some? <==> LastWait(acts, t))
      && (LastWait(acts, t) ==>
        var s' := Step(s, Recheck(t, true)).value;
        && s'.pcs[t].Out?
        && Op(s, Recheck(t, true)) == if s.container == [] then FoundEmpty else Dequeue(s.container[0]))
  {
    WaitsKeepTheirKind(initial, n, acts, s, t);
  }

  // ---------------------------------------------------------------- the class

  /** The queue object.  Each method is one atomic section of a member function; `pcs` is the
      condition variable's wait set together with the notifies still to come. */
  class Monitor<T(==)> {
    var container: seq<T>
    var stopped: bool
    var pcs: seq<Pc>
    ghost var pushed: seq<T>
    ghost var popped: seq<T>

    ghost function View(): State<T>
      reads this
    {
      State(container, stopped, pcs, pushed, popped)
    }

    constructor (initial: seq<T>, n: nat)
      ensures View() == Init(initial, n)
      ensures container == initial && !stopped && |pcs| == n && forall t :: 0 <= t < n ==> pcs[t].Out?
      ensures pushed == popped == []
    {
      container, stopped, pcs := initial, false, seq(n, _ => Out);
      pushed, popped := [], [];
    }

    method Push(t: nat, x: T)
      requires t < |pcs| && pcs[t].Out?
      modifies this`container, this`pcs, this`pushed
      ensures Step(old(View()), Action.Push(t, x)) == Some(View())
      ensures container == old(container) + [x] && pcs == old(pcs)[t := Pushed]
    {
      container, pushed := container + [x], pushed + [x];
      pcs := pcs[t := Pushed];
    }

    /** Wakes one sleeper if there is one; which one is the condition variable's choice. */
    method NotifyOne(t: nat) returns (woken: Option<nat>)
      requires t < |pcs| && pcs[t].Pushed?
      modifies this`pcs
      ensures Step(old(View()), Action.NotifyOne(t, woken)) == Some(View())
      ensures woken.None? ==> pcs == old(pcs)[t := Out] && forall i :: 0 <= i < |pcs| ==> !old(pcs)[i].Asleep?
      ensures woken.Some? ==> woken.value < |pcs| && old(pcs)[woken.value].Asleep?
      ensures woken.Some? ==> pcs == old(pcs)[t := Out][woken.value := Awake(old(pcs)[woken.value].timed)]
    {
      pcs := pcs[t := Out];
      if i: nat :| i < |pcs| && pcs[i].Asleep? {
        woken := Some(i);
        pcs := pcs[i := Awake(pcs[i].timed)];
      } else {
        woken := None;
        assert forall i :: 0 <= i < |pcs| ==> !old(pcs)[i].Asleep? by {
          forall i: nat | i < |pcs| ensures !old(pcs)[i].Asleep? {
            assert !pcs[i].Asleep?;
          }
        }
      }
    }

    method Pop(t: nat) returns (r: Option<T>)
      requires t < |pcs| && pcs[t].Out?
      modifies this`container, this`popped
      ensures Step(old(View()), Action.Pop(t)) == Some(View())
      ensures r == if old(container) == [] then None else Some(old(container)[0])
      ensures container == if old(container) == [] then [] else old(container)[1..]
    {
      if container != [] {
        r := Some(container[0]);
        popped := popped + [container[0]];
        container := container[1..];
      } else {
        r := None;
      }
      assert pcs[t := Out] == pcs;
    }

    method Evaluate(t: nat, timed: bool, expired: bool) returns (r: Outcome<T>)
      requires t < |pcs|
      modifies this`container, this`pcs, this`popped
      ensures (View(), r) == Attempt(old(View()), t, timed, expired)
      ensures r == if old(container) != [] then Got(old(container)[0])
                   else if stopped || expired then Nothing else Blocked
      ensures container == if old(container) == [] then [] else old(container)[1..]
      ensures pcs == old(pcs)[t := if r.Blocked? then Asleep(timed) else Out]
    {
      if container == [] && !stopped && !expired {
        pcs := pcs[t := Asleep(timed)];
        return Blocked;
      }
      pcs := pcs[t := Out];
      if container == [] {
        return Nothing;
      }
      r := Got(container[0]);
      popped := popped + [container[0]];
      container := container[1..];
    }

    /** Lock, evaluate the predicate for the first time, and pop, give up or block. */
    method PopWait(t: nat, timed: bool) returns (r: Outcome<T>)
      requires t < |pcs| && pcs[t].Out?
      modifies this`container, this`pcs, this`popped
      ensures Step(old(View()), Action.PopWait(t, timed)) == Some(View())
      ensures r == if old(container) != [] then Got(old(container)[0]) else if stopped then Nothing else Blocked
      ensures container == if old(container) == [] then [] else old(container)[1..]
      ensures pcs == old(pcs)[t := if r.Blocked? then Asleep(timed) else Out]
    {
      r := Evaluate(t, timed, false);
    }

    /** A woken waiter takes the mutex again and evaluates the predicate again. */
    method Recheck(t: nat, expired: bool) returns (r: Outcome<T>)
      requires t < |pcs| && pcs[t].Awake? && (expired ==> pcs[t].timed)
      modifies this`container, this`pcs, this`popped
      ensures Step(old(View()), Action.Recheck(t, expired)) == Some(View())
      ensures r == if old(container) != [] then Got(old(container)[0])
                   else if stopped || expired then Nothing else Blocked
      ensures container == if old(container) == [] then [] else old(container)[1..]
      ensures pcs == old(pcs)[t := if r.Blocked? then Asleep(old(pcs)[t].timed) else Out]
    {
      r := Evaluate(t, pcs[t].timed, expired);
    }

    method Wake(t: nat)
      requires t < |pcs| && pcs[t].Asleep?
      modifies this`pcs
      ensures Step(old(View()), Action.Wake(t)) == Some(View())
      ensures pcs == old(pcs)[t := Awake(old(pcs)[t].timed)]
    {
      pcs := pcs[t := Awake(pcs[t].timed)];
    }

    method Stop(t: nat)
      requires t < |pcs| && pcs[t].Out?
      modifies this`stopped, this`pcs
      ensures Step(old(View()), Action.Stop(t)) == Some(View())
      ensures stopped && pcs == old(pcs)[t := Stopping]
    {
      stopped := true;
      pcs := pcs[t := Stopping];
    }

    method NotifyAll(t: nat)
      requires t < |pcs| && pcs[t].Stopping?
      modifies this`pcs
      ensures Step(old(View()), Action.NotifyAll(t)) == Some(View())
      ensures |pcs| == |old(pcs)| && pcs[t].Out?
      ensures forall i :: 0 <= i < |pcs| && i != t ==>
        pcs[i] == if old(pcs)[i].Asleep? then Awake(old(pcs)[i].timed) else old(pcs)[i]
    {
      pcs := WakeAll(pcs[t := Out]);
    }
  }
}
