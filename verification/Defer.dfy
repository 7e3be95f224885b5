/** One thread's two ways to postpone work: `defer` with `catch_up`, which runs until nothing
    is left or a task throws, and `delay` with `sync_point`, which runs one batch and hands
    exceptions to the handler.  A task is a finite tree: when it runs it postpones its spawns,
    in order, and then returns or throws.  Tasks do not nest these calls. */
module Defer {
  import opened Runs

  /** `spawns` are the tasks it postpones until it returns or throws. */
  datatype Task = Task(id: nat, spawns: seq<Task>, throws: bool)

  /** The number of tasks in a forest. */
  function Size(f: seq<Task>): nat
    decreases f
  {
    if f == [] then 0 else 1 + Size(f[0].spawns) + Size(f[1..])
  }

  function Children(f: seq<Task>): seq<Task> { if f == [] then [] else f[0].spawns + Children(f[1..]) }

  /** All tasks of a forest, each before its spawns. */
  function Preorder(f: seq<Task>): seq<Task>
    decreases f
  {
    if f == [] then [] else [f[0]] + Preorder(f[0].spawns) + Preorder(f[1..])
  }

  lemma {:induction false} SizeConcat(f: seq<Task>, g: seq<Task>)
    ensures Size(f + g) == Size(f) + Size(g)
    decreases |f|
  {
    if f == [] {
      assert f + g == g;
    } else {
      assert (f + g)[1..] == f[1..] + g;
      SizeConcat(f[1..], g);
    }
  }

  lemma {:induction false} SizeOfChildren(f: seq<Task>)
    ensures Size(f) == |f| + Size(Children(f))
    decreases |f|
  {
    if f != [] {
      SizeOfChildren(f[1..]);
      SizeConcat(f[0].spawns, Children(f[1..]));
    }
  }

  /** The tasks of depth `d`, from left to right. */
  function Level(f: seq<Task>, d: nat): seq<Task>
    decreases d
  {
    if d == 0 then f else Level(Children(f), d - 1)
  }

  /** Breadth first: the forest's roots, then their children, and so on. */
  function LevelOrder(f: seq<Task>): seq<Task>
    decreases Size(f)
  {
    if f == [] then []
    else
      SizeOfChildren(f);
      f + LevelOrder(Children(f))
  }

  /** The first `d` levels. */
  function UpToLevel(f: seq<Task>, d: nat): seq<Task> {
    if d == 0 then [] else UpToLevel(f, d - 1) + Level(f, d - 1)
  }

  lemma {:induction false} NextLevel(f: seq<Task>, d: nat)
    ensures Level(f, d + 1) == Children(Level(f, d))
    decreases d
  {
    if d > 0 {
      NextLevel(Children(f), d - 1);
    }
  }

  lemma RunOneLevel(ran: seq<Task>, f: seq<Task>)
    ensures ran + LevelOrder(f) == (ran + f) + LevelOrder(Children(f))
    ensures f != [] ==> Size(Children(f)) < Size(f)
  {
    SizeOfChildren(f);
  }

  /** Level order is order of depth: for every depth, all tasks above it come first, and those
      at it and below follow in level order. */
  lemma {:induction false} LevelOrderIsByDepth(f: seq<Task>, d: nat)
    ensures LevelOrder(f) == UpToLevel(f, d) + LevelOrder(Level(f, d))
    decreases d
  {
    if d > 0 {
      LevelOrderIsByDepth(f, d - 1);
      NextLevel(f, d - 1);
      RunOneLevel(UpToLevel(f, d - 1), Level(f, d - 1));
    }
  }

  lemma {:induction false} PreorderConcat(f: seq<Task>, g: seq<Task>)
    ensures Preorder(f + g) == Preorder(f) + Preorder(g)
    decreases |f|
  {
    if f == [] {
      assert f + g == g;
    } else {
      assert (f + g)[1..] == f[1..] + g;
      PreorderConcat(f[1..], g);
      assert [f[0]] + Preorder(f[0].spawns) + (Preorder(f[1..]) + Preorder(g))
          == ([f[0]] + Preorder(f[0].spawns) + Preorder(f[1..])) + Preorder(g);
    }
  }

  lemma {:induction false} PreorderOfLevel(f: seq<Task>)
    ensures multiset(Preorder(f)) == multiset(f) + multiset(Preorder(Children(f)))
    decreases |f|
  {
    if f != [] {
      assert f == [f[0]] + f[1..];
      PreorderOfLevel(f[1..]);
      PreorderConcat(f[0].spawns, Children(f[1..]));
    }
  }

  /** Every task of the forest occurs in level order, and only once for each time it occurs
      in the forest. */
  lemma {:induction false} LevelOrderIsComplete(f: seq<Task>)
    ensures multiset(LevelOrder(f)) == multiset(Preorder(f))
    decreases Size(f)
  {
    if f != [] {
      SizeOfChildren(f);
      LevelOrderIsComplete(Children(f));
      PreorderOfLevel(f);
    }
  }

  // ---------------------------------------------------------------- the two disciplines

  /** What a first-in first-out queue of tasks runs until it is empty. */
  function QueueOrder(q: seq<Task>): seq<Task>
    decreases Size(q)
  {
    if q == [] then []
    else
      SizeConcat(q[1..], q[0].spawns);
      [q[0]] + QueueOrder(q[1..] + q[0].spawns)
  }

  /** Running the tasks of `f` leaves the rest of the queue followed by their spawns. */
  lemma {:induction false} QueueOrderOfPrefix(f: seq<Task>, g: seq<Task>)
    ensures QueueOrder(f + g) == f + QueueOrder(g + Children(f))
    decreases |f|
  {
    if f == [] {
      assert f + g == g && g + Children(f) == g;
      assert [] + QueueOrder(g) == QueueOrder(g);
    } else {
      var t := f[0];
      assert (f + g)[1..] + t.spawns == f[1..] + (g + t.spawns);
      QueueOrderOfPrefix(f[1..], g + t.spawns);
      assert (g + t.spawns) + Children(f[1..]) == g + Children(f);
      assert [t] + (f[1..] + QueueOrder(g + Children(f))) == f + QueueOrder(g + Children(f));
    }
  }

  /** The queue runs its tasks breadth first. */
  lemma {:induction false} QueueOrderIsLevelOrder(f: seq<Task>)
    ensures QueueOrder(f) == LevelOrder(f)
    decreases Size(f)
  {
    if f != [] {
      SizeOfChildren(f);
      QueueOrderOfPrefix(f, []);
      assert f + [] == f && [] + Children(f) == Children(f);
      QueueOrderIsLevelOrder(Children(f));
    }
  }

  lemma {:induction false} ChildrenConcat(f: seq<Task>, g: seq<Task>)
    ensures Children(f + g) == Children(f) + Children(g)
    decreases |f|
  {
    if f == [] {
      assert f + g == g;
    } else {
      assert (f + g)[1..] == f[1..] + g;
      ChildrenConcat(f[1..], g);
    }
  }

  // ---------------------------------------------------------------- exceptions

  /** Those that throw, in order. */
  function Throwing(f: seq<Task>): seq<Task> {
    if f == [] then [] else Throwing(f[..|f| - 1]) + if f[|f| - 1].throws then [f[|f| - 1]] else []
  }

  predicate SomeThrow(f: seq<Task>) { exists task :: task in f && task.throws }

  lemma {:induction false} ThrowingConcat(f: seq<Task>, g: seq<Task>)
    ensures Throwing(f + g) == Throwing(f) + Throwing(g)
    decreases |g|
  {
    if g == [] {
      assert f + g == f;
    } else {
      assert (f + g)[..|f + g| - 1] == f + g[..|g| - 1];
      ThrowingConcat(f, g[..|g| - 1]);
    }
  }

  /** `Throwing` picks the tasks that throw, in order: those of a joined sequence are those of
      the first part and then those of the second, and a task is its own pick if it throws. */
  lemma ThrowingIsExact(f: seq<Task>, g: seq<Task>, t: Task)
    ensures Throwing(f + g) == Throwing(f) + Throwing(g)
    ensures Throwing([t]) == if t.throws then [t] else []
  {
    ThrowingConcat(f, g);
    assert [t][..0] == [];
  }

  lemma OneMoreDelayed(log: seq<Task>, handled: seq<Task>, batch: seq<Task>, i: nat)
    requires i < |batch|
    ensures (log + batch[..i]) + [batch[i]] == log + batch[..i + 1]
    ensures Children(batch[..i]) + batch[i].spawns == Children(batch[..i + 1])
    ensures (handled + Throwing(batch[..i])) + (if batch[i].throws then [batch[i]] else [])
         == handled + Throwing(batch[..i + 1])
  {
    assert batch[..i + 1] == batch[..i] + [batch[i]] && batch[..i + 1][..i] == batch[..i];
    ChildrenConcat(batch[..i], [batch[i]]);
  }

  lemma OneMoreLevel(log: seq<Task>, handled: seq<Task>, f: seq<Task>, d: nat)
    ensures (log + UpToLevel(f, d)) + Level(f, d) == log + UpToLevel(f, d + 1)
    ensures (handled + Throwing(UpToLevel(f, d))) + Throwing(Level(f, d)) == handled + Throwing(UpToLevel(f, d + 1))
    ensures Children(Level(f, d)) == Level(f, d + 1)
  {
    NextLevel(f, d);
    ThrowingConcat(UpToLevel(f, d), Level(f, d));
    assert UpToLevel(f, d + 1) == UpToLevel(f, d) + Level(f, d);
  }

  /** The tasks that run until one of them throws, that one included. */
  function UntilThrow(f: seq<Task>): (r: seq<Task>)
    ensures r <= f
  {
    if f == [] then [] else if f[0].throws then [f[0]] else [f[0]] + UntilThrow(f[1..])
  }

  /** `UntilThrow` stops after the first task that throws, or not at all. */
  lemma {:induction false} UntilThrowIsExact(f: seq<Task>)
    ensures var r := UntilThrow(f);
      && (forall i :: 0 <= i < |r| - 1 ==> !r[i].throws)
      && (r == f || (r != [] && r[|r| - 1].throws))
      && (f == [] || r != [])
    decreases |f|
  {
    if f != [] {
      UntilThrowIsExact(f[1..]);
    }
  }

  lemma {:induction false} FirstThrow(ran: seq<Task>, task: Task, rest: seq<Task>)
    requires task.throws && !SomeThrow(ran)
    ensures UntilThrow(ran + ([task] + rest)) == ran + [task]
    decreases |ran|
  {
    var f := ran + ([task] + rest);
    if ran == [] {
      assert f[0] == task;
    } else {
      assert f[0] == ran[0] && f[1..] == ran[1..] + ([task] + rest);
      FirstThrow(ran[1..], task, rest);
    }
  }

  lemma {:induction false} NoneThrows(ran: seq<Task>)
    requires !SomeThrow(ran)
    ensures UntilThrow(ran) == ran
    decreases |ran|
  {
    if ran != [] {
      NoneThrows(ran[1..]);
    }
  }

  /** With `ran` logged after `log`, the queue `start` has come down to `q`, and no task that
      has run has thrown. */
  ghost predicate HaveRun(log: seq<Task>, start: seq<Task>, ran: seq<Task>, q: seq<Task>) {
    (log + ran) + LevelOrder(q) == log + LevelOrder(start) && !SomeThrow(ran)
  }

  /** The last task of `ran` has thrown, and `q` is left. */
  ghost predicate Stopped(log: seq<Task>, start: seq<Task>, ran: seq<Task>, q: seq<Task>) {
    && ran == UntilThrow(LevelOrder(start))
    && (log + ran) + LevelOrder(q) == log + LevelOrder(start)
    && SomeThrow(LevelOrder(start))
  }

  lemma RunFirst(log: seq<Task>, q: seq<Task>)
    requires q != []
    ensures log + LevelOrder(q) == (log + [q[0]]) + LevelOrder(q[1..] + q[0].spawns)
    ensures Size(q[1..] + q[0].spawns) < Size(q)
  {
    var rest := q[1..] + q[0].spawns;
    SizeConcat(q[1..], q[0].spawns);
    QueueOrderIsLevelOrder(q);
    QueueOrderIsLevelOrder(rest);
    assert log + ([q[0]] + QueueOrder(rest)) == (log + [q[0]]) + QueueOrder(rest);
  }

  lemma SameAfter(log: seq<Task>, f: seq<Task>, g: seq<Task>)
    requires log + f == log + g
    ensures f == g
  {
    assert (log + f)[|log|..] == f && (log + g)[|log|..] == g;
  }

  lemma StopsAt(log: seq<Task>, all: seq<Task>, ran: seq<Task>, task: Task, rest: seq<Task>)
    requires ((log + ran) + [task]) + rest == log + all && task.throws && !SomeThrow(ran)
    ensures ran + [task] == UntilThrow(all) && SomeThrow(all)
  {
    assert ((log + ran) + [task]) + rest == log + (ran + ([task] + rest));
    SameAfter(log, all, ran + ([task] + rest));
    FirstThrow(ran, task, rest);
    assert task in all;
  }

  lemma GoesOn(log: seq<Task>, start: seq<Task>, ran: seq<Task>, q: seq<Task>)
    requires HaveRun(log, start, ran, q) && q != []
    ensures (log + ran) + [q[0]] == log + (ran + [q[0]])
    ensures Size(q[1..] + q[0].spawns) < Size(q)
    ensures if q[0].throws then Stopped(log, start, ran + [q[0]], q[1..] + q[0].spawns)
            else HaveRun(log, start, ran + [q[0]], q[1..] + q[0].spawns)
  {
    RunFirst(log + ran, q);
    assert (log + ran) + [q[0]] == log + (ran + [q[0]]);
    if q[0].throws {
      StopsAt(log, LevelOrder(start), ran, q[0], LevelOrder(q[1..] + q[0].spawns));
    }
  }

  lemma RunsAll(log: seq<Task>, start: seq<Task>, ran: seq<Task>)
    requires HaveRun(log, start, ran, [])
    ensures UntilThrow(LevelOrder(start)) == ran == LevelOrder(start) && !SomeThrow(ran)
  {
    assert (log + ran) + [] == log + ran;
    SameAfter(log, ran, LevelOrder(start));
    NoneThrows(ran);
  }

  datatype Result = Ok | InvalidArgument

  /** How `catch_up` ends. */
  datatype Outcome = Returned(workDone: bool) | Threw

  /** The thread's deferred and delayed tasks; `log` lists the tasks it has run, and `handled`
      those of them whose exceptions went to the handler. */
  class Thread {
    var scheduler: seq<Task>
    var delayed: seq<Task>
    ghost var log: seq<Task>
    ghost var handled: seq<Task>

    constructor ()
      ensures scheduler == [] && delayed == [] && log == [] && handled == []
    {
      scheduler, delayed, log, handled := [], [], [], [];
    }

    /** `None` is an empty function, which is refused. */
    method Defer(fun: Option<Task>) returns (r: Result)
      modifies this`scheduler
      ensures r == if fun.None? then InvalidArgument else Ok
      ensures scheduler == if fun.None? then old(scheduler) else old(scheduler) + [fun.value]
    {
      if fun.None? {
        return InvalidArgument;
      }
      scheduler := scheduler + [fun.value];
      r := Ok;
    }

    /** A deferred task runs and defers its spawns; it may then throw. */
    method RunDeferred(task: Task) returns (threw: bool)
      modifies this`scheduler, this`log
      ensures scheduler == old(scheduler) + task.spawns && log == old(log) + [task]
      ensures threw == task.throws
    {
      log := log + [task];
      for i := 0 to |task.spawns|
        invariant scheduler == old(scheduler) + task.spawns[..i] && log == old(log) + [task]
      {
        var r := Defer(Some(task.spawns[i]));
      }
      assert task.spawns[..|task.spawns|] == task.spawns;
      threw := task.throws;
    }

    /** `catch_up` terminates, and runs the tasks breadth first until one throws.  Whatever
        happens, the tasks run and those still queued are the tasks there were. */
    method CatchUp() returns (r: Outcome)
      modifies this`scheduler, this`log
      ensures log == old(log) + UntilThrow(LevelOrder(old(scheduler)))
      ensures log + LevelOrder(scheduler) == old(log) + LevelOrder(old(scheduler))
      ensures r.Threw? <==> SomeThrow(LevelOrder(old(scheduler)))
      ensures r.Returned? ==> scheduler == [] && (r.workDone <==> old(scheduler) != [])
    {
      var workDone := false;
      ghost var ran: seq<Task> := [];
      while scheduler != []
        invariant log == old(log) + ran && HaveRun(old(log), old(scheduler), ran, scheduler)
        invariant workDone <==> ran != []
        decreases Size(scheduler)
      {
        GoesOn(old(log), old(scheduler), ran, scheduler);
        var task := scheduler[0];
        ran := ran + [task];
        scheduler := scheduler[1..];
        var threw := RunDeferred(task);
        if threw {
          return Threw;
        }
        workDone := true;
      }
      RunsAll(old(log), old(scheduler), ran);
      r := Returned(workDone);
    }

    /** Calling `catch_up` again after each exception runs everything breadth first, once. */
    method CatchUpUntilIdle()
      modifies this`scheduler, this`log
      ensures scheduler == []
      ensures log == old(log) + LevelOrder(old(scheduler))
    {
      ghost var whole := log + LevelOrder(scheduler);
      while scheduler != []
        invariant log + LevelOrder(scheduler) == whole
        decreases |LevelOrder(scheduler)|
      {
        UntilThrowIsExact(LevelOrder(scheduler));
        var r := CatchUp();
      }
    }

    method Delay(task: Task)
      modifies this`delayed
      ensures delayed == old(delayed) + [task]
    {
      delayed := delayed + [task];
    }

    method RunDelayed(task: Task) returns (threw: bool)
      modifies this`delayed, this`log
      ensures delayed == old(delayed) + task.spawns && log == old(log) + [task]
      ensures threw == task.throws
    {
      log := log + [task];
      for i := 0 to |task.spawns|
        invariant delayed == old(delayed) + task.spawns[..i] && log == old(log) + [task]
      {
        Delay(task.spawns[i]);
      }
      assert task.spawns[..|task.spawns|] == task.spawns;
      threw := task.throws;
    }

    /** `sync_point` runs exactly one level, whatever its tasks throw: the tasks delayed before
        the call, and none of those delayed during it, which form the next level. */
    method SyncPoint()
      modifies this`delayed, this`log, this`handled
      ensures log == old(log) + old(delayed)
      ensures delayed == Children(old(delayed))
      ensures handled == old(handled) + Throwing(old(delayed))
    {
      var batch := delayed;
      delayed := [];
      for i := 0 to |batch|
        invariant log == old(log) + batch[..i]
        invariant delayed == Children(batch[..i])
        invariant handled == old(handled) + Throwing(batch[..i])
      {
        var threw := RunDelayed(batch[i]);
        handled := handled + if threw then [batch[i]] else [];
        OneMoreDelayed(old(log), old(handled), batch, i);
      }
      assert batch[..|batch|] == batch;
    }

    /** `d` calls of `sync_point` run exactly the first `d` levels. */
    method SyncPoints(d: nat)
      modifies this`delayed, this`log, this`handled
      ensures log == old(log) + UpToLevel(old(delayed), d)
      ensures delayed == Level(old(delayed), d)
      ensures handled == old(handled) + Throwing(UpToLevel(old(delayed), d))
    {
      for i := 0 to d
        invariant log == old(log) + UpToLevel(old(delayed), i)
        invariant delayed == Level(old(delayed), i)
        invariant handled == old(handled) + Throwing(UpToLevel(old(delayed), i))
      {
        OneMoreLevel(old(log), old(handled), old(delayed), i);
        SyncPoint();
      }
    }

    /** Calling `sync_point` until nothing is left runs the same tasks in the same order as
        `catch_up` over the same forest. */
    method SyncUntilIdle()
      modifies this`delayed, this`log, this`handled
      ensures delayed == []
      ensures log == old(log) + LevelOrder(old(delayed))
    {
      ghost var whole := log + LevelOrder(delayed);
      while delayed != []
        invariant log + LevelOrder(delayed) == whole
        decreases Size(delayed)
      {
        RunOneLevel(log, delayed);
        SyncPoint();
      }
    }
  }
}
