/** `sync`, `delay` and `sync_point`: every thread has a vector of tasks that others may push
    to, and from time to time swaps it out and runs it as a batch.  A `once_tag` coalesces
    calls: while its flag is up, further calls with it are dropped.
    One step is one locked section, one atomic operation, or the start or end of a task. */
module Sync {
  import opened Runs
  import opened Sums

  /** A queued function; the wrapper made for a tag clears that tag when it is done. */
  datatype Fn = Plain(id: nat) | Wrapper(tag: nat, id: nat)

  /** A task under execution; `reset` tells whether a wrapper has cleared its tag. */
  datatype Current = Current(fn: Fn, reset: bool)

  /** A caller between winning the flag and pushing the wrapper. */
  datatype Held = Held(tag: nat, to: nat, id: nat)

  /** One call of `sync_point`: the tasks it has taken, those it has run, the one under
      execution, and the rest. */
  datatype Batch = Batch(taken: seq<Fn>, ran: seq<Fn>, cur: Option<Current>, rest: seq<Fn>)

  /** `vec` is the thread's vector; `batches` are its calls of `sync_point` so far; `open` are
      the positions of those that have not returned, the innermost last.  `queued` records
      what was pushed to the thread. */
  datatype Thread = Thread(vec: seq<Fn>, batches: seq<Batch>, open: seq<nat>, hold: Option<Held>, queued: seq<Fn>)

  /** `active` holds the tags whose flag is up.  `accepted` and `completed` count, for each tag,
      the calls that were not dropped and the wrappers that have cleared the flag.
      `misused` holds the tags that an inline call has cleared while they were up. */
  datatype State = State(threads: seq<Thread>, active: set<nat>,
                         accepted: multiset<nat>, completed: multiset<nat>, misused: set<nat>)

  datatype Action =
    | Push(t: nat, to: nat, id: nat)                    // `delay`, or `sync` to another thread
    | Exchange(t: nat, tag: nat, to: nat, id: nat)      // the same with a tag: try the flag
    | PushWrapper(t: nat)
    | Swap(t: nat)                                      // `sync_point` takes the vector
    | Leave(t: nat)                                     // `sync_point` returns
    | Start(t: nat)
    | Reset(t: nat, threw: bool)                        // a wrapper's function is over
    | End(t: nat, threw: bool)                          // the task is over, its exception handled
    | Inline(t: nat, tag: nat, threw: bool)             // `sync` with a tag to the calling thread

  function Append(threads: seq<Thread>, to: nat, fn: Fn): seq<Thread>
    requires to < |threads|
  {
    threads[to := threads[to].(vec := threads[to].vec + [fn], queued := threads[to].queued + [fn])]
  }

  predicate HasTop(th: Thread) { th.open != [] && th.open[|th.open| - 1] < |th.batches| }

  /** The innermost call of `sync_point` that has not returned. */
  function Top(th: Thread): Batch
    requires HasTop(th)
  {
    th.batches[th.open[|th.open| - 1]]
  }

  function SetTop(th: Thread, b: Batch): Thread
    requires HasTop(th)
  {
    th.(batches := th.batches[th.open[|th.open| - 1] := b])
  }

  /** The thread is between tasks of its innermost call. */
  predicate BetweenTasks(th: Thread) { HasTop(th) && Top(th).cur.None? }

  /** The thread runs a task, whose own function is not over. */
  predicate InTask(th: Thread) { HasTop(th) && Top(th).cur.Some? && !Top(th).cur.value.reset }

  function TakeVec(th: Thread): Thread {
    th.(vec := [], batches := th.batches + [Batch(th.vec, [], None, th.vec)], open := th.open + [|th.batches|])
  }

  function StartNext(b: Batch): Batch
    requires b.rest != []
  {
    b.(rest := b.rest[1..], cur := Some(Current(b.rest[0], false)))
  }

  function EndTask(b: Batch): Batch
    requires b.cur.Some?
  {
    b.(cur := None, ran := b.ran + [b.cur.value.fn])
  }

  function Step(s: State, a: Action): Option<State> {
    if a.t >= |s.threads| then None
    else
      var th := s.threads[a.t];
      if a.PushWrapper? then
        if th.hold.None? || th.hold.value.to >= |s.threads| then None
        else
          var h := th.hold.value;
          Some(s.(threads := Append(s.threads[a.t := th.(hold := None)], h.to, Wrapper(h.tag, h.id))))
      else if th.hold.Some? then None
      else
        match a
        case Push(t, to, id) =>
          if to < |s.threads| then Some(s.(threads := Append(s.threads, to, Plain(id)))) else None
        case Exchange(t, tag, to, id) =>
          if to >= |s.threads| then None
          else if tag in s.active then Some(s)
          else Some(s.(active := s.active + {tag}, accepted := s.accepted + multiset{tag},
                       threads := s.threads[t := th.(hold := Some(Held(tag, to, id)))]))
        case Swap(t) =>
          if th.open == [] || InTask(th) then Some(s.(threads := s.threads[t := TakeVec(th)])) else None
        case Leave(t) =>
          if BetweenTasks(th) && Top(th).rest == []
          then Some(s.(threads := s.threads[t := th.(open := th.open[..|th.open| - 1])])) else None
        case Start(t) =>
          if BetweenTasks(th) && Top(th).rest != []
          then Some(s.(threads := s.threads[t := SetTop(th, StartNext(Top(th)))])) else None
        case Reset(t, threw) =>
          if InTask(th) && Top(th).cur.value.fn.Wrapper?
          then
            var c := Top(th).cur.value;
            Some(s.(active := s.active - {c.fn.tag}, completed := s.completed + multiset{c.fn.tag},
                    threads := s.threads[t := SetTop(th, Top(th).(cur := Some(c.(reset := true))))]))
          else None
        case End(t, threw) =>
          if HasTop(th) && Top(th).cur.Some? && (Top(th).cur.value.fn.Wrapper? ==> Top(th).cur.value.reset)
          then Some(s.(threads := s.threads[t := SetTop(th, EndTask(Top(th)))]))
          else None
        case Inline(t, tag, threw) =>
          if threw then Some(s)
          else Some(s.(active := s.active - {tag}, misused := if tag in s.active then s.misused + {tag} else s.misused))
  }

  function Init(n: nat): State {
    State(seq(n, _ => Thread([], [], [], None, [])), {}, multiset{}, multiset{}, {})
  }

  // ---------------------------------------------------------------- conservation and order

  function Running(b: Batch): seq<Fn> { if b.cur.Some? then [b.cur.value.fn] else [] }

  /** What the calls of `sync_point` have taken, call by call. */
  function Taken(bs: seq<Batch>): seq<Fn> {
    if bs == [] then [] else Taken(bs[..|bs| - 1]) + bs[|bs| - 1].taken
  }

  /** What they have run, call by call. */
  function Ran(bs: seq<Batch>): seq<Fn> {
    if bs == [] then [] else Ran(bs[..|bs| - 1]) + bs[|bs| - 1].ran
  }

  /** A call runs what it has taken, in order. */
  predicate BatchOk(b: Batch) { b.taken == b.ran + Running(b) + b.rest }

  predicate Finished(b: Batch) { b.cur.None? && b.rest == [] }

  /** What was queued to a thread is what its calls have taken and what its vector holds, in
      push order, and the calls that have returned have run all they had taken. */
  ghost predicate InOrder(th: Thread) {
    && th.queued == Taken(th.batches) + th.vec
    && (forall i :: 0 <= i < |th.batches| ==> BatchOk(th.batches[i]))
    && (forall k :: 0 <= k < |th.open| ==> th.open[k] < |th.batches|)
    && (forall i :: 0 <= i < |th.batches| && i !in th.open ==> Finished(th.batches[i]))
  }

  ghost predicate AllInOrder(s: State) { forall t :: 0 <= t < |s.threads| ==> InOrder(s.threads[t]) }

  lemma AppendKeepsOrder(threads: seq<Thread>, to: nat, fn: Fn)
    requires to < |threads| && forall t :: 0 <= t < |threads| ==> InOrder(threads[t])
    ensures forall t :: 0 <= t < |threads| ==> InOrder(Append(threads, to, fn)[t])
  {
    var th := threads[to];
    assert (Taken(th.batches) + th.vec) + [fn] == Taken(th.batches) + (th.vec + [fn]);
  }

  lemma {:induction false} TakenStays(bs: seq<Batch>, i: nat, b: Batch)
    requires i < |bs| && b.taken == bs[i].taken
    ensures Taken(bs[i := b]) == Taken(bs)
    decreases |bs|
  {
    var u := bs[i := b];
    if i == |bs| - 1 {
      assert u[..|bs| - 1] == bs[..|bs| - 1];
    } else {
      assert u[..|bs| - 1] == bs[..|bs| - 1][i := b];
      TakenStays(bs[..|bs| - 1], i, b);
    }
  }

  lemma SetTopKeepsOrder(th: Thread, b: Batch)
    requires InOrder(th) && HasTop(th) && b.taken == Top(th).taken && BatchOk(b)
    ensures InOrder(SetTop(th, b))
  {
    TakenStays(th.batches, th.open[|th.open| - 1], b);
  }

  lemma TakeVecKeepsOrder(th: Thread)
    requires InOrder(th)
    ensures InOrder(TakeVec(th))
  {
    var th' := TakeVec(th);
    assert th'.batches[..|th'.batches| - 1] == th.batches;
    assert Taken(th'.batches) == Taken(th.batches) + th.vec;
    assert BatchOk(th'.batches[|th.batches|]);
    forall i | 0 <= i < |th'.batches| && i !in th'.open ensures Finished(th'.batches[i]) {
      assert th'.open[|th.open|] == |th.batches|;
      assert forall k :: 0 <= k < |th.open| ==> th'.open[k] == th.open[k];
    }
  }

  lemma LeaveKeepsOrder(th: Thread)
    requires InOrder(th) && HasTop(th) && Finished(Top(th))
    ensures InOrder(th.(open := th.open[..|th.open| - 1]))
  {
    var top := th.open[|th.open| - 1];
    forall i | 0 <= i < |th.batches| && i !in th.open[..|th.open| - 1] ensures Finished(th.batches[i]) {
      assert i in th.open ==> i == top;
    }
  }

  lemma StartKeepsBatch(b: Batch)
    requires BatchOk(b) && b.cur.None? && b.rest != []
    ensures BatchOk(StartNext(b))
  {
    assert b.rest == [b.rest[0]] + b.rest[1..];
  }

  lemma EndKeepsBatch(b: Batch)
    requires BatchOk(b) && b.cur.Some?
    ensures BatchOk(EndTask(b))
  {
  }

  lemma PushWrapperKeepsOrder(s: State, t: nat)
    requires AllInOrder(s) && Step(s, PushWrapper(t)).Some?
    ensures AllInOrder(Step(s, PushWrapper(t)).value)
  {
    var th := s.threads[t];
    assert InOrder(th);
    AppendKeepsOrder(s.threads[t := th.(hold := None)], th.hold.value.to, Wrapper(th.hold.value.tag, th.hold.value.id));
  }

  /** A step that touches no vector but its own thread's keeps that thread in order. */
  lemma OwnOrderKept(s: State, a: Action)
    requires Step(s, a).Some? && InOrder(s.threads[a.t]) && !a.Push? && !a.PushWrapper? && !a.Inline?
    ensures var s' := Step(s, a).value;
      |s'.threads| == |s.threads| && s'.threads == s.threads[a.t := s'.threads[a.t]] && InOrder(s'.threads[a.t])
  {
    var th := s.threads[a.t];
    match a
    case Exchange(t, tag, to, id) =>
    case Swap(t) => TakeVecKeepsOrder(th);
    case Leave(t) => LeaveKeepsOrder(th);
    case Start(t) =>
      StartKeepsBatch(Top(th));
      SetTopKeepsOrder(th, StartNext(Top(th)));
    case Reset(t, threw) => SetTopKeepsOrder(th, Top(th).(cur := Some(Top(th).cur.value.(reset := true))));
    case End(t, threw) =>
      EndKeepsBatch(Top(th));
      SetTopKeepsOrder(th, EndTask(Top(th)));
  }

  lemma StepKeepsOrder(s: State, a: Action)
    requires AllInOrder(s) && Step(s, a).Some?
    ensures AllInOrder(Step(s, a).value)
  {
    match a
    case Push(t, to, id) => AppendKeepsOrder(s.threads, to, Plain(id));
    case PushWrapper(t) => PushWrapperKeepsOrder(s, t);
    case Inline(t, tag, threw) => assert Step(s, a).value.threads == s.threads;
    case _ => OwnOrderKept(s, a);
  }

  lemma {:induction false} AllFinished(bs: seq<Batch>)
    requires forall i :: 0 <= i < |bs| ==> BatchOk(bs[i]) && Finished(bs[i])
    ensures Taken(bs) == Ran(bs)
    decreases |bs|
  {
    if bs != [] {
      AllFinished(bs[..|bs| - 1]);
    }
  }

  /** If no call but the last is open, what is queued has been run, is running, or waits. */
  lemma UnnestedOrder(th: Thread)
    requires InOrder(th) && th.batches != []
    requires forall k :: 0 <= k < |th.open| ==> th.open[k] == |th.batches| - 1
    ensures var b := th.batches[|th.batches| - 1]; th.queued == Ran(th.batches) + Running(b) + b.rest + th.vec
  {
    var b, before := th.batches[|th.batches| - 1], th.batches[..|th.batches| - 1];
    AllFinished(before);
    assert BatchOk(b);
    assert (Ran(before) + (b.ran + Running(b) + b.rest)) + th.vec
        == (Ran(before) + b.ran) + Running(b) + b.rest + th.vec;
  }

  /** The call that thread `t` has made with a tag most recently. */
  function LastExchange(acts: seq<Action>, t: nat): Option<Held> {
    if acts == [] then None
    else
      var a := acts[|acts| - 1];
      if a.Exchange? && a.t == t then Some(Held(a.tag, a.to, a.id)) else LastExchange(acts[..|acts| - 1], t)
  }

  /** What one action, coming after `front`, queues to thread `u`: the function of a call without
      a tag whose target is `u`, or the wrapper of the acting thread's last call with a tag, if
      that has the target `u`. */
  function QueuedBy(front: seq<Action>, a: Action, u: nat): seq<Fn> {
    if a.Push? && a.to == u then [Plain(a.id)]
    else if a.PushWrapper? && LastExchange(front, a.t).Some? && LastExchange(front, a.t).value.to == u
    then [Wrapper(LastExchange(front, a.t).value.tag, LastExchange(front, a.t).value.id)]
    else []
  }

  /** What the actions of a run queue to thread `u`, in order. */
  function Queued(acts: seq<Action>, u: nat): seq<Fn> {
    if acts == [] then []
    else Queued(acts[..|acts| - 1], u) + QueuedBy(acts[..|acts| - 1], acts[|acts| - 1], u)
  }

  /** A caller that has won the flag is to push the wrapper of its last call. */
  ghost predicate HoldsLast(acts: seq<Action>, s: State) {
    forall t: nat :: t < |s.threads| && s.threads[t].hold.Some? ==> s.threads[t].hold == LastExchange(acts, t)
  }

  lemma StepKeepsHold(s: State, a: Action, t: nat)
    requires Step(s, a).Some? && t < |s.threads|
    ensures var s' := Step(s, a).value;
      && |s'.threads| == |s.threads|
      && (s'.threads[t].hold.Some? ==>
        if a.Exchange? && a.t == t then s'.threads[t].hold == Some(Held(a.tag, a.to, a.id))
        else s'.threads[t].hold == s.threads[t].hold)
  {
  }

  lemma StepQueues(front: seq<Action>, s: State, a: Action, u: nat)
    requires HoldsLast(front, s) && Step(s, a).Some? && u < |s.threads|
    ensures var s' := Step(s, a).value;
      |s'.threads| == |s.threads| && s'.threads[u].queued == s.threads[u].queued + QueuedBy(front, a, u)
  {
    var s' := Step(s, a).value;
    if a.Push? || a.PushWrapper? {
    } else {
      assert s'.threads[u].queued == s.threads[u].queued;
    }
  }

  lemma {:induction false} RunQueues(n: nat, acts: seq<Action>, s: State)
    requires Exec(Step, Init(n), acts) == Some(s)
    ensures |s.threads| == n && HoldsLast(acts, s)
    ensures forall u: nat :: u < n ==> s.threads[u].queued == Queued(acts, u)
    decreases |acts|
  {
    if acts != [] {
      var front, a := acts[..|acts| - 1], acts[|acts| - 1];
      var m := Exec(Step, Init(n), front).value;
      RunQueues(n, front, m);
      forall u: nat | u < n
        ensures s.threads[u].queued == Queued(acts, u)
        ensures s.threads[u].hold.Some? ==> s.threads[u].hold == LastExchange(acts, u)
      {
        StepQueues(front, m, a, u);
        StepKeepsHold(m, a, u);
      }
    }
  }

  /** For each thread, over every run: what the calls of the run have queued to it, in order, is
      what its calls of `sync_point` have taken, call by call, and then its vector; each call
      runs what it has taken in order, and has run all of it when it returns, whoever pushed
      the tasks, whatever they threw and even if they called `sync_point` themselves.  If they
      did not, the tasks queued are the tasks run, the one under execution, the rest of the
      batch, and the vector. */
  lemma TasksKeepOrder(n: nat, acts: seq<Action>, s: State, t: nat)
    requires Exec(Step, Init(n), acts) == Some(s) && t < n
    ensures |s.threads| == n
    ensures var th := s.threads[t];
      && Queued(acts, t) == Taken(th.batches) + th.vec
      && (forall i :: 0 <= i < |th.batches| ==>
        var b := th.batches[i];
        b.taken == b.ran + Running(b) + b.rest && (i !in th.open ==> b.taken == b.ran))
      && (th.batches != [] && (forall k :: 0 <= k < |th.open| ==> th.open[k] == |th.batches| - 1) ==>
        var b := th.batches[|th.batches| - 1];
        Queued(acts, t) == Ran(th.batches) + Running(b) + b.rest + th.vec)
  {
    forall s, a | AllInOrder(s) && Step(s, a).Some? ensures AllInOrder(Step(s, a).value) {
      StepKeepsOrder(s, a);
    }
    assert AllInOrder(Init(n));
    assert Preserves(Step, s => AllInOrder(s));
    InvariantOfRuns(Step, s => AllInOrder(s), Init(n), acts);
    RunQueues(n, acts, s);
    OrderOfThread(s.threads[t]);
  }

  lemma OrderOfThread(th: Thread)
    requires InOrder(th)
    ensures th.queued == Taken(th.batches) + th.vec
    ensures forall i :: 0 <= i < |th.batches| ==>
      var b := th.batches[i];
      b.taken == b.ran + Running(b) + b.rest && (i !in th.open ==> b.taken == b.ran)
    ensures th.batches != [] && (forall k :: 0 <= k < |th.open| ==> th.open[k] == |th.batches| - 1) ==>
      var b := th.batches[|th.batches| - 1];
      th.queued == Ran(th.batches) + Running(b) + b.rest + th.vec
  {
    if th.batches != [] && forall k :: 0 <= k < |th.open| ==> th.open[k] == |th.batches| - 1 {
      UnnestedOrder(th);
    }
    forall i | 0 <= i < |th.batches|
      ensures var b := th.batches[i];
        b.taken == b.ran + Running(b) + b.rest && (i !in th.open ==> b.taken == b.ran)
    {
      assert BatchOk(th.batches[i]);
    }
  }

  // ---------------------------------------------------------------- coalescing

  function TagOf(tag: nat): Fn -> nat {
    (fn: Fn) => if fn.Wrapper? && fn.tag == tag then 1 else 0
  }

  /** The calls with `tag` in a batch that are still to run, or under execution before their
      reset. */
  function CallsInBatch(tag: nat, b: Batch): nat {
    Sum(TagOf(tag), b.rest) + (if b.cur.Some? && !b.cur.value.reset then TagOf(tag)(b.cur.value.fn) else 0)
  }

  function BatchCalls(tag: nat): Batch -> nat { (b: Batch) => CallsInBatch(tag, b) }

  /** The number of places of a thread at which a call with `tag` is on its way: between
      exchange and push, queued, batched, or under execution before its reset. */
  function CallsOnTheirWay(tag: nat, th: Thread): nat {
    Sum(TagOf(tag), th.vec) + Sum(BatchCalls(tag), th.batches)
    + (if th.hold.Some? && th.hold.value.tag == tag then 1 else 0)
  }

  function OnItsWay(tag: nat): Thread -> nat { (th: Thread) => CallsOnTheirWay(tag, th) }

  ghost predicate Coalesces(s: State, tag: nat) {
    tag !in s.misused ==>
      && Sum(OnItsWay(tag), s.threads) == (if tag in s.active then 1 else 0)
      && s.accepted[tag] == s.completed[tag] + (if tag in s.active then 1 else 0)
  }

  lemma AppendOnItsWay(threads: seq<Thread>, to: nat, fn: Fn, tag: nat)
    requires to < |threads|
    ensures Sum(OnItsWay(tag), Append(threads, to, fn)) == Sum(OnItsWay(tag), threads) + TagOf(tag)(fn)
  {
    var th, th' := threads[to], Append(threads, to, fn)[to];
    assert th'.vec[..|th'.vec| - 1] == th.vec;
    SumUpdate(OnItsWay(tag), threads, to, th');
  }

  lemma TakeVecOnItsWay(th: Thread, tag: nat)
    ensures CallsOnTheirWay(tag, TakeVec(th)) == CallsOnTheirWay(tag, th)
  {
    var th' := TakeVec(th);
    assert th'.batches[..|th'.batches| - 1] == th.batches;
  }

  lemma SetTopOnItsWay(th: Thread, b: Batch, tag: nat)
    requires HasTop(th)
    ensures CallsOnTheirWay(tag, SetTop(th, b)) + BatchCalls(tag)(Top(th))
         == CallsOnTheirWay(tag, th) + BatchCalls(tag)(b)
  {
    SumUpdate(BatchCalls(tag), th.batches, th.open[|th.open| - 1], b);
  }

  lemma StartOnItsWay(b: Batch, tag: nat)
    requires b.rest != [] && b.cur.None?
    ensures BatchCalls(tag)(StartNext(b)) == BatchCalls(tag)(b)
  {
    assert b.rest == [b.rest[0]] + b.rest[1..] && [b.rest[0]][..0] == [];
    SumConcat(TagOf(tag), [b.rest[0]], b.rest[1..]);
  }

  lemma PushOnItsWay(s: State, t: nat, tag: nat)
    requires Step(s, PushWrapper(t)).Some?
    ensures Sum(OnItsWay(tag), Step(s, PushWrapper(t)).value.threads) == Sum(OnItsWay(tag), s.threads)
  {
    var th, h := s.threads[t], s.threads[t].hold.value;
    SumUpdate(OnItsWay(tag), s.threads, t, th.(hold := None));
    AppendOnItsWay(s.threads[t := th.(hold := None)], h.to, Wrapper(h.tag, h.id), tag);
  }

  /** The effect of a step on the calls of its own thread, for steps that touch no vector. */
  lemma OwnCallsChange(s: State, a: Action, tag: nat)
    requires Step(s, a).Some? && !a.Push? && !a.PushWrapper? && !a.Inline? && !a.Exchange?
    ensures var s' := Step(s, a).value;
      && s'.threads == s.threads[a.t := s'.threads[a.t]]
      && CallsOnTheirWay(tag, s'.threads[a.t])
         == CallsOnTheirWay(tag, s.threads[a.t])
            - (if a.Reset? && Top(s.threads[a.t]).cur.value.fn.tag == tag then 1 else 0)
  {
    var th := s.threads[a.t];
    match a
    case Swap(t) => TakeVecOnItsWay(th, tag);
    case Leave(t) =>
    case Start(t) =>
      StartOnItsWay(Top(th), tag);
      SetTopOnItsWay(th, StartNext(Top(th)), tag);
    case Reset(t, threw) => SetTopOnItsWay(th, Top(th).(cur := Some(Top(th).cur.value.(reset := true))), tag);
    case End(t, threw) => SetTopOnItsWay(th, EndTask(Top(th)), tag);
  }

  /** The effect of a step on the calls on their way. */
  lemma StepOnItsWay(s: State, a: Action, tag: nat)
    requires Step(s, a).Some?
    ensures Sum(OnItsWay(tag), Step(s, a).value.threads)
         == Sum(OnItsWay(tag), s.threads)
            + (if a.Exchange? && a.tag == tag && tag !in s.active then 1 else 0)
            - (if a.Reset? && Top(s.threads[a.t]).cur.value.fn.tag == tag then 1 else 0)
  {
    var s' := Step(s, a).value;
    match a
    case Push(t, to, id) => AppendOnItsWay(s.threads, to, Plain(id), tag);
    case PushWrapper(t) => PushOnItsWay(s, t, tag);
    case Exchange(t, g, to, id) =>
      if g !in s.active { SumUpdate(OnItsWay(tag), s.threads, t, s'.threads[t]); }
    case Inline(t, g, threw) =>
    case _ =>
      OwnCallsChange(s, a, tag);
      SumUpdate(OnItsWay(tag), s.threads, a.t, s'.threads[a.t]);
  }

  lemma StepKeepsCoalescing(s: State, a: Action, tag: nat)
    requires Coalesces(s, tag) && Step(s, a).Some?
    ensures Coalesces(Step(s, a).value, tag)
  {
    StepOnItsWay(s, a, tag);
  }

  /** Coalescing, over every run and for every tag that no inline call has cleared while it
      was up: the flag is up exactly when one call is on its way, never two; and the calls
      accepted are the wrappers completed, by return or by exception, plus the one on its way. */
  lemma OnceTagCoalesces(n: nat, acts: seq<Action>, s: State, tag: nat)
    requires Exec(Step, Init(n), acts) == Some(s) && tag !in s.misused
    ensures Sum(OnItsWay(tag), s.threads) == (if tag in s.active then 1 else 0)
    ensures s.accepted[tag] == s.completed[tag] + (if tag in s.active then 1 else 0)
  {
    forall s, a | Coalesces(s, tag) && Step(s, a).Some? ensures Coalesces(Step(s, a).value, tag) {
      StepKeepsCoalescing(s, a, tag);
    }
    SumZero(OnItsWay(tag), Init(n).threads);
    assert Coalesces(Init(n), tag);
    assert Preserves(Step, s => Coalesces(s, tag));
    InvariantOfRuns(Step, s => Coalesces(s, tag), Init(n), acts);
  }

  /** What an inline call does: if it returns, it clears its own flag and no other; if it
      throws, it leaves all flags as they are.  It queues and runs nothing. */
  lemma InlineEffect(s: State, t: nat, tag: nat, threw: bool, g: nat)
    requires t < |s.threads| && s.threads[t].hold.None?
    ensures Step(s, Inline(t, tag, threw)).Some?
    ensures var s' := Step(s, Inline(t, tag, threw)).value;
      && (g in s'.active <==> g in s.active && (threw || g != tag))
      && (g in s'.misused <==> g in s.misused || (g == tag && g in s.active && !threw))
      && s'.threads == s.threads && s'.accepted == s.accepted && s'.completed == s.completed
  {
  }

  /** An inline call keeps both equations if and only if it throws or the flag was down. */
  lemma InlineCallIsSafeExactly(n: nat, acts: seq<Action>, s: State, t: nat, tag: nat, threw: bool)
    requires Exec(Step, Init(n), acts) == Some(s) && tag !in s.misused
    requires Step(s, Inline(t, tag, threw)).Some?
    ensures var s' := Step(s, Inline(t, tag, threw)).value;
      var flag := if tag in s'.active then 1 else 0;
      && (Sum(OnItsWay(tag), s'.threads) == flag <==> threw || tag !in s.active)
      && (s'.accepted[tag] == s'.completed[tag] + flag <==> threw || tag !in s.active)
  {
    OnceTagCoalesces(n, acts, s, tag);
    StepOnItsWay(s, Inline(t, tag, threw), tag);
  }

  /** A run that starts with an inline call, in which no inline call with that tag returns later,
      and that ends with two calls on their way. */
  ghost predicate Doubles(s: State, t: nat, tag: nat, threw: bool, acts: seq<Action>, s': State) {
    && acts != [] && acts[0] == Inline(t, tag, threw)
    && (forall i :: 1 <= i < |acts| && acts[i].Inline? ==> acts[i].tag != tag || acts[i].threw)
    && Exec(Step, s, acts) == Some(s') && Sum(OnItsWay(tag), s'.threads) >= 2
  }

  lemma ThreeSteps(s: State, a: Action, b: Action, c: Action, m: State, m': State, s': State)
    requires Step(s, a) == Some(m) && Step(m, b) == Some(m') && Step(m', c) == Some(s')
    ensures Exec(Step, s, [a, b, c]) == Some(s')
  {
    ExecNext(Step, s, [], s, a);
    ExecNext(Step, s, [] + [a], m, b);
    ExecNext(Step, s, [] + [a] + [b], m', c);
    assert [a, b, c] == [] + [a] + [b] + [c];
  }

  /** With the flag down, a call is accepted and queued. */
  lemma CallIsAccepted(s: State, t: nat, tag: nat) returns (m: State, s': State)
    requires t < |s.threads| && s.threads[t].hold.None? && tag !in s.active
    ensures Step(s, Exchange(t, tag, t, 0)) == Some(m) && Step(m, PushWrapper(t)) == Some(s')
    ensures Sum(OnItsWay(tag), s'.threads) == Sum(OnItsWay(tag), s.threads) + 1
  {
    m := Step(s, Exchange(t, tag, t, 0)).value;
    StepOnItsWay(s, Exchange(t, tag, t, 0), tag);
    StepOnItsWay(m, PushWrapper(t), tag);
    s' := Step(m, PushWrapper(t)).value;
  }

  lemma DoublesInThree(s: State, t: nat, tag: nat, b: Action, c: Action, m: State, m': State, s': State)
    requires Step(s, Inline(t, tag, false)) == Some(m) && Step(m, b) == Some(m') && Step(m', c) == Some(s')
    requires !b.Inline? && !c.Inline? && Sum(OnItsWay(tag), s'.threads) == 2
    ensures Doubles(s, t, tag, false, [Inline(t, tag, false), b, c], s')
  {
    ThreeSteps(s, Inline(t, tag, false), b, c, m, m', s');
  }

  lemma InlineClears(s: State, t: nat, tag: nat) returns (m: State)
    requires t < |s.threads| && s.threads[t].hold.None?
    ensures Step(s, Inline(t, tag, false)) == Some(m) && m.threads == s.threads && tag !in m.active
  {
    m := Step(s, Inline(t, tag, false)).value;
  }

  /** The inline call clears the flag, and the next call with the tag is accepted. */
  lemma ActiveTagDoubles(s: State, t: nat, tag: nat)
    requires t < |s.threads| && s.threads[t].hold.None?
    requires tag in s.active && Sum(OnItsWay(tag), s.threads) == 1
    ensures exists acts, s' :: Doubles(s, t, tag, false, acts, s')
  {
    var m := InlineClears(s, t, tag);
    var m', s' := CallIsAccepted(m, t, tag);
    DoublesInThree(s, t, tag, Exchange(t, tag, t, 0), PushWrapper(t), m, m', s');
  }

  ghost predicate Safe(s: State, tag: nat) { Coalesces(s, tag) && tag !in s.misused }

  lemma StepKeepsSafe(s: State, a: Action, tag: nat)
    requires Safe(s, tag) && Step(s, a).Some? && (a.Inline? && a.tag == tag ==> a.threw || tag !in s.active)
    ensures Safe(Step(s, a).value, tag)
  {
    StepKeepsCoalescing(s, a, tag);
  }

  /** The flag was down or is left alone, and stays right. */
  lemma {:induction false} SafeTagDoesNotDouble(s: State, t: nat, tag: nat, threw: bool, acts: seq<Action>, s': State)
    requires Safe(s, tag) && (threw || tag !in s.active)
    requires acts != [] && acts[0] == Inline(t, tag, threw)
    requires forall i :: 1 <= i < |acts| && acts[i].Inline? ==> acts[i].tag != tag || acts[i].threw
    requires Exec(Step, s, acts) == Some(s')
    ensures Safe(s', tag)
    decreases |acts|
  {
    var before, a := acts[..|acts| - 1], acts[|acts| - 1];
    var m := Exec(Step, s, before).value;
    if before != [] {
      SafeTagDoesNotDouble(s, t, tag, threw, before, m);
    }
    StepKeepsSafe(m, a, tag);
  }

  /** Exactly when an inline call can double a tag.  In any reachable state, for a tag that no
      inline call has cleared while it was up: some continuation of the inline call has two
      calls of the tag on their way if and only if the call returns and the tag is up. */
  lemma InlineCallDoublesExactly(n: nat, before: seq<Action>, s: State, t: nat, tag: nat, threw: bool)
    requires Exec(Step, Init(n), before) == Some(s) && tag !in s.misused
    requires t < |s.threads| && s.threads[t].hold.None?
    ensures (exists acts, s' :: Doubles(s, t, tag, threw, acts, s')) <==> !threw && tag in s.active
  {
    OnceTagCoalesces(n, before, s, tag);
    if !threw && tag in s.active {
      ActiveTagDoubles(s, t, tag);
    } else if acts, s' :| Doubles(s, t, tag, threw, acts, s') {
      SafeTagDoesNotDouble(s, t, tag, threw, acts, s');
      assert false;
    }
  }

  // ---------------------------------------------------------------- the class

  /** The table of vectors, the tags, and the threads that use them; each method is one
      locked section or one atomic operation, or marks the start or end of a task. */
  class Table {
    var threads: seq<Thread>
    var active: set<nat>
    ghost var accepted: multiset<nat>
    ghost var completed: multiset<nat>
    ghost var misused: set<nat>

    ghost function View(): State
      reads this
    {
      State(threads, active, accepted, completed, misused)
    }

    constructor (n: nat)
      ensures View() == Init(n)
      ensures |threads| == n && forall t :: 0 <= t < n ==> threads[t] == Thread([], [], [], None, [])
      ensures active == {} && misused == {} && accepted == completed == multiset{}
    {
      threads, active := seq(n, _ => Thread([], [], [], None, [])), {};
      accepted, completed, misused := multiset{}, multiset{}, {};
    }

    method Push(t: nat, to: nat, id: nat)
      requires t < |threads| && to < |threads| && threads[t].hold.None?
      modifies this`threads
      ensures Step(old(View()), Action.Push(t, to, id)) == Some(View())
      ensures var th := old(threads)[to];
        threads == old(threads)[to := th.(vec := th.vec + [Plain(id)], queued := th.queued + [Plain(id)])]
    {
      threads := Append(threads, to, Plain(id));
    }

    /** `exchange(true)` on the flag; the call is dropped if the flag was up. */
    method Exchange(t: nat, tag: nat, to: nat, id: nat) returns (won: bool)
      requires t < |threads| && to < |threads| && threads[t].hold.None?
      modifies this`threads, this`active, this`accepted
      ensures Step(old(View()), Action.Exchange(t, tag, to, id)) == Some(View())
      ensures won <==> tag !in old(active)
      ensures active == old(active) + {tag}
      ensures accepted == if won then old(accepted) + multiset{tag} else old(accepted)
      ensures threads == if won then old(threads)[t := old(threads)[t].(hold := Some(Held(tag, to, id)))] else old(threads)
    {
      won := tag !in active;
      active := active + {tag};
      if won {
        accepted := accepted + multiset{tag};
        threads := threads[t := threads[t].(hold := Some(Held(tag, to, id)))];
      }
      assert !won ==> active == old(active);
    }

    method PushWrapper(t: nat)
      requires t < |threads| && threads[t].hold.Some? && threads[t].hold.value.to < |threads|
      modifies this`threads
      ensures Step(old(View()), Action.PushWrapper(t)) == Some(View())
      ensures |threads| == |old(threads)|
      ensures var h := old(threads)[t].hold.value;
        forall i :: 0 <= i < |threads| ==> threads[i] == old(threads)[i].(
          hold := if i == t then None else old(threads)[i].hold,
          vec := old(threads)[i].vec + (if i == h.to then [Wrapper(h.tag, h.id)] else []),
          queued := old(threads)[i].queued + (if i == h.to then [Wrapper(h.tag, h.id)] else []))
    {
      var h := threads[t].hold.value;
      threads := threads[t := threads[t].(hold := None)];
      threads := Append(threads, h.to, Wrapper(h.tag, h.id));
    }

    /** `get_this_threads_tasks`, called by `sync_point`, which a task may call in turn. */
    method Swap(t: nat) returns (batch: seq<Fn>)
      requires t < |threads| && threads[t].hold.None? && (threads[t].open == [] || InTask(threads[t]))
      modifies this`threads
      ensures Step(old(View()), Action.Swap(t)) == Some(View())
      ensures var th := old(threads)[t];
        && batch == th.vec
        && threads == old(threads)[t := th.(vec := [], batches := th.batches + [Batch(batch, [], None, batch)],
                                            open := th.open + [|th.batches|])]
    {
      batch := threads[t].vec;
      threads := threads[t := TakeVec(threads[t])];
    }

    /** The loop over the batch is over. */
    method Leave(t: nat)
      requires t < |threads| && threads[t].hold.None? && BetweenTasks(threads[t]) && Top(threads[t]).rest == []
      modifies this`threads
      ensures Step(old(View()), Action.Leave(t)) == Some(View())
      ensures var th := old(threads)[t]; threads == old(threads)[t := th.(open := th.open[..|th.open| - 1])]
    {
      var th := threads[t];
      threads := threads[t := th.(open := th.open[..|th.open| - 1])];
    }

    method Start(t: nat) returns (fn: Fn)
      requires t < |threads| && threads[t].hold.None? && BetweenTasks(threads[t]) && Top(threads[t]).rest != []
      modifies this`threads
      ensures Step(old(View()), Action.Start(t)) == Some(View())
      ensures var th, b := old(threads)[t], Top(old(threads)[t]);
        && fn == b.rest[0]
        && threads == old(threads)[t :=
             SetTop(th, Batch(b.taken, b.ran, Some(Current(fn, false)), b.rest[1..]))]
    {
      var th := threads[t];
      fn := Top(th).rest[0];
      threads := threads[t := SetTop(th, StartNext(Top(th)))];
    }

    method Reset(t: nat, threw: bool)
      requires t < |threads| && threads[t].hold.None? && InTask(threads[t])
      requires Top(threads[t]).cur.value.fn.Wrapper?
      modifies this`threads, this`active, this`completed
      ensures Step(old(View()), Action.Reset(t, threw)) == Some(View())
      ensures var th, b := old(threads)[t], Top(old(threads)[t]);
        && active == old(active) - {b.cur.value.fn.tag}
        && completed == old(completed) + multiset{b.cur.value.fn.tag}
        && threads == old(threads)[t := SetTop(th, Batch(b.taken, b.ran, Some(Current(b.cur.value.fn, true)), b.rest))]
    {
      var th := threads[t];
      var c := Top(th).cur.value;
      active := active - {c.fn.tag};
      completed := completed + multiset{c.fn.tag};
      threads := threads[t := SetTop(th, Top(th).(cur := Some(c.(reset := true))))];
    }

    method End(t: nat, threw: bool)
      requires t < |threads| && threads[t].hold.None? && HasTop(threads[t]) && Top(threads[t]).cur.Some?
      requires Top(threads[t]).cur.value.fn.Wrapper? ==> Top(threads[t]).cur.value.reset
      modifies this`threads
      ensures Step(old(View()), Action.End(t, threw)) == Some(View())
      ensures var th, b := old(threads)[t], Top(old(threads)[t]);
        threads == old(threads)[t := SetTop(th, Batch(b.taken, b.ran + [b.cur.value.fn], None, b.rest))]
    {
      threads := threads[t := SetTop(threads[t], EndTask(Top(threads[t])))];
    }

    method Inline(t: nat, tag: nat, threw: bool)
      requires t < |threads| && threads[t].hold.None?
      modifies this`active, this`misused
      ensures Step(old(View()), Action.Inline(t, tag, threw)) == Some(View())
      ensures active == if threw then old(active) else old(active) - {tag}
      ensures misused == if !threw && tag in old(active) then old(misused) + {tag} else old(misused)
    {
      if !threw {
        misused := if tag in active then misused + {tag} else misused;
        active := active - {tag};
      }
    }
  }
}
