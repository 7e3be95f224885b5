/** The latch: a counter that only goes down, and threads that wait for it to reach zero.
    `count_down` notifies while it still holds the mutex, so it is one step. */
module Latch {
  import opened Runs

  datatype Waiter = Free | Asleep | Awake | Through

  datatype State = State(count: int, waiters: seq<Waiter>)

  datatype Action = CountDown(n: nat) | Wait(t: nat) | Wake(t: nat) | Recheck(t: nat)

  function WakeAll(ws: seq<Waiter>): (r: seq<Waiter>)
    ensures |r| == |ws| && forall i :: 0 <= i < |ws| ==> r[i] == if ws[i].Asleep? then Awake else ws[i]
  {
    seq(|ws|, i requires 0 <= i < |ws| => if ws[i].Asleep? then Awake else ws[i])
  }

  function Evaluate(s: State, t: nat): State
    requires t < |s.waiters|
  {
    s.(waiters := s.waiters[t := if s.count <= 0 then Through else Asleep])
  }

  function Step(s: State, a: Action): Option<State> {
    match a
    case CountDown(n) =>
      Some(State(s.count - n, if s.count - n <= 0 then WakeAll(s.waiters) else s.waiters))
    case Wait(t) => if t < |s.waiters| && s.waiters[t].Free? then Some(Evaluate(s, t)) else None
    case Wake(t) => if t < |s.waiters| && s.waiters[t].Asleep? then Some(s.(waiters := s.waiters[t := Awake])) else None
    case Recheck(t) => if t < |s.waiters| && s.waiters[t].Awake? then Some(Evaluate(s, t)) else None
  }

  function Init(expected: nat, n: nat): State { State(expected, seq(n, _ => Free)) }

  /** A thread that sleeps un-notified has something to wait for; one that came through has not. */
  ghost predicate WaitersOk(s: State) {
    forall t :: 0 <= t < |s.waiters| ==>
      && (s.waiters[t].Asleep? ==> s.count > 0)
      && (s.waiters[t].Through? ==> s.count <= 0)
  }

  function Downs(acts: seq<Action>): nat {
    if acts == [] then 0
    else Downs(acts[..|acts| - 1]) + (if acts[|acts| - 1].CountDown? then acts[|acts| - 1].n else 0)
  }

  lemma StepKeepsWaiters(s: State, a: Action)
    requires WaitersOk(s) && Step(s, a).Some?
    ensures WaitersOk(Step(s, a).value)
  {
  }

  /** Over every run the counter is what is expected less what has been counted down, nobody
      sleeps un-notified at or below zero, and nobody passes above zero. */
  lemma {:induction false} LatchIsExact(expected: nat, n: nat, acts: seq<Action>, s: State)
    requires Exec(Step, Init(expected, n), acts) == Some(s)
    ensures s.count == expected - Downs(acts) && WaitersOk(s)
    decreases |acts|
  {
    if acts != [] {
      var m := Exec(Step, Init(expected, n), acts[..|acts| - 1]).value;
      LatchIsExact(expected, n, acts[..|acts| - 1], m);
      StepKeepsWaiters(m, acts[|acts| - 1]);
    }
  }

  /** The latch object; each method is one critical section. */
  class Monitor {
    var count: int
    var waiters: seq<Waiter>

    function View(): State
      reads this
    {
      State(count, waiters)
    }

    constructor (expected: nat, n: nat)
      ensures View() == Init(expected, n)
      ensures count == expected && |waiters| == n && forall i :: 0 <= i < n ==> waiters[i].Free?
    {
      count, waiters := expected, seq(n, _ => Free);
    }

    method CountDown(n: nat)
      modifies this
      ensures Step(old(View()), Action.CountDown(n)) == Some(View())
      ensures count == old(count) - n && |waiters| == |old(waiters)|
      ensures forall i :: 0 <= i < |waiters| ==>
        waiters[i] == if count <= 0 && old(waiters)[i].Asleep? then Awake else old(waiters)[i]
    {
      count := count - n;
      if count <= 0 {
        waiters := WakeAll(waiters);
      }
    }

    method Wait(t: nat) returns (through: bool)
      requires t < |waiters| && waiters[t].Free?
      modifies this`waiters
      ensures Step(old(View()), Action.Wait(t)) == Some(View())
      ensures through == (count <= 0)
      ensures waiters == old(waiters)[t := if through then Through else Asleep]
    {
      through := count <= 0;
      waiters := waiters[t := if through then Through else Asleep];
    }

    method Wake(t: nat)
      requires t < |waiters| && waiters[t].Asleep?
      modifies this`waiters
      ensures Step(old(View()), Action.Wake(t)) == Some(View())
      ensures waiters == old(waiters)[t := Awake]
    {
      waiters := waiters[t := Awake];
    }

    method Recheck(t: nat) returns (through: bool)
      requires t < |waiters| && waiters[t].Awake?
      modifies this`waiters
      ensures Step(old(View()), Action.Recheck(t)) == Some(View())
      ensures through == (count <= 0)
      ensures waiters == old(waiters)[t := if through then Through else Asleep]
    {
      through := count <= 0;
      waiters := waiters[t := if through then Through else Asleep];
    }
  }
}
