/** The barrier.  `arrive` and `wait` are two critical sections; the one that completes a
    phase runs the completion function and notifies while it holds the mutex. */
module Barrier {
  import opened Runs
  import opened Sums

  /** The counters of the barrier, and how often the completion function has run. */
  datatype Core = Core(count: int, iteration: nat, expected: int, completions: nat)

  /** `Arrived` holds the arrival token; a sleeper holds the iteration it waits to end. */
  datatype Pc = Working | Arrived(token: nat) | Asleep(token: nat) | Awake(token: nat)

  /** `done` is the number of phases that the participant has left. */
  datatype Participant = Participant(pc: Pc, done: nat)

  datatype State = State(core: Core, ps: seq<Participant>)

  datatype Action = Arrive(i: nat) | Wait(i: nat) | Wake(i: nat) | Recheck(i: nat)

  /** `do_ardive`: the counters after `n` arrivals, `drop` of them for the last time. */
  function DoArrive(c: Core, n: nat, drop: nat): Core {
    if c.count - n > 0 then c.(count := c.count - n)
    else Core(c.expected - drop, c.iteration + 1, c.expected - drop, c.completions + 1)
  }

  function WakeAll(ps: seq<Participant>): (r: seq<Participant>)
    ensures |r| == |ps|
    ensures forall i :: 0 <= i < |ps| ==>
      r[i] == if ps[i].pc.Asleep? then Participant(Awake(ps[i].pc.token), ps[i].done) else ps[i]
  {
    seq(|ps|, i requires 0 <= i < |ps| =>
      if ps[i].pc.Asleep? then Participant(Awake(ps[i].pc.token), ps[i].done) else ps[i])
  }

  function SetPc(s: State, i: nat, pc: Pc): State
    requires i < |s.ps|
  {
    s.(ps := s.ps[i := s.ps[i].(pc := pc)])
  }

  /** Evaluating the wait predicate: leave the phase if it is over, or sleep. */
  function Evaluate(s: State, i: nat): State
    requires i < |s.ps| && !s.ps[i].pc.Working?
  {
    var p := s.ps[i];
    if p.pc.token != s.core.iteration then s.(ps := s.ps[i := Participant(Working, p.done + 1)])
    else SetPc(s, i, Asleep(p.pc.token))
  }

  function Step(s: State, a: Action): Option<State> {
    if a.i >= |s.ps| then None
    else
      var p := s.ps[a.i];
      match a
      case Arrive(i) =>
        if !p.pc.Working? then None
        else
          var s', core := SetPc(s, i, Arrived(s.core.iteration)), DoArrive(s.core, 1, 0);
          Some(State(core, if core.iteration != s.core.iteration then WakeAll(s'.ps) else s'.ps))
      case Wait(i) => if p.pc.Arrived? then Some(Evaluate(s, i)) else None
      case Wake(i) => if p.pc.Asleep? then Some(SetPc(s, i, Awake(p.pc.token))) else None
      case Recheck(i) => if p.pc.Awake? then Some(Evaluate(s, i)) else None
  }

  function Init(p: nat): State {
    State(Core(p, 0, p, 0), seq(p, _ => Participant(Working, 0)))
  }

  // ---------------------------------------------------------------- the invariant

  /** 1 for a participant that has yet to arrive in phase `it`. */
  function Missing(it: nat): Participant -> nat {
    (p: Participant) => if p.pc.Working? || p.done < it then 1 else 0
  }

  predicate PlaceOk(p: Participant, it: nat) {
    match p.pc
    case Working => p.done == it
    case Arrived(token) => token == p.done && (p.done == it || p.done + 1 == it)
    case Asleep(token) => token == p.done == it
    case Awake(token) => token == p.done && (p.done == it || p.done + 1 == it)
  }

  ghost predicate Inv(s: State) {
    && |s.ps| >= 1 && s.core.expected == |s.ps|
    && s.core.completions == s.core.iteration
    && s.core.count == Sum(Missing(s.core.iteration), s.ps) >= 1
    && forall i :: 0 <= i < |s.ps| ==> PlaceOk(s.ps[i], s.core.iteration)
  }

  lemma {:induction false} SumOfOnes(f: Participant -> nat, ps: seq<Participant>)
    requires forall i :: 0 <= i < |ps| ==> f(ps[i]) == 1
    ensures Sum(f, ps) == |ps|
    decreases |ps|
  {
    if ps != [] {
      SumOfOnes(f, ps[..|ps| - 1]);
    }
  }

  lemma InitOk(p: nat)
    requires p >= 1
    ensures Inv(Init(p))
  {
    SumOfOnes(Missing(0), Init(p).ps);
  }

  /** An arrival that is not the last of its phase. */
  lemma ArriveKeepsInv(s: State, i: nat)
    requires Inv(s) && Step(s, Arrive(i)).Some? && s.core.count > 1
    ensures Inv(Step(s, Arrive(i)).value)
  {
    SumUpdate(Missing(s.core.iteration), s.ps, i, Participant(Arrived(s.core.iteration), s.ps[i].done));
  }

  /** When only one arrival is missing, everybody else has arrived in the current phase. */
  lemma LastArrival(s: State, i: nat)
    requires Inv(s) && i < |s.ps| && s.ps[i].pc.Working? && s.core.count == 1
    ensures forall j :: 0 <= j < |s.ps| && j != i ==> !s.ps[j].pc.Working? && s.ps[j].done == s.core.iteration
  {
    var f := Missing(s.core.iteration);
    var p := Participant(Arrived(s.core.iteration), s.ps[i].done);
    SumUpdate(f, s.ps, i, p);
    forall j | 0 <= j < |s.ps| && j != i ensures !s.ps[j].pc.Working? && s.ps[j].done == s.core.iteration {
      SumAtLeast(f, s.ps[i := p], j);
      assert PlaceOk(s.ps[j], s.core.iteration);
    }
  }

  lemma CompletionKeepsInv(s: State, i: nat)
    requires Inv(s) && Step(s, Arrive(i)).Some? && s.core.count == 1
    ensures Inv(Step(s, Arrive(i)).value)
  {
    var s' := Step(s, Arrive(i)).value;
    LastArrival(s, i);
    assert PlaceOk(s.ps[i], s.core.iteration);
    forall j | 0 <= j < |s'.ps| ensures PlaceOk(s'.ps[j], s'.core.iteration) && !s'.ps[j].pc.Working? {
      assert PlaceOk(s.ps[j], s.core.iteration);
    }
    SumOfOnes(Missing(s'.core.iteration), s'.ps);
  }

  lemma StepKeepsInv(s: State, a: Action)
    requires Inv(s) && Step(s, a).Some?
    ensures Inv(Step(s, a).value)
  {
    var s' := Step(s, a).value;
    if a.Arrive? {
      if s.core.count > 1 { ArriveKeepsInv(s, a.i); } else { CompletionKeepsInv(s, a.i); }
    } else {
      assert PlaceOk(s.ps[a.i], s.core.iteration);
      SumUpdate(Missing(s.core.iteration), s.ps, a.i, s'.ps[a.i]);
    }
  }

  lemma RunKeepsInv(p: nat, acts: seq<Action>, s: State)
    requires p >= 1 && Exec(Step, Init(p), acts) == Some(s)
    ensures Inv(s)
  {
    InitOk(p);
    forall s, a | Inv(s) && Step(s, a).Some? ensures Inv(Step(s, a).value) {
      StepKeepsInv(s, a);
    }
    assert Preserves(Step, s => Inv(s));
    InvariantOfRuns(Step, s => Inv(s), Init(p), acts);
  }

  // ---------------------------------------------------------------- lock-step

  /** The number of phases in which a participant has arrived. */
  function Arrivals(p: Participant): nat { if p.pc.Working? then p.done else p.done + 1 }

  /** Over every run: the phases completed by two participants differ by at most one; if one has
      left k phases then all have arrived in k phases, so nobody leaves a phase before all have
      arrived in it; and the completion function has run once per phase. */
  lemma LockStep(p: nat, acts: seq<Action>, s: State, i: nat, j: nat)
    requires p >= 1 && Exec(Step, Init(p), acts) == Some(s)
    requires i < |s.ps| && j < |s.ps|
    ensures s.ps[i].done <= s.ps[j].done + 1
    ensures s.ps[i].done <= Arrivals(s.ps[j])
    ensures s.core.completions == s.core.iteration
    ensures s.ps[i].done <= s.core.iteration <= Arrivals(s.ps[i])
  {
    RunKeepsInv(p, acts, s);
    assert PlaceOk(s.ps[i], s.core.iteration) && PlaceOk(s.ps[j], s.core.iteration);
  }

  /** The completion function runs when, and only when, everybody has arrived and nobody has
      left the phase. */
  lemma CompletionMeansAllArrived(p: nat, acts: seq<Action>, s: State, a: Action)
    requires p >= 1 && Exec(Step, Init(p), acts) == Some(s) && Step(s, a).Some?
    requires Step(s, a).value.core.completions != s.core.completions
    ensures Step(s, a).value.core.completions == s.core.completions + 1
    ensures forall j :: 0 <= j < |s.ps| ==>
      var q := Step(s, a).value.ps[j]; Arrivals(q) == s.core.iteration + 1 && q.done == s.core.iteration
  {
    RunKeepsInv(p, acts, s);
    LastArrival(s, a.i);
    assert PlaceOk(s.ps[a.i], s.core.iteration);
  }

  // ---------------------------------------------------------------- progress

  /** No reachable state has everybody blocked: some participant is not asleep, and its next
      step is enabled. */
  lemma NotAllBlocked(p: nat, acts: seq<Action>, s: State)
    requires p >= 1 && Exec(Step, Init(p), acts) == Some(s)
    ensures exists a: Action :: !a.Wake? && Step(s, a).Some?
  {
    RunKeepsInv(p, acts, s);
    var i := SumPositive(Missing(s.core.iteration), s.ps);
    assert PlaceOk(s.ps[i], s.core.iteration);
    match s.ps[i].pc
    case Working => assert Step(s, Arrive(i)).Some?;
    case Arrived(_) => assert Step(s, Wait(i)).Some?;
    case Awake(_) => assert Step(s, Recheck(i)).Some?;
  }

  /** How far a participant has come; a spurious wakeup sets it back by one. */
  function Advance(it: nat): Participant -> nat {
    (p: Participant) => 4 * p.done
      + match p.pc
        case Working => 0
        case Arrived(_) => 1
        case Asleep(_) => 2
        case Awake(token) => if token == it then 1 else 3
  }

  lemma {:induction false} SumMonotone(
    f: Participant -> nat, g: Participant -> nat, ps: seq<Participant>, qs: seq<Participant>)
    requires |ps| == |qs| && forall i :: 0 <= i < |ps| ==> f(ps[i]) <= g(qs[i])
    ensures Sum(f, ps) <= Sum(g, qs)
    decreases |ps|
  {
    if ps != [] {
      SumMonotone(f, g, ps[..|ps| - 1], qs[..|qs| - 1]);
    }
  }

  lemma {:induction false} SumBounded(f: Participant -> nat, ps: seq<Participant>, b: nat)
    requires forall i :: 0 <= i < |ps| ==> f(ps[i]) <= b
    ensures Sum(f, ps) <= |ps| * b
    decreases |ps|
  {
    if ps != [] {
      SumBounded(f, ps[..|ps| - 1], b);
      assert |ps| * b == (|ps| - 1) * b + b;
    }
  }

  lemma StepAdvances(s: State, a: Action)
    requires Inv(s) && Step(s, a).Some?
    ensures var s' := Step(s, a).value;
      var d := Sum(Advance(s'.core.iteration), s'.ps) - Sum(Advance(s.core.iteration), s.ps);
      if a.Wake? then d == -1 else d >= 1
  {
    var s' := Step(s, a).value;
    var f, g := Advance(s.core.iteration), Advance(s'.core.iteration);
    assert PlaceOk(s.ps[a.i], s.core.iteration);
    if s'.core.iteration == s.core.iteration {
      SumUpdate(f, s.ps, a.i, s'.ps[a.i]);
    } else {
      var m := SetPc(s, a.i, Arrived(s.core.iteration));
      SumUpdate(f, s.ps, a.i, m.ps[a.i]);
      LastArrival(s, a.i);
      forall j | 0 <= j < |m.ps| ensures f(m.ps[j]) <= g(s'.ps[j]) {
        assert PlaceOk(s.ps[j], s.core.iteration);
      }
      SumMonotone(f, g, m.ps, s'.ps);
    }
  }

  function Spurious(acts: seq<Action>): nat {
    if acts == [] then 0 else Spurious(acts[..|acts| - 1]) + if acts[|acts| - 1].Wake? then 1 else 0
  }

  /** Phases advance with the steps: a run with few completed phases is short, however it is
      scheduled, up to its spurious wakeups.  With `NotAllBlocked`, the barrier keeps turning. */
  lemma {:induction false} PhasesAdvance(p: nat, acts: seq<Action>, s: State)
    requires p >= 1 && Exec(Step, Init(p), acts) == Some(s)
    ensures |acts| <= Sum(Advance(s.core.iteration), s.ps) + 2 * Spurious(acts)
    ensures |acts| <= |s.ps| * (4 * s.core.iteration + 3) + 2 * Spurious(acts)
    decreases |acts|
  {
    RunKeepsInv(p, acts, s);
    forall i | 0 <= i < |s.ps| ensures Advance(s.core.iteration)(s.ps[i]) <= 4 * s.core.iteration + 3 {
      assert PlaceOk(s.ps[i], s.core.iteration);
    }
    SumBounded(Advance(s.core.iteration), s.ps, 4 * s.core.iteration + 3);
    if acts != [] {
      var m := Exec(Step, Init(p), acts[..|acts| - 1]).value;
      PhasesAdvance(p, acts[..|acts| - 1], m);
      RunKeepsInv(p, acts[..|acts| - 1], m);
      StepAdvances(m, acts[|acts| - 1]);
    }
  }

  // ---------------------------------------------------------------- arrive(n) and arrive_and_drop

  /** `n` single arrivals. */
  function OneByOne(c: Core, n: nat): Core {
    if n == 0 then c else DoArrive(OneByOne(c, n - 1), 1, 0)
  }

  /** `n` single arrivals that do not complete the phase. */
  lemma {:induction false} FewArrivals(c: Core, n: nat)
    requires n < c.count
    ensures OneByOne(c, n) == c.(count := c.count - n)
    decreases n
  {
    if n > 0 {
      FewArrivals(c, n - 1);
    }
  }

  /** Arriving `n` at once is arriving `n` times, as long as the phase has room for them. */
  lemma ArriveManyIsOneByOne(c: Core, n: nat)
    requires 1 <= n <= c.count
    ensures DoArrive(c, n, 0) == OneByOne(c, n)
    ensures OneByOne(c, n).iteration == if n == c.count then c.iteration + 1 else c.iteration
  {
    FewArrivals(c, n - 1);
  }

  /** One arrival or drop: the completion function runs once if and only if the phase
      completes, and a drop lowers the expected number if and only if it completes the phase. */
  lemma ArrivalCompletes(c: Core, drop: nat)
    requires 1 <= c.count
    ensures var d := DoArrive(c, 1, drop);
      && (d.iteration == c.iteration + 1 <==> c.count == 1) && (d.iteration == c.iteration <==> c.count > 1)
      && d.completions - c.completions == d.iteration - c.iteration
      && d.expected == c.expected - (if c.count == 1 then drop else 0)
      && d.count == if c.count == 1 then d.expected else c.count - 1
  {
  }

  lemma {:induction false} OneByOneJoin(c: Core, n: nat, k: nat)
    ensures OneByOne(OneByOne(c, n), k) == OneByOne(c, n + k)
    decreases k
  {
    if k > 0 {
      OneByOneJoin(c, n, k - 1);
    }
  }

  /** From the start of a phase, a full round of arrivals completes it, and one fewer does not. */
  lemma FullPhase(c: Core)
    requires c.count == c.expected >= 1
    ensures OneByOne(c, c.expected) == c.(iteration := c.iteration + 1, completions := c.completions + 1)
    ensures OneByOne(c, c.expected - 1) == c.(count := 1)
  {
    FewArrivals(c, c.expected - 1);
    LastOfMany(c, c.expected - 1);
  }

  lemma LastOfMany(c: Core, k: nat)
    requires OneByOne(c, k) == c.(count := 1)
    ensures OneByOne(c, k + 1) == DoArrive(c.(count := 1), 1, 0)
  {
  }

  /** From the start of a phase, `q` full rounds of arrivals complete exactly `q` phases, with
      one run of the completion function each. */
  lemma {:induction false} FullPhases(c: Core, q: nat)
    requires c.count == c.expected >= 1
    ensures OneByOne(c, q * c.expected) == c.(iteration := c.iteration + q, completions := c.completions + q)
    decreases q
  {
    if q > 0 {
      FullPhases(c, q - 1);
      assert q * c.expected == (q - 1) * c.expected + c.expected;
      OneByOneJoin(c, (q - 1) * c.expected, c.expected);
      FullPhase(OneByOne(c, (q - 1) * c.expected));
    }
  }

  /** Exactly when `arrive_and_drop` does what it promises.  Of `expected` participants one
      drops, and then the others complete the phase.  If the drop itself completed the phase,
      each later phase takes one arrival fewer than before; if it did not, each takes as many
      as before, so the others alone never complete one.  The completion function has run once
      per phase. */
  lemma DropTakesEffect(c: Core, q: nat)
    requires 1 <= c.count <= c.expected && c.expected >= 2
    ensures var next := OneByOne(DoArrive(c, 1, 1), c.count - 1);
      var e := if c.count == 1 then c.expected - 1 else c.expected;
      && next == Core(e, c.iteration + 1, e, c.completions + 1)
      && OneByOne(next, q * e) == Core(e, c.iteration + 1 + q, e, c.completions + 1 + q)
      && (OneByOne(next, c.expected - 1).iteration == c.iteration + 2 <==> c.count == 1)
      && (OneByOne(next, c.expected - 1).iteration == c.iteration + 1 <==> c.count > 1)
  {
    var dropped := DoArrive(c, 1, 1);
    var next := OneByOne(dropped, c.count - 1);
    if c.count > 1 {
      FewArrivals(dropped, c.count - 2);
    }
    FullPhase(next);
    FullPhases(next, q);
  }

  /** The barrier object; each method is one critical section. */
  class Monitor {
    var count: int
    var iteration: nat
    var expected: int
    var ps: seq<Participant>
    ghost var completions: nat

    ghost function View(): State
      reads this
    {
      State(Core(count, iteration, expected, completions), ps)
    }

    constructor (expected: nat)
      ensures View() == Init(expected)
      ensures count == this.expected == expected && iteration == 0 && completions == 0
      ensures |ps| == expected && forall i :: 0 <= i < expected ==> ps[i] == Participant(Working, 0)
    {
      count, iteration, this.expected := expected, 0, expected;
      ps, completions := seq(expected, _ => Participant(Working, 0)), 0;
    }

    /** Returns the arrival token; `completed` tells whether the completion function ran. */
    method ArriveSection(n: nat, drop: nat) returns (token: nat, completed: bool)
      modifies this
      ensures View().core == DoArrive(old(View()).core, n, drop)
      ensures token == old(iteration)
      ensures completed <==> old(count) - n <= 0
      ensures iteration == old(iteration) + (if completed then 1 else 0)
      ensures completions == old(completions) + (if completed then 1 else 0)
      ensures expected == old(expected) - (if completed then drop else 0)
      ensures count == if completed then expected else old(count) - n
      ensures |ps| == |old(ps)| && forall i :: 0 <= i < |ps| ==>
        ps[i] == if completed && old(ps)[i].pc.Asleep? then Participant(Awake(old(ps)[i].pc.token), old(ps)[i].done)
                 else old(ps)[i]
    {
      token := iteration;
      count := count - n;
      if count > 0 {
        return token, false;
      }
      completions := completions + 1;
      expected := expected - drop;
      count := expected;
      iteration := iteration + 1;
      ps := WakeAll(ps);
      completed := true;
    }

    method Arrive(i: nat)
      requires i < |ps| && ps[i].pc.Working?
      modifies this
      ensures Step(old(View()), Action.Arrive(i)) == Some(View())
      ensures |ps| == |old(ps)| && ps[i] == Participant(Arrived(old(iteration)), old(ps)[i].done)
      ensures forall j :: 0 <= j < |ps| && j != i ==>
        ps[j] == if old(count) <= 1 && old(ps)[j].pc.Asleep? then Participant(Awake(old(ps)[j].pc.token), old(ps)[j].done)
                 else old(ps)[j]
      ensures iteration == old(iteration) + (if old(count) <= 1 then 1 else 0)
      ensures count == (if old(count) <= 1 then expected else old(count) - 1) && expected == old(expected)
    {
      ps := ps[i := ps[i].(pc := Arrived(iteration))];
      ghost var arrived := ps;
      var token, completed := ArriveSection(1, 0);
      assert ps == if completed then WakeAll(arrived) else arrived;
    }

    method Wait(i: nat)
      requires i < |ps| && ps[i].pc.Arrived?
      modifies this`ps
      ensures Step(old(View()), Action.Wait(i)) == Some(View())
      ensures var p := old(ps)[i]; ps == old(ps)[i :=
        if p.pc.token != iteration then Participant(Working, p.done + 1) else Participant(Asleep(iteration), p.done)]
    {
      if ps[i].pc.token != iteration {
        ps := ps[i := Participant(Working, ps[i].done + 1)];
        return;
      }
      ps := ps[i := ps[i].(pc := Asleep(iteration))];
    }

    method Recheck(i: nat)
      requires i < |ps| && ps[i].pc.Awake?
      modifies this`ps
      ensures Step(old(View()), Action.Recheck(i)) == Some(View())
      ensures var p := old(ps)[i]; ps == old(ps)[i :=
        if p.pc.token != iteration then Participant(Working, p.done + 1) else Participant(Asleep(iteration), p.done)]
    {
      if ps[i].pc.token != iteration {
        ps := ps[i := Participant(Working, ps[i].done + 1)];
      } else {
        ps := ps[i := ps[i].(pc := Asleep(iteration))];
      }
    }

    method Wake(i: nat)
      requires i < |ps| && ps[i].pc.Asleep?
      modifies this`ps
      ensures Step(old(View()), Action.Wake(i)) == Some(View())
      ensures ps == old(ps)[i := Participant(Awake(old(ps)[i].pc.token), old(ps)[i].done)]
    {
      ps := ps[i := ps[i].(pc := Awake(ps[i].pc.token))];
    }
  }
}
