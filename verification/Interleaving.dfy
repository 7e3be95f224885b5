/** Tasks that write a shared array, interleaved at the grain of one element update.
    A task is a sequence of events; a schedule names, step by step, the task that performs
    its next event. */
module Interleaving {
  import opened Runs
  import opened Sums

  /** Replace the element at `slot` by `update` of it. */
  datatype Event<!T> = Event(slot: nat, update: T -> T)

  type Program<!T> = seq<seq<Event<T>>>

  /** `pos[k]` is the number of events that task `k` has performed. */
  datatype Machine<T> = Machine(pos: seq<nat>, mem: seq<T>)

  function Step<T>(prog: Program<T>, m: Machine<T>, k: nat): Option<Machine<T>> {
    if k < |prog| && k < |m.pos| && m.pos[k] < |prog[k]| && prog[k][m.pos[k]].slot < |m.mem| then
      var e := prog[k][m.pos[k]];
      Some(Machine(m.pos[k := m.pos[k] + 1], m.mem[e.slot := e.update(m.mem[e.slot])]))
    else None
  }

  function Stepper<T>(prog: Program<T>): (Machine<T>, nat) -> Option<Machine<T>> {
    (m: Machine<T>, k: nat) => Step(prog, m, k)
  }

  function Start<T>(prog: Program<T>, mem: seq<T>): Machine<T> {
    Machine(seq(|prog|, _ => 0), mem)
  }

  function Lengths<T>(prog: Program<T>): (r: seq<nat>)
    ensures |r| == |prog| && forall k :: 0 <= k < |prog| ==> r[k] == |prog[k]|
  {
    seq(|prog|, k requires 0 <= k < |prog| => |prog[k]|)
  }

  /** `mem` is a possible result: some interleaving of all events of all tasks produces it. */
  ghost predicate Outcome<T>(prog: Program<T>, before: seq<T>, after: seq<T>) {
    exists sched :: Exec(Stepper(prog), Start(prog, before), sched) == Some(Machine(Lengths(prog), after))
  }

  ghost predicate InBounds<T>(prog: Program<T>, size: nat) {
    forall k, j :: 0 <= k < |prog| && 0 <= j < |prog[k]| ==> prog[k][j].slot < size
  }

  /** No two events, of the same or of different tasks, touch the same slot. */
  ghost predicate RaceFree<T>(prog: Program<T>) {
    forall k, j, k', j' ::
      (0 <= k < |prog| && 0 <= j < |prog[k]| && 0 <= k' < |prog| && 0 <= j' < |prog[k']|
       && prog[k][j].slot == prog[k'][j'].slot) ==> k == k' && j == j'
  }

  ghost predicate Touched<T>(prog: Program<T>, i: int) {
    exists k, j :: 0 <= k < |prog| && 0 <= j < |prog[k]| && prog[k][j].slot == i
  }

  ghost predicate Sound<T>(prog: Program<T>, before: seq<T>, m: Machine<T>) {
    && |m.pos| == |prog| && |m.mem| == |before|
    && (forall k :: 0 <= k < |prog| ==> m.pos[k] <= |prog[k]|)
    && (forall i :: 0 <= i < |before| && !Touched(prog, i) ==> m.mem[i] == before[i])
  }

  /** What a race-free program has done to the slot of each event. */
  ghost predicate Applied<T>(prog: Program<T>, before: seq<T>, m: Machine<T>)
    requires InBounds(prog, |before|) && Sound(prog, before, m)
  {
    forall k, j :: 0 <= k < |prog| && 0 <= j < |prog[k]| ==>
      var e := prog[k][j];
      m.mem[e.slot] == if j < m.pos[k] then e.update(before[e.slot]) else before[e.slot]
  }

  lemma StepKeepsSound<T>(prog: Program<T>, before: seq<T>, m: Machine<T>, k: nat)
    requires Sound(prog, before, m) && Step(prog, m, k).Some?
    ensures Sound(prog, before, Step(prog, m, k).value)
  {
    var m' := Step(prog, m, k).value;
    forall i | 0 <= i < |before| && !Touched(prog, i) ensures m'.mem[i] == before[i] {
      assert prog[k][m.pos[k]].slot != i;
    }
  }

  lemma StepKeepsApplied<T>(prog: Program<T>, before: seq<T>, m: Machine<T>, k: nat)
    requires InBounds(prog, |before|) && RaceFree(prog) && Sound(prog, before, m) && Applied(prog, before, m)
    requires Step(prog, m, k).Some? && Sound(prog, before, Step(prog, m, k).value)
    ensures Applied(prog, before, Step(prog, m, k).value)
  {
  }

  lemma {:induction false} RunKeepsSound<T>(prog: Program<T>, before: seq<T>, sched: seq<nat>, m: Machine<T>)
    requires Exec(Stepper(prog), Start(prog, before), sched) == Some(m)
    ensures Sound(prog, before, m)
    decreases |sched|
  {
    if sched != [] {
      var m0 := Exec(Stepper(prog), Start(prog, before), sched[..|sched| - 1]).value;
      RunKeepsSound(prog, before, sched[..|sched| - 1], m0);
      StepKeepsSound(prog, before, m0, sched[|sched| - 1]);
    }
  }

  lemma {:induction false} RunKeepsApplied<T>(prog: Program<T>, before: seq<T>, sched: seq<nat>, m: Machine<T>)
    requires InBounds(prog, |before|) && RaceFree(prog)
    requires Exec(Stepper(prog), Start(prog, before), sched) == Some(m)
    ensures Sound(prog, before, m) && Applied(prog, before, m)
    decreases |sched|
  {
    RunKeepsSound(prog, before, sched, m);
    if sched != [] {
      var m0 := Exec(Stepper(prog), Start(prog, before), sched[..|sched| - 1]).value;
      RunKeepsApplied(prog, before, sched[..|sched| - 1], m0);
      StepKeepsApplied(prog, before, m0, sched[|sched| - 1]);
    }
  }

  /** Schedule independence: a race-free program applies each update exactly once and touches
      nothing else, in whatever order its tasks are interleaved. */
  lemma RaceFreeOutcome<T>(prog: Program<T>, before: seq<T>, after: seq<T>)
    requires InBounds(prog, |before|) && RaceFree(prog) && Outcome(prog, before, after)
    ensures |after| == |before|
    ensures forall k, j :: 0 <= k < |prog| && 0 <= j < |prog[k]| ==>
      after[prog[k][j].slot] == prog[k][j].update(before[prog[k][j].slot])
    ensures forall i :: 0 <= i < |before| && !Touched(prog, i) ==> after[i] == before[i]
  {
    var sched :| Exec(Stepper(prog), Start(prog, before), sched) == Some(Machine(Lengths(prog), after));
    RunKeepsApplied(prog, before, sched, Machine(Lengths(prog), after));
  }

  /** Race-free or not, no schedule changes a slot that no event touches. */
  lemma UntouchedOutcome<T>(prog: Program<T>, before: seq<T>, after: seq<T>)
    requires Outcome(prog, before, after)
    ensures |after| == |before|
    ensures forall i :: 0 <= i < |before| && !Touched(prog, i) ==> after[i] == before[i]
  {
    var sched :| Exec(Stepper(prog), Start(prog, before), sched) == Some(Machine(Lengths(prog), after));
    RunKeepsSound(prog, before, sched, Machine(Lengths(prog), after));
  }

  /** Some event on slot `i` has been performed. */
  ghost predicate Reached<T>(prog: Program<T>, m: Machine<T>, i: int) {
    exists k, j :: 0 <= k < |prog| && k < |m.pos| && 0 <= j < m.pos[k] && j < |prog[k]| && prog[k][j].slot == i
  }

  lemma StepReaches<T>(prog: Program<T>, m: Machine<T>, k: nat, i: nat)
    requires Step(prog, m, k).Some?
    ensures Reached(prog, Step(prog, m, k).value, i) <==> Reached(prog, m, i) || prog[k][m.pos[k]].slot == i
  {
    var m' := Step(prog, m, k).value;
    if k', j' :| 0 <= k' < |prog| && k' < |m.pos| && 0 <= j' < m.pos[k'] && j' < |prog[k']| && prog[k'][j'].slot == i {
      assert j' < m'.pos[k'];
    }
    if prog[k][m.pos[k]].slot == i {
      assert m.pos[k] < m'.pos[k];
    }
  }

  lemma StepKeepsKind<T>(prog: Program<T>, before: seq<T>, m: Machine<T>, k: nat, i: nat, kind: T -> bool)
    requires |m.mem| == |before| && i < |before| && Step(prog, m, k).Some?
    requires forall k, j, x ::
      0 <= k < |prog| && 0 <= j < |prog[k]| && prog[k][j].slot == i ==> kind(prog[k][j].update(x))
    ensures |Step(prog, m, k).value.mem| == |before|
    ensures prog[k][m.pos[k]].slot != i ==> Step(prog, m, k).value.mem[i] == m.mem[i]
    ensures prog[k][m.pos[k]].slot == i ==> kind(Step(prog, m, k).value.mem[i])
  {
    var j, x: T := m.pos[k], m.mem[i];
    if prog[k][j].slot == i {
      assert kind(prog[k][j].update(x));
    }
  }

  /** If every event on slot `i` writes a value of some kind, a slot that has been written has
      a value of that kind. */
  lemma {:induction false} RunKeepsKind<T>(prog: Program<T>, before: seq<T>, sched: seq<nat>, m: Machine<T>,
                                           i: nat, kind: T -> bool)
    requires Exec(Stepper(prog), Start(prog, before), sched) == Some(m) && i < |before|
    requires forall k, j, x ::
      0 <= k < |prog| && 0 <= j < |prog[k]| && prog[k][j].slot == i ==> kind(prog[k][j].update(x))
    ensures |m.mem| == |before| && (Reached(prog, m, i) ==> kind(m.mem[i]))
    decreases |sched|
  {
    if sched != [] {
      var m0 := Exec(Stepper(prog), Start(prog, before), sched[..|sched| - 1]).value;
      RunKeepsKind(prog, before, sched[..|sched| - 1], m0, i, kind);
      StepReaches(prog, m0, sched[|sched| - 1], i);
      StepKeepsKind(prog, before, m0, sched[|sched| - 1], i, kind);
    }
  }

  /** The same at the end of every complete interleaving, race-free or not. */
  lemma WrittenOutcome<T>(prog: Program<T>, before: seq<T>, after: seq<T>, i: nat, kind: T -> bool)
    requires Outcome(prog, before, after) && i < |before| && Touched(prog, i)
    requires forall k, j, x ::
      0 <= k < |prog| && 0 <= j < |prog[k]| && prog[k][j].slot == i ==> kind(prog[k][j].update(x))
    ensures |after| == |before| && kind(after[i])
  {
    var sched :| Exec(Stepper(prog), Start(prog, before), sched) == Some(Machine(Lengths(prog), after));
    RunKeepsKind(prog, before, sched, Machine(Lengths(prog), after), i, kind);
    var k, j :| 0 <= k < |prog| && 0 <= j < |prog[k]| && prog[k][j].slot == i;
    assert j < Lengths(prog)[k];
  }

  function Identity(x: nat): nat { x }

  ghost function Left<T>(prog: Program<T>, pos: seq<nat>): (r: seq<nat>)
    requires |pos| == |prog| && forall k :: 0 <= k < |prog| ==> pos[k] <= |prog[k]|
    ensures |r| == |prog| && forall k :: 0 <= k < |prog| ==> r[k] == |prog[k]| - pos[k]
  {
    seq(|prog|, k requires 0 <= k < |prog| => (|prog[k]| - pos[k]) as nat)
  }

  /** The number of events still to be performed. */
  ghost function Remaining<T>(prog: Program<T>, pos: seq<nat>): nat
    requires |pos| == |prog| && forall k :: 0 <= k < |prog| ==> pos[k] <= |prog[k]|
  {
    Sum(Identity, Left(prog, pos))
  }

  lemma StepDropsRemaining<T>(prog: Program<T>, pos: seq<nat>, k: nat)
    requires |pos| == |prog| && forall k :: 0 <= k < |prog| ==> pos[k] <= |prog[k]|
    requires k < |prog| && pos[k] < |prog[k]|
    ensures Remaining(prog, pos[k := pos[k] + 1]) == Remaining(prog, pos) - 1
  {
    var left := Left(prog, pos);
    SumUpdate(Identity, left, k, left[k] - 1);
    assert left[k := left[k] - 1] == Left(prog, pos[k := pos[k] + 1]);
  }

  /** From any point of a run, some schedule brings every task to its end. */
  lemma {:induction false} Complete<T>(prog: Program<T>, m: Machine<T>, before: seq<T>, sched: seq<nat>)
    returns (after: seq<T>)
    requires InBounds(prog, |before|) && Exec(Stepper(prog), Start(prog, before), sched) == Some(m)
    requires Sound(prog, before, m)
    ensures Outcome(prog, before, after)
    decreases Remaining(prog, m.pos)
  {
    if k: nat :| k < |prog| && m.pos[k] < |prog[k]| {
      var m' := Step(prog, m, k).value;
      assert (sched + [k])[..|sched + [k]| - 1] == sched;
      StepKeepsSound(prog, before, m, k);
      StepDropsRemaining(prog, m.pos, k);
      after := Complete(prog, m', before, sched + [k]);
    } else {
      assert m.pos == Lengths(prog) && m == Machine(Lengths(prog), m.mem);
      after := m.mem;
    }
  }

  // ---------------------------------------------------------------- races

  /** Event `ja` of task `a` and event `jb` of task `b` are the only ones on slot `i`. */
  ghost predicate Contended<T>(prog: Program<T>, i: nat, a: nat, ja: nat, b: nat, jb: nat) {
    && a < |prog| && b < |prog| && a != b && ja < |prog[a]| && jb < |prog[b]|
    && prog[a][ja].slot == prog[b][jb].slot == i
    && forall k, j :: 0 <= k < |prog| && 0 <= j < |prog[k]| && prog[k][j].slot == i ==> (k, j) == (a, ja) || (k, j) == (b, jb)
  }

  /** On slot `i`, task `a` comes first. */
  ghost predicate InTurn<T>(prog: Program<T>, before: seq<T>, m: Machine<T>, i: nat, a: nat, ja: nat, b: nat, jb: nat)
    requires Contended(prog, i, a, ja, b, jb) && i < |before|
  {
    && Sound(prog, before, m)
    && var ua, ub := prog[a][ja].update, prog[b][jb].update;
      if m.pos[b] > jb then m.pos[a] > ja && m.mem[i] == ub(ua(before[i]))
      else if m.pos[a] > ja then m.mem[i] == ua(before[i])
      else m.mem[i] == before[i]
  }

  lemma StepKeepsTurn<T>(prog: Program<T>, before: seq<T>, m: Machine<T>, k: nat,
                         i: nat, a: nat, ja: nat, b: nat, jb: nat)
    requires Contended(prog, i, a, ja, b, jb) && i < |before| && InTurn(prog, before, m, i, a, ja, b, jb)
    requires Step(prog, m, k).Some? && (k == b && m.pos[b] == jb ==> m.pos[a] > ja)
    ensures InTurn(prog, before, Step(prog, m, k).value, i, a, ja, b, jb)
  {
    StepKeepsSound(prog, before, m, k);
    assert prog[k][m.pos[k]].slot == i ==> (k, m.pos[k]) == (a, ja) || (k, m.pos[k]) == (b, jb);
  }

  lemma TurnStep<T>(prog: Program<T>, before: seq<T>, sched: seq<nat>, m: Machine<T>, k: nat)
    requires InBounds(prog, |before|) && Sound(prog, before, m) && k < |prog| && m.pos[k] < |prog[k]|
    requires Exec(Stepper(prog), Start(prog, before), sched) == Some(m)
    ensures Step(prog, m, k).Some?
    ensures Exec(Stepper(prog), Start(prog, before), sched + [k]) == Step(prog, m, k)
    ensures Sound(prog, before, Step(prog, m, k).value)
    ensures Remaining(prog, Step(prog, m, k).value.pos) < Remaining(prog, m.pos)
  {
    StepKeepsSound(prog, before, m, k);
    StepDropsRemaining(prog, m.pos, k);
    ExecNext(Stepper(prog), Start(prog, before), sched, m, k);
  }

  /** First task `a` runs to its end, and then the others in some order. */
  lemma {:induction false} RunInTurn<T>(prog: Program<T>, before: seq<T>, sched: seq<nat>, m: Machine<T>,
                                        i: nat, a: nat, ja: nat, b: nat, jb: nat) returns (after: seq<T>)
    requires Contended(prog, i, a, ja, b, jb) && i < |before| && InBounds(prog, |before|)
    requires Exec(Stepper(prog), Start(prog, before), sched) == Some(m) && InTurn(prog, before, m, i, a, ja, b, jb)
    ensures Outcome(prog, before, after) && |after| == |before|
    ensures after[i] == prog[b][jb].update(prog[a][ja].update(before[i]))
    decreases Remaining(prog, m.pos)
  {
    if k: nat :| k < |prog| && m.pos[k] < |prog[k]| && (m.pos[a] < |prog[a]| ==> k == a) {
      TurnStep(prog, before, sched, m, k);
      StepKeepsTurn(prog, before, m, k, i, a, ja, b, jb);
      after := RunInTurn(prog, before, sched + [k], Step(prog, m, k).value, i, a, ja, b, jb);
    } else {
      assert m.pos[a] == |prog[a]|;
      assert m.pos == Lengths(prog) && m == Machine(Lengths(prog), m.mem);
      after := m.mem;
    }
  }

  /** The event writes `v`, whatever was there. */
  ghost predicate Writes<T(!new)>(e: Event<T>, v: T) { forall x :: e.update(x) == v }

  /** Some schedule leaves `v` at slot `i`. */
  ghost predicate CanLeave<T(!new)>(prog: Program<T>, before: seq<T>, i: nat, v: T) {
    exists after :: Outcome(prog, before, after) && i < |after| && after[i] == v
  }

  /** Either of two racing events can come last. */
  lemma EitherWins<T(!new)>(prog: Program<T>, before: seq<T>, i: nat, a: nat, ja: nat, b: nat, jb: nat,
                            size: nat, va: T, vb: T)
    requires Contended(prog, i, a, ja, b, jb) && i < size <= |before| && InBounds(prog, size)
    requires Writes(prog[a][ja], va) && Writes(prog[b][jb], vb)
    ensures CanLeave(prog, before, i, va) && CanLeave(prog, before, i, vb)
  {
    var after := RunInTurn(prog, before, [], Start(prog, before), i, a, ja, b, jb);
    var other := RunInTurn(prog, before, [], Start(prog, before), i, b, jb, a, ja);
  }

  /** The call `parallel(tasks)`: all tasks run to their end, and at each moment the
      scheduler lets any unfinished task take its next step. */
  method Parallel<T>(prog: Program<T>, mem: array<T>)
    requires InBounds(prog, mem.Length)
    modifies mem
    ensures Outcome(prog, old(mem[..]), mem[..])
  {
    var pos: seq<nat> := seq(|prog|, _ => 0);
    ghost var sched: seq<nat> := [];
    ghost var before := mem[..];
    while exists k :: 0 <= k < |prog| && pos[k] < |prog[k]|
      invariant |pos| == |prog| && forall k :: 0 <= k < |prog| ==> pos[k] <= |prog[k]|
      invariant Exec(Stepper(prog), Start(prog, before), sched) == Some(Machine(pos, mem[..]))
      decreases Remaining(prog, pos)
    {
      var k: nat :| k < |prog| && pos[k] < |prog[k]|;
      var e := prog[k][pos[k]];
      ghost var m := Machine(pos, mem[..]);
      mem[e.slot] := e.update(mem[e.slot]);
      StepDropsRemaining(prog, pos, k);
      ExecNext(Stepper(prog), Start(prog, before), sched, m, k);
      pos := pos[k := pos[k] + 1];
      sched := sched + [k];
      assert mem[..] == m.mem[e.slot := e.update(m.mem[e.slot])];
      assert Step(prog, m, k) == Some(Machine(pos, mem[..]));
    }
    assert pos == Lengths(prog);
  }
}
