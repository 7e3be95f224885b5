/** Runs of labelled step functions.
    A protocol is a function `step` that maps a state and an action to the next state,
    or to `None` when the action is not enabled.  A run is a sequence of actions. */
module Runs {

  datatype Option<+T> = None | Some(value: T)

  /** The state reached from `s` by performing `acts` in order, if each is enabled in turn. */
  function Exec<S, A>(step: (S, A) -> Option<S>, s: S, acts: seq<A>): Option<S>
    decreases |acts|
  {
    if acts == [] then Some(s)
    else
      match Exec(step, s, acts[..|acts| - 1])
      case None => None
      case Some(m) => step(m, acts[|acts| - 1])
  }

  ghost predicate Preserves<S(!new), A(!new)>(step: (S, A) -> Option<S>, inv: S -> bool) {
    forall s, a :: inv(s) && step(s, a).Some? ==> inv(step(s, a).value)
  }

  /** An invariant of every step holds at the end of every run. */
  lemma {:induction false} InvariantOfRuns<S(!new), A(!new)>(
    step: (S, A) -> Option<S>, inv: S -> bool, s: S, acts: seq<A>)
    requires inv(s) && Preserves(step, inv)
    ensures Exec(step, s, acts).Some? ==> inv(Exec(step, s, acts).value)
    decreases |acts|
  {
    if acts != [] {
      InvariantOfRuns(step, inv, s, acts[..|acts| - 1]);
    }
  }

  /** A run may be extended by one enabled action, and two runs may be joined. */
  lemma {:induction false} ExecJoin<S, A>(step: (S, A) -> Option<S>, s: S, acts: seq<A>, more: seq<A>)
    ensures Exec(step, s, acts + more)
         == (match Exec(step, s, acts) case None => None case Some(m) => Exec(step, m, more))
    decreases |more|
  {
    if more == [] {
      assert acts + more == acts;
    } else {
      assert (acts + more)[..|acts + more| - 1] == acts + more[..|more| - 1];
      ExecJoin(step, s, acts, more[..|more| - 1]);
    }
  }

  lemma ExecNext<S, A>(step: (S, A) -> Option<S>, s: S, acts: seq<A>, m: S, a: A)
    requires Exec(step, s, acts) == Some(m)
    ensures Exec(step, s, acts + [a]) == step(m, a)
  {
    assert (acts + [a])[..|acts + [a]| - 1] == acts;
  }
}
