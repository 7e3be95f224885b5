/** The shared stop state: callbacks registered by `stop_callback` objects, and a stop request.
    Every operation runs under one mutex, callbacks included, so each is one step; callbacks
    do not call back into the stop state. */
module StopState {
  import opened Runs

  /** `objects` holds the live `stop_callback` objects and whether their token has a state;
      `used` holds all objects ever constructed; `log` lists the invocations;
      `wins` counts the requests that returned true. */
  datatype State = State(stopping: bool, callbacks: seq<nat>, log: seq<nat>, wins: nat,
                         objects: map<nat, bool>, used: set<nat>)

  datatype Action =
    | Request
    | Construct(c: nat, attached: bool)
    | Destroy(c: nat)

  /** Take out the first occurrence of `c`, if there is one. */
  function Erase(cs: seq<nat>, c: nat): seq<nat> {
    if cs == [] then [] else if cs[0] == c then cs[1..] else [cs[0]] + Erase(cs[1..], c)
  }

  /** `ds` is `cs` without the first `c` in it. */
  ghost predicate WithoutFirst(cs: seq<nat>, c: nat, ds: seq<nat>) {
    exists i :: 0 <= i < |cs| && cs[i] == c && c !in cs[..i] && ds == cs[..i] + cs[i + 1..]
  }

  function Step(s: State, a: Action): Option<State> {
    match a
    case Request =>
      if s.stopping then Some(s)
      else Some(s.(stopping := true, callbacks := [], log := s.log + s.callbacks, wins := s.wins + 1))
    case Construct(c, attached) =>
      if c in s.used then None
      else
        var s' := s.(objects := s.objects[c := attached], used := s.used + {c});
        if attached && !s.stopping then Some(s'.(callbacks := s.callbacks + [c]))
        else Some(s'.(log := s.log + [c]))
    case Destroy(c) =>
      if c !in s.objects then None
      else
        var s' := s.(objects := s.objects - {c});
        if s.objects[c] then Some(s'.(callbacks := Erase(s.callbacks, c))) else Some(s')
  }

  const Init := State(false, [], [], 0, map[], {})

  // ---------------------------------------------------------------- what a run asks for

  /** The objects constructed with a live token, in order. */
  function Registered(acts: seq<Action>): seq<nat> {
    if acts == [] then []
    else
      var a, front := acts[|acts| - 1], Registered(acts[..|acts| - 1]);
      if a.Construct? && a.attached then front + [a.c] else front
  }

  /** The objects constructed on an empty token, in order. */
  function Detached(acts: seq<Action>): seq<nat> {
    if acts == [] then []
    else
      var a, front := acts[|acts| - 1], Detached(acts[..|acts| - 1]);
      if a.Construct? && !a.attached then front + [a.c] else front
  }

  function Constructed(acts: seq<Action>): seq<nat> {
    if acts == [] then []
    else
      var a, front := acts[|acts| - 1], Constructed(acts[..|acts| - 1]);
      if a.Construct? then front + [a.c] else front
  }

  function Destroyed(acts: seq<Action>): set<nat> {
    if acts == [] then {}
    else
      var a, gone := acts[|acts| - 1], Destroyed(acts[..|acts| - 1]);
      if a.Destroy? then gone + {a.c} else gone
  }

  predicate HasRequest(acts: seq<Action>) { Request in acts }

  /** The members of `cs` that are not in `gone`, in order. */
  function Keep(cs: seq<nat>, gone: set<nat>): seq<nat> {
    if cs == [] then []
    else if cs[0] in gone then Keep(cs[1..], gone)
    else [cs[0]] + Keep(cs[1..], gone)
  }

  lemma {:induction false} KeepConcat(cs: seq<nat>, ds: seq<nat>, gone: set<nat>)
    ensures Keep(cs + ds, gone) == Keep(cs, gone) + Keep(ds, gone)
    decreases |cs|
  {
    if cs == [] {
      assert cs + ds == ds;
    } else {
      assert (cs + ds)[1..] == cs[1..] + ds;
      KeepConcat(cs[1..], ds, gone);
    }
  }

  lemma {:induction false} KeepMore(cs: seq<nat>, gone: set<nat>, c: nat)
    requires multiset(cs)[c] <= 1
    ensures Keep(cs, gone + {c}) == Erase(Keep(cs, gone), c)
    decreases |cs|
  {
    if cs != [] {
      assert cs == [cs[0]] + cs[1..];
      assert multiset(cs) == multiset{cs[0]} + multiset(cs[1..]);
      KeepMore(cs[1..], gone, c);
      assert ([cs[0]] + Keep(cs[1..], gone))[1..] == Keep(cs[1..], gone);
      if cs[0] == c {
        NothingToKeep(cs[1..], gone, c);
      }
    }
  }

  lemma {:induction false} NothingToKeep(cs: seq<nat>, gone: set<nat>, c: nat)
    requires c !in cs
    ensures Keep(cs, gone + {c}) == Keep(cs, gone)
    decreases |cs|
  {
    if cs != [] {
      NothingToKeep(cs[1..], gone, c);
    }
  }

  // ---------------------------------------------------------------- before the request

  /** The state after a run without a request. */
  ghost predicate Quiet(acts: seq<Action>, s: State) {
    && !s.stopping && s.wins == 0
    && s.callbacks == Keep(Registered(acts), Destroyed(acts))
    && s.log == Detached(acts)
    && Destroyed(acts) <= s.used
    && (forall c :: c in s.objects ==> c in s.used)
    && (forall c :: c in Registered(acts) ==> c in s.used && (c in s.objects ==> s.objects[c]))
    && (forall c :: multiset(Registered(acts))[c] <= 1)
  }

  lemma ConstructIsQuiet(acts: seq<Action>, s: State, c: nat, attached: bool)
    requires Quiet(acts, s) && Step(s, Construct(c, attached)).Some?
    ensures Quiet(acts + [Construct(c, attached)], Step(s, Construct(c, attached)).value)
  {
    var more := acts + [Construct(c, attached)];
    assert more[..|more| - 1] == acts;
    if attached {
      KeepConcat(Registered(acts), [c], Destroyed(acts));
      assert Keep([c], Destroyed(acts)) == [c];
      assert c !in multiset(Registered(acts));
    }
  }

  lemma DestroyIsQuiet(acts: seq<Action>, s: State, c: nat)
    requires Quiet(acts, s) && Step(s, Destroy(c)).Some?
    ensures Quiet(acts + [Destroy(c)], Step(s, Destroy(c)).value)
  {
    var more := acts + [Destroy(c)];
    assert more[..|more| - 1] == acts;
    if s.objects[c] {
      KeepMore(Registered(acts), Destroyed(acts), c);
    } else {
      NothingToKeep(Registered(acts), Destroyed(acts), c);
    }
  }

  lemma {:induction false} QuietRuns(acts: seq<Action>, s: State)
    requires Exec(Step, Init, acts) == Some(s) && !HasRequest(acts)
    ensures Quiet(acts, s)
    decreases |acts|
  {
    if acts != [] {
      var front, a := acts[..|acts| - 1], acts[|acts| - 1];
      assert acts == front + [a];
      var m := Exec(Step, Init, front).value;
      QuietRuns(front, m);
      match a
      case Construct(c, attached) => ConstructIsQuiet(front, m, c, attached);
      case Destroy(c) => DestroyIsQuiet(front, m, c);
      case Request =>
    }
  }

  // ---------------------------------------------------------------- after the request

  lemma {:induction false} StoppedRuns(s0: State, acts: seq<Action>, s: State)
    requires s0.stopping && s0.callbacks == [] && Exec(Step, s0, acts) == Some(s)
    ensures s.stopping && s.callbacks == [] && s.wins == s0.wins && s.log == s0.log + Constructed(acts)
    decreases |acts|
  {
    if acts != [] {
      StoppedRuns(s0, acts[..|acts| - 1], Exec(Step, s0, acts[..|acts| - 1]).value);
    }
  }

  /** Exactly-once callbacks.  In a run whose first request comes between `before` and `after`:
      that request and no other returns true; the invocations are, in this order, those of
      the objects constructed on an empty token before it, at their construction; those of
      the objects registered before it and not destroyed before it, in registration order;
      and those of the objects constructed after it, at their construction. */
  lemma CallbacksExactlyOnce(before: seq<Action>, after: seq<Action>, s: State)
    requires !HasRequest(before) && Exec(Step, Init, before + [Request] + after) == Some(s)
    ensures s.wins == 1 && s.callbacks == []
    ensures s.log == Detached(before) + Keep(Registered(before), Destroyed(before)) + Constructed(after)
  {
    ExecJoin(Step, Init, before + [Request], after);
    ExecJoin(Step, Init, before, [Request]);
    var m := Exec(Step, Init, before).value;
    QuietRuns(before, m);
    var m' := Exec(Step, Init, before + [Request]).value;
    assert [Request][..0] == [];
    assert Exec(Step, m, [Request]) == Step(m, Request);
    StoppedRuns(m', after, s);
  }

  /** Without a request nothing registered is invoked, and no request has returned true. */
  lemma NoRequestNoCallback(acts: seq<Action>, s: State)
    requires !HasRequest(acts) && Exec(Step, Init, acts) == Some(s)
    ensures s.wins == 0 && s.log == Detached(acts)
    ensures s.callbacks == Keep(Registered(acts), Destroyed(acts))
  {
    QuietRuns(acts, s);
  }

  /** Invocations and registrations hold each object at most once. */
  ghost predicate Unique(s: State) {
    forall c :: multiset(s.log + s.callbacks)[c] <= if c in s.used then 1 else 0
  }

  lemma {:induction false} EraseShrinks(cs: seq<nat>, c: nat)
    ensures multiset(Erase(cs, c)) <= multiset(cs)
    decreases |cs|
  {
    if cs != [] {
      assert cs == [cs[0]] + cs[1..];
      EraseShrinks(cs[1..], c);
    }
  }

  lemma StepKeepsUnique(s: State, a: Action)
    requires Unique(s) && Step(s, a).Some?
    ensures Unique(Step(s, a).value)
  {
    var s' := Step(s, a).value;
    assert multiset(s'.log + s'.callbacks) == multiset(s'.log) + multiset(s'.callbacks);
    assert multiset(s.log + s.callbacks) == multiset(s.log) + multiset(s.callbacks);
    match a
    case Construct(c, attached) => assert multiset(s.log + s.callbacks)[c] == 0;
    case Destroy(c) => EraseShrinks(s.callbacks, c);
    case Request =>
  }

  /** Over every run of requests, constructions and destructions in any order, no callback is
      invoked twice, and at most one request returns true. */
  lemma {:induction false} NoCallbackTwice(acts: seq<Action>, s: State)
    requires Exec(Step, Init, acts) == Some(s)
    ensures Unique(s)
    ensures s.wins == if s.stopping then 1 else 0
    decreases |acts|
  {
    if acts != [] {
      var m := Exec(Step, Init, acts[..|acts| - 1]).value;
      NoCallbackTwice(acts[..|acts| - 1], m);
      StepKeepsUnique(m, acts[|acts| - 1]);
    }
  }

  // ---------------------------------------------------------------- the class

  /** The stop state object; `log` stands for the calls made to the callbacks. */
  class Monitor {
    var stopping: bool
    var callbacks: seq<nat>
    var log: seq<nat>
    ghost var wins: nat
    ghost var objects: map<nat, bool>
    ghost var used: set<nat>

    ghost function View(): State
      reads this
    {
      State(stopping, callbacks, log, wins, objects, used)
    }

    constructor ()
      ensures View() == Init
      ensures !stopping && callbacks == [] && log == [] && wins == 0 && objects == map[] && used == {}
    {
      stopping, callbacks, log, wins, objects, used := false, [], [], 0, map[], {};
    }

    method RequestStop() returns (won: bool)
      modifies this
      ensures Step(old(View()), Request) == Some(View())
      ensures won <==> !old(stopping)
      ensures stopping && wins == old(wins) + (if won then 1 else 0)
      ensures log == if won then old(log) + old(callbacks) else old(log)
      ensures callbacks == if won then [] else old(callbacks)
      ensures objects == old(objects) && used == old(used)
    {
      if stopping {
        return false;
      }
      stopping := true;
      for i := 0 to |callbacks|
        invariant stopping && callbacks == old(callbacks) && wins == old(wins)
        invariant objects == old(objects) && used == old(used)
        invariant log == old(log) + callbacks[..i]
      {
        log := log + [callbacks[i]];
      }
      assert callbacks[..|callbacks|] == callbacks;
      callbacks := [];
      wins := wins + 1;
      won := true;
    }

    method StopRequested() returns (r: bool)
      ensures r == stopping
    {
      r := stopping;
    }

    /** `add_callback`, as called by the constructor of object `c`. */
    method AddCallback(c: nat)
      requires c !in used
      modifies this
      ensures Step(old(View()), Construct(c, true)) == Some(View())
      ensures callbacks == if stopping then old(callbacks) else old(callbacks) + [c]
      ensures log == if stopping then old(log) + [c] else old(log)
      ensures stopping == old(stopping)
      ensures objects == old(objects)[c := true] && used == old(used) + {c}
    {
      objects, used := objects[c := true], used + {c};
      if !stopping {
        callbacks := callbacks + [c];
      } else {
        log := log + [c];
      }
    }

    /** `stop_callback::self_register`: without a state the callback runs at once. */
    method SelfRegister(c: nat, attached: bool)
      requires c !in used
      modifies this
      ensures Step(old(View()), Construct(c, attached)) == Some(View())
      ensures callbacks == if attached && !stopping then old(callbacks) + [c] else old(callbacks)
      ensures log == if attached && !stopping then old(log) else old(log) + [c]
      ensures stopping == old(stopping)
      ensures objects == old(objects)[c := attached] && used == old(used) + {c}
    {
      if attached {
        AddCallback(c);
      } else {
        objects, used := objects[c := false], used + {c};
        log := log + [c];
      }
    }

    /** The destructor of object `c`. */
    method Deregister(c: nat, attached: bool)
      requires c in objects && objects[c] == attached
      modifies this`callbacks, this`objects
      ensures Step(old(View()), Destroy(c)) == Some(View())
      ensures objects == old(objects) - {c}
      ensures !attached || c !in old(callbacks) ==> callbacks == old(callbacks)
      ensures attached && c in old(callbacks) ==> WithoutFirst(old(callbacks), c, callbacks)
    {
      if attached {
        RemoveCallback(c);
      } else {
        objects := objects - {c};
      }
    }

    /** `remove_callback`, as called by the destructor of object `c`. */
    method RemoveCallback(c: nat)
      requires c in objects && objects[c]
      modifies this`callbacks, this`objects
      ensures Step(old(View()), Destroy(c)) == Some(View())
      ensures objects == old(objects) - {c}
      ensures c !in old(callbacks) ==> callbacks == old(callbacks)
      ensures c in old(callbacks) ==> WithoutFirst(old(callbacks), c, callbacks)
    {
      objects := objects - {c};
      var i := 0;
      while i < |callbacks| && callbacks[i] != c
        invariant 0 <= i <= |callbacks| && c !in callbacks[..i]
      {
        i := i + 1;
      }
      EraseAt(callbacks, c, i);
      if i < |callbacks| {
        assert old(callbacks)[i] == c;
        callbacks := callbacks[..i] + callbacks[i + 1..];
      }
    }
  }

  lemma {:induction false} EraseAt(cs: seq<nat>, c: nat, i: nat)
    requires i <= |cs| && c !in cs[..i] && (i < |cs| ==> cs[i] == c)
    ensures Erase(cs, c) == if i < |cs| then cs[..i] + cs[i + 1..] else cs
    decreases i
  {
    if i > 0 {
      assert cs[0] in cs[..i];
      assert cs[1..][..i - 1] == cs[..i][1..];
      EraseAt(cs[1..], c, i - 1);
    }
  }
}
