/** Sums of a weight over a sequence, used to count the threads that are at some point. */
module Sums {

  function Sum<T>(f: T -> nat, s: seq<T>): nat {
    if s == [] then 0 else Sum(f, s[..|s| - 1]) + f(s[|s| - 1])
  }

  lemma {:induction false} SumUpdate<T>(f: T -> nat, s: seq<T>, i: nat, x: T)
    requires i < |s|
    ensures Sum(f, s[i := x]) + f(s[i]) == Sum(f, s) + f(x)
    decreases |s|
  {
    var u := s[i := x];
    if i == |s| - 1 {
      assert u[..|s| - 1] == s[..|s| - 1];
    } else {
      assert u[..|s| - 1] == s[..|s| - 1][i := x];
      SumUpdate(f, s[..|s| - 1], i, x);
    }
  }

  lemma {:induction false} SumAtLeast<T>(f: T -> nat, s: seq<T>, i: nat)
    requires i < |s|
    ensures f(s[i]) <= Sum(f, s)
    decreases |s|
  {
    if i < |s| - 1 {
      SumAtLeast(f, s[..|s| - 1], i);
    }
  }

  lemma {:induction false} SumPositive<T>(f: T -> nat, s: seq<T>) returns (i: nat)
    requires Sum(f, s) > 0
    ensures i < |s| && f(s[i]) > 0
    decreases |s|
  {
    if f(s[|s| - 1]) > 0 {
      i := |s| - 1;
    } else {
      i := SumPositive(f, s[..|s| - 1]);
    }
  }

  lemma {:induction false} SumZero<T>(f: T -> nat, s: seq<T>)
    requires forall i :: 0 <= i < |s| ==> f(s[i]) == 0
    ensures Sum(f, s) == 0
    decreases |s|
  {
    if s != [] {
      SumZero(f, s[..|s| - 1]);
    }
  }

  lemma {:induction false} SumConstant<T>(f: T -> nat, s: seq<T>, w: nat)
    requires forall i :: 0 <= i < |s| ==> f(s[i]) == w
    ensures Sum(f, s) == |s| * w
    decreases |s|
  {
    if s != [] {
      SumConstant(f, s[..|s| - 1], w);
    }
  }

  /** Two sequences with the same weight at every index have the same sum. */
  lemma {:induction false} SumPointwise<T>(f: T -> nat, s: seq<T>, u: seq<T>)
    requires |s| == |u| && forall i :: 0 <= i < |s| ==> f(s[i]) == f(u[i])
    ensures Sum(f, s) == Sum(f, u)
    decreases |s|
  {
    if s != [] {
      SumPointwise(f, s[..|s| - 1], u[..|s| - 1]);
    }
  }

  lemma {:induction false} SumConcat<T>(f: T -> nat, s: seq<T>, u: seq<T>)
    ensures Sum(f, s + u) == Sum(f, s) + Sum(f, u)
    decreases |u|
  {
    if u == [] {
      assert s + u == s;
    } else {
      assert (s + u)[..|s + u| - 1] == s + u[..|u| - 1];
      SumConcat(f, s, u[..|u| - 1]);
    }
  }

  /** The union, with multiplicities, of what each element of a sequence carries. */
  function Gather<T>(f: T -> multiset<nat>, s: seq<T>): multiset<nat> {
    if s == [] then multiset{} else Gather(f, s[..|s| - 1]) + f(s[|s| - 1])
  }

  lemma {:induction false} GatherUpdate<T>(f: T -> multiset<nat>, s: seq<T>, i: nat, x: T)
    requires i < |s|
    ensures Gather(f, s[i := x]) + f(s[i]) == Gather(f, s) + f(x)
    decreases |s|
  {
    var u := s[i := x];
    if i == |s| - 1 {
      assert u[..|s| - 1] == s[..|s| - 1];
    } else {
      assert u[..|s| - 1] == s[..|s| - 1][i := x];
      GatherUpdate(f, s[..|s| - 1], i, x);
      var a, b, l := Gather(f, u[..|s| - 1]), Gather(f, s[..|s| - 1]), f(s[|s| - 1]);
      assert (a + l) + f(s[i]) == (a + f(s[i])) + l && (b + l) + f(x) == (b + f(x)) + l;
    }
  }

  lemma {:induction false} GatherIncludes<T>(f: T -> multiset<nat>, s: seq<T>, i: nat)
    requires i < |s|
    ensures f(s[i]) <= Gather(f, s)
    decreases |s|
  {
    if i < |s| - 1 {
      GatherIncludes(f, s[..|s| - 1], i);
    }
  }

  lemma {:induction false} GatherSource<T>(f: T -> multiset<nat>, s: seq<T>, x: nat) returns (i: nat)
    requires x in Gather(f, s)
    ensures i < |s| && x in f(s[i])
    decreases |s|
  {
    if x in f(s[|s| - 1]) {
      i := |s| - 1;
    } else {
      i := GatherSource(f, s[..|s| - 1], x);
    }
  }

  lemma {:induction false} GatherEmpty<T>(f: T -> multiset<nat>, s: seq<T>)
    requires forall i :: 0 <= i < |s| ==> f(s[i]) == multiset{}
    ensures Gather(f, s) == multiset{}
    decreases |s|
  {
    if s != [] {
      GatherEmpty(f, s[..|s| - 1]);
    }
  }

  lemma {:induction false} GatherPointwise<T>(f: T -> multiset<nat>, s: seq<T>, u: seq<T>)
    requires |s| == |u| && forall i :: 0 <= i < |s| ==> f(s[i]) == f(u[i])
    ensures Gather(f, s) == Gather(f, u)
    decreases |s|
  {
    if s != [] {
      GatherPointwise(f, s[..|s| - 1], u[..|s| - 1]);
    }
  }

  lemma MultisetSnoc(s: seq<nat>, x: nat)
    ensures multiset(s + [x]) == multiset(s) + multiset{x}
  {
  }

  /** What one holder of items gives up and takes on, its total gives up and takes on. */
  lemma Rebalance(total: multiset<nat>, held: multiset<nat>, rest: multiset<nat>,
                  total': multiset<nat>, held': multiset<nat>, rest': multiset<nat>,
                  gone: multiset<nat>, come: multiset<nat>)
    requires total == held + rest
    requires held' + gone == held + come
    requires total' + rest + gone == total + rest' + come
    ensures total' == held' + rest'
  {
    forall x: nat ensures total'[x] == held'[x] + rest'[x] {
      assert (held' + gone)[x] == (held + come)[x];
      assert (total' + rest + gone)[x] == (total + rest' + come)[x];
    }
  }

  /** Each number below `n`, once. */
  function Below(n: nat): (m: multiset<nat>)
    ensures forall x: nat :: m[x] == if x < n then 1 else 0
  {
    if n == 0 then multiset{} else Below(n - 1) + multiset{n - 1}
  }
}
