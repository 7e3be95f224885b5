/** `parallel_reduce`: chunked reduction on top of an arbitrary `std::reduce`. */
module Reduce {
  import opened Chunks
  import opened Algorithms

  // ---------------------------------------------------------------- what std::reduce may return

  /** A grouping of operands. */
  datatype Tree<T> = Leaf(v: T) | Node(left: Tree<T>, right: Tree<T>)

  function Leaves<T>(t: Tree<T>): (r: seq<T>)
    ensures |r| > 0
  {
    match t
    case Leaf(v) => [v]
    case Node(l, r) => Leaves(l) + Leaves(r)
  }

  function Eval<T>(op: (T, T) -> T, t: Tree<T>): T {
    match t
    case Leaf(v) => v
    case Node(l, r) => op(Eval(op, l), Eval(op, r))
  }

  /** Section [reduce] of ISO/IEC 14882:2020: the operands, `init` among them, may be permuted
      and grouped in any way. */
  ghost predicate IsReduction<T(!new)>(op: (T, T) -> T, init: T, xs: seq<T>, r: T) {
    exists t: Tree<T> :: multiset(Leaves(t)) == multiset([init] + xs) && Eval(op, t) == r
  }

  /** `reduce` is some implementation of `std::reduce` for `op`. */
  ghost predicate IsStdReduce<T(!new)>(op: (T, T) -> T, reduce: (T, seq<T>) -> T) {
    forall init, xs :: IsReduction(op, init, xs, reduce(init, xs))
  }

  // The instances are named, so that a proof says which ones it uses.
  predicate Regroups<T(==)>(op: (T, T) -> T, x: T, y: T, z: T) { op(op(x, y), z) == op(x, op(y, z)) }

  predicate Swaps<T(==)>(op: (T, T) -> T, x: T, y: T) { op(x, y) == op(y, x) }

  ghost predicate Associative<T(!new)>(op: (T, T) -> T) { forall x, y, z :: Regroups(op, x, y, z) }

  ghost predicate Commutative<T(!new)>(op: (T, T) -> T) { forall x, y :: Swaps(op, x, y) }

  ghost predicate Identity<T(!new)>(op: (T, T) -> T, e: T) { forall x :: op(e, x) == x }

  // ---------------------------------------------------------------- the fold

  /** The left fold of a non-empty sequence. */
  function Fold<T>(op: (T, T) -> T, s: seq<T>): T
    requires s != []
  {
    if |s| == 1 then s[0] else op(Fold(op, s[..|s| - 1]), s[|s| - 1])
  }

  lemma {:induction false} FoldConcat<T(!new)>(op: (T, T) -> T, s: seq<T>, u: seq<T>)
    requires Associative(op) && s != [] && u != []
    ensures Fold(op, s + u) == op(Fold(op, s), Fold(op, u))
    decreases |u|
  {
    if |u| == 1 {
      assert (s + u)[..|s + u| - 1] == s;
    } else {
      assert (s + u)[..|s + u| - 1] == s + u[..|u| - 1];
      FoldConcat(op, s, u[..|u| - 1]);
      assert Regroups(op, Fold(op, s), Fold(op, u[..|u| - 1]), u[|u| - 1]);
    }
  }

  lemma FoldSnoc<T>(op: (T, T) -> T, s: seq<T>, x: T)
    requires s != []
    ensures Fold(op, s + [x]) == op(Fold(op, s), x)
  {
    assert (s + [x])[..|s + [x]| - 1] == s;
  }

  lemma PullOut<T(!new)>(op: (T, T) -> T, a: seq<T>, x: T, b: seq<T>)
    requires Associative(op) && Commutative(op) && a + b != []
    ensures Fold(op, a + [x] + b) == op(Fold(op, a + b), x)
  {
    if a == [] {
      assert a + [x] + b == [x] + b && a + b == b;
      FoldConcat(op, [x], b);
      assert Swaps(op, x, Fold(op, b));
    } else {
      FoldConcat(op, a, [x]);
      if b == [] {
        assert a + [x] + b == a + [x] && a + b == a;
      } else {
        FoldConcat(op, a + [x], b);
        FoldConcat(op, a, b);
        var f, g := Fold(op, a), Fold(op, b);
        assert Regroups(op, f, x, g) && Swaps(op, x, g) && Regroups(op, f, g, x);
      }
    }
  }

  lemma Without<T>(u: seq<T>, i: nat)
    requires i < |u|
    ensures u == u[..i] + [u[i]] + u[i + 1..]
    ensures multiset(u[..i] + u[i + 1..]) == multiset(u) - multiset{u[i]}
  {
    var a, b := u[..i], u[i + 1..];
    assert u == a + ([u[i]] + b);
    assert multiset(u) == multiset(a) + (multiset{u[i]} + multiset(b));
    assert multiset(a + b) == multiset(a) + multiset(b);
  }

  lemma WithoutLast<T>(s: seq<T>)
    requires s != []
    ensures s[|s| - 1] in multiset(s)
    ensures multiset(s[..|s| - 1]) == multiset(s) - multiset{s[|s| - 1]}
  {
    assert s == s[..|s| - 1] + [s[|s| - 1]];
  }

  /** Taking the last element of `s` out of a permutation of `s`. */
  lemma TakeOut<T>(s: seq<T>, u: seq<T>) returns (i: nat)
    requires s != [] && multiset(s) == multiset(u)
    ensures i < |u| && u[i] == s[|s| - 1]
    ensures u == u[..i] + [u[i]] + u[i + 1..]
    ensures multiset(s[..|s| - 1]) == multiset(u[..i] + u[i + 1..])
  {
    WithoutLast(s);
    assert s[|s| - 1] in multiset(u);
    i :| 0 <= i < |u| && u[i] == s[|s| - 1];
    Without(u, i);
  }

  /** For an associative and commutative operator the order of the operands is irrelevant. */
  lemma {:induction false} FoldPermutes<T(!new)>(op: (T, T) -> T, s: seq<T>, u: seq<T>)
    requires Associative(op) && Commutative(op)
    requires s != [] && multiset(s) == multiset(u)
    ensures u != [] && Fold(op, s) == Fold(op, u)
    decreases |s|
  {
    assert |s| == |multiset(s)| == |u|;
    var i := TakeOut(s, u);
    if |s| > 1 {
      FoldPermutes(op, s[..|s| - 1], u[..i] + u[i + 1..]);
      PullOut(op, u[..i], u[i], u[i + 1..]);
    }
  }

  lemma {:induction false} EvalIsFold<T(!new)>(op: (T, T) -> T, t: Tree<T>)
    requires Associative(op)
    ensures Eval(op, t) == Fold(op, Leaves(t))
  {
    match t
    case Leaf(v) =>
    case Node(l, r) =>
      EvalIsFold(op, l);
      EvalIsFold(op, r);
      FoldConcat(op, Leaves(l), Leaves(r));
  }

  /** For such an operator `std::reduce` has one possible result, the fold. */
  lemma ReductionIsFold<T(!new)>(op: (T, T) -> T, init: T, xs: seq<T>, r: T)
    requires Associative(op) && Commutative(op)
    ensures IsReduction(op, init, xs, r) <==> r == Fold(op, [init] + xs)
  {
    if IsReduction(op, init, xs, r) {
      var t :| multiset(Leaves(t)) == multiset([init] + xs) && Eval(op, t) == r;
      EvalIsFold(op, t);
      FoldPermutes(op, Leaves(t), [init] + xs);
    }
    var t := LeftTree(op, [init] + xs);
  }

  lemma {:induction false} LeftTree<T>(op: (T, T) -> T, s: seq<T>) returns (t: Tree<T>)
    requires s != []
    ensures Leaves(t) == s && Eval(op, t) == Fold(op, s)
    decreases |s|
  {
    if |s| == 1 {
      t := Leaf(s[0]);
    } else {
      var l := LeftTree(op, s[..|s| - 1]);
      t := Node(l, Leaf(s[|s| - 1]));
    }
  }

  // ---------------------------------------------------------------- the parallel reduction

  lemma MoveInit<T>(init: T, k: nat, front: seq<T>, chunk: seq<T>)
    ensures multiset((Repeat(init, k) + front) + ([init] + chunk)) == multiset(Repeat(init, k + 1) + (front + chunk))
  {
    assert Repeat(init, k + 1) == Repeat(init, k) + [init];
  }

  lemma OneMoreChunk<T(!new)>(op: (T, T) -> T, init: T, k: nat, front: seq<T>, chunk: seq<T>)
    requires Associative(op) && Commutative(op) && k > 0
    ensures op(Fold(op, Repeat(init, k) + front), Fold(op, [init] + chunk))
         == Fold(op, Repeat(init, k + 1) + (front + chunk))
  {
    var seen := Repeat(init, k) + front;
    FoldConcat(op, seen, [init] + chunk);
    MoveInit(init, k, front, chunk);
    FoldPermutes(op, seen + ([init] + chunk), Repeat(init, k + 1) + (front + chunk));
  }

  lemma OneMoreResult<T>(op: (T, T) -> T, init: T, results: seq<T>, k: nat)
    requires k < |results|
    ensures Fold(op, [init] + results[..k + 1]) == op(Fold(op, [init] + results[..k]), results[k])
  {
    assert [init] + results[..k + 1] == ([init] + results[..k]) + [results[k]];
    FoldSnoc(op, [init] + results[..k], results[k]);
  }

  ghost predicate AreChunkFolds<T(!new)>(op: (T, T) -> T, init: T, input: seq<T>, c: nat, results: seq<T>)
    requires c > 0
  {
    && |results| == ResultsSize(|input|, c)
    && forall i :: 0 <= i < |results| ==> results[i] == Fold(op, [init] + ChunkOf(input, c, i))
  }

  /** The value of the first `k` chunks: `init` k + 1 times, and their elements. */
  ghost predicate FoldsFirst<T(!new)>(op: (T, T) -> T, init: T, input: seq<T>, c: nat, results: seq<T>, k: nat)
    requires k <= |results|
  {
    Fold(op, [init] + results[..k]) == Fold(op, Repeat(init, k + 1) + input[..Lo(|input|, c, k)])
  }

  lemma FoldsNone<T(!new)>(op: (T, T) -> T, init: T, input: seq<T>, c: nat, results: seq<T>)
    ensures FoldsFirst(op, init, input, c, results, 0)
  {
    assert Lo(|input|, c, 0) == 0;
    assert [init] + results[..0] == Repeat(init, 1) + input[..0];
  }

  lemma FoldsOneMore<T(!new)>(op: (T, T) -> T, init: T, input: seq<T>, c: nat, results: seq<T>, k: nat)
    requires Associative(op) && Commutative(op) && c > 0
    requires k < |results| == ResultsSize(|input|, c) && results[k] == Fold(op, [init] + ChunkOf(input, c, k))
    requires FoldsFirst(op, init, input, c, results, k)
    ensures FoldsFirst(op, init, input, c, results, k + 1)
  {
    PrefixOfChunks(input, c, k);
    OneMoreResult(op, init, results, k);
    OneMoreChunk(op, init, k + 1, input[..Lo(|input|, c, k)], ChunkOf(input, c, k));
  }

  lemma {:induction false} ChunkFolds<T(!new)>(op: (T, T) -> T, init: T, input: seq<T>, c: nat, results: seq<T>, k: nat)
    requires Associative(op) && Commutative(op)
    requires c > 0 && AreChunkFolds(op, init, input, c, results) && k <= |results|
    ensures FoldsFirst(op, init, input, c, results, k)
    decreases k
  {
    if k == 0 {
      FoldsNone(op, init, input, c, results);
    } else {
      ChunkFolds(op, init, input, c, results, k - 1);
      FoldsOneMore(op, init, input, c, results, k - 1);
    }
  }

  lemma LastLo(n: nat, c: nat)
    requires c > 0
    ensures Lo(n, c, ResultsSize(n, c)) == n
  {
    LastChunk(n, c, ResultsSize(n, c));
  }

  lemma AllChunkFolds<T(!new)>(op: (T, T) -> T, init: T, input: seq<T>, c: nat, results: seq<T>)
    requires Associative(op) && Commutative(op)
    requires c > 0 && AreChunkFolds(op, init, input, c, results)
    ensures Fold(op, [init] + results) == Fold(op, Repeat(init, |results| + 1) + input)
  {
    var m := |results|;
    ChunkFolds(op, init, input, c, results, m);
    LastLo(|input|, c);
    assert Lo(|input|, c, m) == |input|;
    assert results[..m] == results && input[..|input|] == input;
  }

  /** Combining `init` a second time changes nothing, as with an identity or with a maximum. */
  ghost predicate Absorbs<T(!new)>(op: (T, T) -> T, init: T) { forall x :: op(init, op(init, x)) == op(init, x) }

  lemma {:induction false} ExtraInitsAbsorbed<T(!new)>(op: (T, T) -> T, init: T, k: nat, xs: seq<T>)
    requires Associative(op) && Absorbs(op, init) && xs != []
    ensures Fold(op, Repeat(init, k + 1) + xs) == Fold(op, [init] + xs)
    decreases k
  {
    if k == 0 {
      assert Repeat(init, 1) == [init];
    } else {
      ExtraInitsAbsorbed(op, init, k - 1, xs);
      assert Repeat(init, k + 1) + xs == [init] + (Repeat(init, k) + xs);
      FoldConcat(op, [init], Repeat(init, k) + xs);
      FoldConcat(op, [init], xs);
    }
  }

  /** What `parallel_reduce` returns: `reduce` over the chunks' reductions. */
  ghost function ParallelValue<T(!new)>(reduce: (T, seq<T>) -> T, init: T, input: seq<T>, c: nat): T
    requires c > 0
  {
    reduce(init, PerChunk(input, c, xs => reduce(init, xs)))
  }

  /** For an associative and commutative operator, and whatever `std::reduce` does, the value is
      the fold of all elements with `init` once per chunk and once more. */
  lemma ParallelValueIsFold<T(!new)>(op: (T, T) -> T, init: T, input: seq<T>, c: nat, reduce: (T, seq<T>) -> T)
    requires c > 0 && IsStdReduce(op, reduce) && Associative(op) && Commutative(op)
    ensures ParallelValue(reduce, init, input, c) == Fold(op, Repeat(init, ResultsSize(|input|, c) + 1) + input)
    ensures reduce(init, input) == Fold(op, [init] + input)
  {
    var results := PerChunk(input, c, xs => reduce(init, xs));
    forall i | 0 <= i < |results| ensures results[i] == Fold(op, [init] + ChunkOf(input, c, i)) {
      ReductionIsFold(op, init, ChunkOf(input, c, i), results[i]);
    }
    ReductionIsFold(op, init, results, reduce(init, results));
    ReductionIsFold(op, init, input, reduce(init, input));
    AllChunkFolds(op, init, input, c, results);
  }

  lemma AbsorbingAgrees<T(!new)>(op: (T, T) -> T, init: T, input: seq<T>, c: nat, reduce: (T, seq<T>) -> T)
    requires c > 0 && IsStdReduce(op, reduce) && Associative(op) && Commutative(op) && Absorbs(op, init)
    ensures ParallelValue(reduce, init, input, c) == reduce(init, input)
  {
    ParallelValueIsFold(op, init, input, c, reduce);
    ResultsSizeIsCeiling(|input|, c);
    if input == [] {
      assert Repeat(init, 1) == [init];
    } else {
      ExtraInitsAbsorbed(op, init, ResultsSize(|input|, c), input);
    }
  }

  /** A single element is one chunk, so `init` is counted twice. */
  lemma OneElementAgrees<T(!new)>(op: (T, T) -> T, init: T, x: T, c: nat, reduce: (T, seq<T>) -> T)
    requires c > 0 && IsStdReduce(op, reduce) && Associative(op) && Commutative(op)
    ensures ParallelValue(reduce, init, [x], c) == reduce(init, [x]) <==> op(init, op(init, x)) == op(init, x)
  {
    ParallelValueIsFold(op, init, [x], c, reduce);
    assert ResultsSize(1, c) == 1 by {
      ResultsSizeIsCeiling(1, c);
      if ResultsSize(1, c) >= 2 {
        MulMono(2, ResultsSize(1, c), c);
      }
    }
    assert Repeat(init, 2) + [x] == [init, init] + [x];
    FoldSnoc(op, [init, init], x);
    FoldSnoc(op, [init], x);
    FoldSnoc(op, [init], init);
    assert [init] + [init] == [init, init];
    assert Regroups(op, init, init, x);
  }

  /** Exactly when `parallel_reduce` is `std::reduce`: for an associative and commutative
      operator, any implementation of `std::reduce` and any chunk size, the two agree on all
      inputs if and only if combining `init` twice is combining it once. */
  lemma ParallelReduceIsExact<T(!new)>(op: (T, T) -> T, init: T, c: nat, reduce: (T, seq<T>) -> T)
    requires c > 0 && IsStdReduce(op, reduce) && Associative(op) && Commutative(op)
    ensures (forall input :: ParallelValue(reduce, init, input, c) == reduce(init, input)) <==> Absorbs(op, init)
  {
    if Absorbs(op, init) {
      forall input ensures ParallelValue(reduce, init, input, c) == reduce(init, input) {
        AbsorbingAgrees(op, init, input, c, reduce);
      }
    }
    if forall input :: ParallelValue(reduce, init, input, c) == reduce(init, input) {
      forall x ensures op(init, op(init, x)) == op(init, x) {
        OneElementAgrees(op, init, x, c, reduce);
        assert ParallelValue(reduce, init, [x], c) == reduce(init, [x]);
      }
    }
  }

  lemma IdentityAbsorbs<T(!new)>(op: (T, T) -> T, e: T)
    requires Identity(op, e)
    ensures Absorbs(op, e)
  {
  }

  /** The method on a range: `results` are the reductions of the chunks, and they are reduced in
      turn.  The value is exact for every input; it is that of `std::reduce` if `init` is
      absorbed, and over all inputs only then. */
  method ParallelReduce<T(!new)>(input: seq<T>, init: T, op: (T, T) -> T, c: nat, reduce: (T, seq<T>) -> T)
    returns (r: T, ghost results: seq<T>)
    requires c > 0
    requires IsStdReduce(op, reduce)
    ensures |results| == ResultsSize(|input|, c)
    ensures forall k :: 0 <= k < |results| ==> results[k] == reduce(init, ChunkOf(input, c, k))
    ensures r == reduce(init, results) == ParallelValue(reduce, init, input, c)
    ensures Associative(op) && Commutative(op) ==>
      r == Fold(op, Repeat(init, ResultsSize(|input|, c) + 1) + input)
    ensures Associative(op) && Commutative(op) && Absorbs(op, init) ==> r == reduce(init, input)
  {
    var values := ChunkResults(input, c, xs => reduce(init, xs), init);
    results := values;
    r := reduce(init, values);
    if Associative(op) && Commutative(op) {
      ParallelValueIsFold(op, init, input, c, reduce);
      if Absorbs(op, init) {
        AbsorbingAgrees(op, init, input, c, reduce);
      }
    }
  }

  // ---------------------------------------------------------------- the overload without an operator

  function Plus(x: int, y: int): int { x + y }

  function Total(xs: seq<int>): int { if xs == [] then 0 else Total(xs[..|xs| - 1]) + xs[|xs| - 1] }

  lemma {:induction false} FoldOfSums(s: seq<int>)
    requires s != []
    ensures Fold(Plus, s) == Total(s)
    decreases |s|
  {
    if |s| > 1 {
      FoldOfSums(s[..|s| - 1]);
    }
  }

  lemma {:induction false} TotalOfInits(init: int, k: nat, xs: seq<int>)
    ensures Total(Repeat(init, k) + xs) == k * init + Total(xs)
    decreases |xs|, k
  {
    var s := Repeat(init, k) + xs;
    if xs != [] {
      TotalOfInits(init, k, xs[..|xs| - 1]);
      assert s[..|s| - 1] == Repeat(init, k) + xs[..|xs| - 1];
    } else if k > 0 {
      TotalOfInits(init, k - 1, []);
      assert s[..|s| - 1] == Repeat(init, k - 1) + [];
      MulStep(k - 1, init);
    }
  }

  lemma ExtraInits(m: nat, init: int)
    ensures (m + 1) * init == init <==> m == 0 || init == 0
  {
    assert (m + 1) * init == m * init + init;
    if init > 0 {
      MulMono(1, init, m);
    } else if init < 0 {
      MulMono(init, -1, m);
    }
  }

  lemma SumWithInits(init: int, k: nat, xs: seq<int>)
    ensures Fold(Plus, Repeat(init, k + 1) + xs) == (k + 1) * init + Total(xs)
    ensures Fold(Plus, Repeat(init, k + 1) + xs) == init + Total(xs) <==> init == 0 || k == 0
  {
    FoldOfSums(Repeat(init, k + 1) + xs);
    TotalOfInits(init, k + 1, xs);
    ExtraInits(k, init);
  }

  lemma NoChunks(n: nat, c: nat)
    requires c > 0
    ensures ResultsSize(n, c) == 0 <==> n == 0
  {
    ResultsSizeIsCeiling(n, c);
  }

  lemma SumOfChunks(input: seq<int>, init: int, c: nat, k: nat)
    requires c > 0 && k == ResultsSize(|input|, c)
    ensures Fold(Plus, Repeat(init, k + 1) + input) == (k + 1) * init + Total(input)
    ensures Fold(Plus, Repeat(init, k + 1) + input) == init + Total(input) <==> init == 0 || input == []
  {
    NoChunks(|input|, c);
    SumWithInits(init, k, input);
  }

  lemma PlusIsAlgebraic()
    ensures Associative(Plus) && Commutative(Plus)
  {
  }

  /** With `+` on integers: the result counts `init` once per chunk and once more, and it is
      the sequential one if and only if `init` is zero or the range is empty. */
  method ParallelSum(input: seq<int>, init: int, c: nat, reduce: (int, seq<int>) -> int) returns (r: int)
    requires c > 0
    requires IsStdReduce(Plus, reduce)
    ensures r == (ResultsSize(|input|, c) + 1) * init + Total(input)
    ensures r == init + Total(input) <==> init == 0 || input == []
  {
    PlusIsAlgebraic();
    ghost var results: seq<int>;
    r, results := ParallelReduce(input, init, Plus, c, reduce);
    SumOfChunks(input, init, c, ResultsSize(|input|, c));
  }

  // ---------------------------------------------------------------- unsigned types, which wrap around

  function WrapPlus(modulus: nat): (int, int) -> int
    requires modulus > 0
  {
    (x: int, y: int) => (x + y) % modulus
  }

  lemma {:induction false} ModMultiple(x: int, q: int, m: nat)
    requires m > 0
    ensures (x + q * m) % m == x % m
  {
    var d := x / m;
    assert x == d * m + x % m;
    assert x + q * m == (d + q) * m + x % m;
    ModUnique(x + q * m, d + q, x % m, m);
  }

  lemma ModUnique(x: int, q: int, r: int, m: nat)
    requires 0 <= r < m && x == q * m + r
    ensures x % m == r
  {
    var d, e := x / m, x % m;
    assert d * m + e == q * m + r;
    if d < q {
      MulMono(d + 1, q, m);
      MulStep(d, m);
    } else if d > q {
      MulMono(q + 1, d, m);
      MulStep(q, m);
    }
  }

  lemma ModAdd(x: int, y: int, m: nat)
    requires m > 0
    ensures (x % m + y) % m == (x + y) % m
  {
    assert x == x / m * m + x % m;
    ModMultiple(x % m + y, x / m, m);
  }

  lemma WrapPlusRegroups(modulus: nat, x: int, y: int, z: int)
    requires modulus > 0
    ensures ((x + y) % modulus + z) % modulus == (x + (y + z) % modulus) % modulus
  {
    var a, b := x + y, y + z;
    ModAdd(a, z, modulus);
    ModAdd(b, x, modulus);
    assert a + z == b + x;
  }

  lemma WrapPlusIsAlgebraic(modulus: nat)
    requires modulus > 0
    ensures Associative(WrapPlus(modulus)) && Commutative(WrapPlus(modulus))
  {
    forall x: int, y: int, z: int ensures Regroups(WrapPlus(modulus), x, y, z) {
      WrapPlusRegroups(modulus, x, y, z);
    }
  }

  lemma {:induction false} FoldWraps(modulus: nat, s: seq<int>)
    requires modulus > 0 && s != [] && forall i :: 0 <= i < |s| ==> 0 <= s[i] < modulus
    ensures Fold(WrapPlus(modulus), s) == Total(s) % modulus
    decreases |s|
  {
    if |s| > 1 {
      FoldWraps(modulus, s[..|s| - 1]);
      ModAdd(Total(s[..|s| - 1]), s[|s| - 1], modulus);
    } else {
      assert Total(s) == s[0] && s[0] == 0 * modulus + s[0];
      ModUnique(s[0], 0, s[0], modulus);
    }
  }

  lemma ModUnchanged(x: int, y: int, m: nat)
    requires m > 0
    ensures (x + y) % m == y % m <==> x % m == 0
  {
    ModAdd(x, y, m);
    var r := x % m;
    assert y == y / m * m + y % m;
    if r != 0 {
      ModMultiple(r + y % m, y / m, m);
      if r + y % m < m {
        ModUnique(r + y % m, 0, r + y % m, m);
      } else {
        ModUnique(r + y % m, 1, r + y % m - m, m);
      }
    }
  }

  lemma WrapWithInits(modulus: nat, init: int, k: nat, xs: seq<int>)
    requires modulus > 0 && 0 <= init < modulus && forall i :: 0 <= i < |xs| ==> 0 <= xs[i] < modulus
    ensures Fold(WrapPlus(modulus), Repeat(init, k + 1) + xs) == Fold(WrapPlus(modulus), [init] + xs)
       <==> k * init % modulus == 0
  {
    FoldWraps(modulus, Repeat(init, k + 1) + xs);
    FoldWraps(modulus, [init] + xs);
    TotalsAgree(modulus, init, k, xs);
  }

  lemma TotalsAgree(modulus: nat, init: int, k: nat, xs: seq<int>)
    requires modulus > 0
    ensures Total(Repeat(init, k + 1) + xs) % modulus == Total([init] + xs) % modulus <==> k * init % modulus == 0
  {
    TotalWithInits(init, k, xs);
    ModUnchanged(k * init, init + Total(xs), modulus);
  }

  lemma TotalWithInits(init: int, k: nat, xs: seq<int>)
    ensures Total(Repeat(init, k + 1) + xs) == k * init + (init + Total(xs))
    ensures Total([init] + xs) == init + Total(xs)
  {
    TotalOfInits(init, k + 1, xs);
    TotalOfInits(init, 1, xs);
    assert Repeat(init, 1) == [init];
    MulStep(k, init);
  }

  /** With `+` of an unsigned type, which wraps around at `modulus`: the result agrees with
      `std::reduce` if and only if `init` times the number of chunks wraps around to zero. */
  lemma WrappingSumIsExact(modulus: nat, input: seq<int>, init: int, c: nat, reduce: (int, seq<int>) -> int)
    requires c > 0 && modulus > 0 && IsStdReduce(WrapPlus(modulus), reduce)
    requires 0 <= init < modulus && forall i :: 0 <= i < |input| ==> 0 <= input[i] < modulus
    ensures ParallelValue(reduce, init, input, c) == reduce(init, input)
       <==> ResultsSize(|input|, c) * init % modulus == 0
  {
    WrapPlusIsAlgebraic(modulus);
    ParallelValueIsFold(WrapPlus(modulus), init, input, c, reduce);
    WrapWithInits(modulus, init, ResultsSize(|input|, c), input);
  }
}
