/** The chunked algorithms.  Each builds one task per chunk and calls `parallel`; what it
    promises holds for every interleaving of the tasks.  Predicates and operations are pure. */
module Algorithms {
  import opened Chunks
  import Interleaving

  type Program<!T> = Interleaving.Program<T>

  /** A vector of `n` equal elements. */
  function Repeat<T>(x: T, n: nat): (r: seq<T>)
    ensures |r| == n
  {
    seq(n, _ => x)
  }

  // ---------------------------------------------------------------- one result per chunk

  function ChunkOf<T>(input: seq<T>, c: nat, k: nat): seq<T> {
    assert (k + 1) * c == k * c + c;
    input[Lo(|input|, c, k)..Lo(|input|, c, k + 1)]
  }

  /** The sequential value of each chunk. */
  function PerChunk<T, R>(input: seq<T>, c: nat, body: seq<T> -> R): (r: seq<R>)
    requires c > 0
    ensures |r| == ResultsSize(|input|, c)
  {
    seq(ResultsSize(|input|, c), k requires 0 <= k => body(ChunkOf(input, c, k)))
  }

  function ResultTask<T, R>(input: seq<T>, chunk: Chunk, body: seq<T> -> R): (r: seq<Interleaving.Event<R>>)
    requires chunk.b <= chunk.e <= |input|
    ensures |r| == 1 && r[0].slot == chunk.ri
  {
    [Interleaving.Event(chunk.ri, _ => body(input[chunk.b..chunk.e]))]
  }

  ghost predicate ChunksFit(tasks: seq<Chunk>, n: nat) {
    forall k :: 0 <= k < |tasks| ==> tasks[k].b <= tasks[k].e <= n
  }

  function ResultProgram<T, R>(input: seq<T>, tasks: seq<Chunk>, body: seq<T> -> R): (r: Program<R>)
    requires ChunksFit(tasks, |input|)
    ensures |r| == |tasks| && forall k :: 0 <= k < |r| ==> r[k] == ResultTask(input, tasks[k], body)
  {
    seq(|tasks|, k requires 0 <= k < |tasks| => ResultTask(input, tasks[k], body))
  }

  lemma AllChunksFit(n: nat, c: nat)
    requires c > 0
    ensures ChunksFit(AllChunks(n, c), n)
  {
    forall k | 0 <= k < ResultsSize(n, c) ensures ChunkAt(n, c, k).b <= ChunkAt(n, c, k).e <= n {
      LastChunk(n, c, k);
      MulStep(k, c);
    }
  }

  /** What the algorithms with one result per chunk run. */
  ghost function ResultTasks<T, R>(input: seq<T>, c: nat, body: seq<T> -> R): Program<R>
    requires c > 0
  {
    AllChunksFit(|input|, c);
    ResultProgram(input, AllChunks(|input|, c), body)
  }

  lemma ResultRaceFree<T, R>(input: seq<T>, c: nat, body: seq<T> -> R)
    requires c > 0
    ensures Interleaving.InBounds(ResultTasks(input, c, body), ResultsSize(|input|, c))
    ensures Interleaving.RaceFree(ResultTasks(input, c, body))
  {
    AllChunksFit(|input|, c);
  }

  lemma TaskComputesChunk<T, R>(input: seq<T>, c: nat, body: seq<T> -> R, k: nat, x: R)
    requires c > 0 && k < ResultsSize(|input|, c)
    ensures var e := ResultTasks(input, c, body)[k][0]; e.slot == k && e.update(x) == body(ChunkOf(input, c, k))
  {
    AllChunksFit(|input|, c);
  }

  /** Schedule independence: the results are the chunks' sequential values, in order. */
  lemma ResultOutcome<T, R>(input: seq<T>, c: nat, body: seq<T> -> R, before: seq<R>, after: seq<R>)
    requires c > 0 && |before| == ResultsSize(|input|, c)
    requires Interleaving.Outcome(ResultTasks(input, c, body), before, after)
    ensures after == PerChunk(input, c, body)
  {
    var prog: Program<R> := ResultTasks(input, c, body);
    ResultRaceFree(input, c, body);
    Interleaving.RaceFreeOutcome(prog, before, after);
    forall k | 0 <= k < |after| ensures after[k] == PerChunk(input, c, body)[k] {
      TaskComputesChunk(input, c, body, k, before[k]);
      assert after[prog[k][0].slot] == prog[k][0].update(before[prog[k][0].slot]);
    }
  }

  /** The common shape: a results vector, one task per chunk, and `parallel`. */
  method ChunkResults<T, R>(input: seq<T>, c: nat, body: seq<T> -> R, initial: R) returns (results: seq<R>)
    requires c > 0
    ensures results == PerChunk(input, c, body)
  {
    var tasks := BuildChunks(|input|, c);
    AllChunksFit(|input|, c);
    var slots := new R[ResultsSize(|input|, c)](_ => initial);
    ResultRaceFree(input, c, body);
    ghost var before := slots[..];
    Interleaving.Parallel(ResultProgram(input, tasks, body), slots);
    results := slots[..];
    ResultOutcome(input, c, body, before, results);
  }

  // ---------------------------------------------------------------- quantifiers and counts

  predicate AllOf<T>(p: T -> bool, xs: seq<T>) { forall i :: 0 <= i < |xs| ==> p(xs[i]) }

  predicate AnyOf<T>(p: T -> bool, xs: seq<T>) { exists i :: 0 <= i < |xs| && p(xs[i]) }

  predicate NoneOf<T>(p: T -> bool, xs: seq<T>) { forall i :: 0 <= i < |xs| ==> !p(xs[i]) }

  function CountIf<T>(p: T -> bool, xs: seq<T>): nat {
    if xs == [] then 0 else CountIf(p, xs[..|xs| - 1]) + if p(xs[|xs| - 1]) then 1 else 0
  }

  function Accumulate(xs: seq<nat>): nat {
    if xs == [] then 0 else Accumulate(xs[..|xs| - 1]) + xs[|xs| - 1]
  }

  /** Element `i` is an element of its chunk. */
  lemma InItsChunk<T>(input: seq<T>, c: nat, i: nat)
    requires c > 0 && i < |input|
    ensures var k := Home(c, i);
      && k < ResultsSize(|input|, c)
      && Lo(|input|, c, k) <= i < Lo(|input|, c, k + 1) <= |input|
      && ChunkOf(input, c, k)[i - Lo(|input|, c, k)] == input[i]
  {
    LastChunk(|input|, c, 0);
    ChunksPartition(|input|, c, 0, i);
    ChunksPartition(|input|, c, Home(c, i), i);
  }

  /** All chunks satisfy `p` throughout exactly when the whole input does. */
  lemma AllChunksAllOf<T>(p: T -> bool, input: seq<T>, c: nat)
    requires c > 0
    ensures AllOf(p, input) <==> forall k :: 0 <= k < ResultsSize(|input|, c) ==> AllOf(p, ChunkOf(input, c, k))
  {
    if forall k :: 0 <= k < ResultsSize(|input|, c) ==> AllOf(p, ChunkOf(input, c, k)) {
      forall i | 0 <= i < |input| ensures p(input[i]) {
        InItsChunk(input, c, i);
        var k := Home(c, i);
        assert p(ChunkOf(input, c, k)[i - Lo(|input|, c, k)]);
      }
    }
  }

  method ParallelAllOf<T>(input: seq<T>, p: T -> bool, c: nat) returns (r: bool)
    requires c > 0
    ensures r <==> forall i :: 0 <= i < |input| ==> p(input[i])
  {
    var results := ChunkResults(input, c, xs => AllOf(p, xs), false);
    r := AllOf(v => v, results);
    AllChunksAllOf(p, input, c);
    assert forall k :: 0 <= k < |results| ==> (results[k] <==> AllOf(p, ChunkOf(input, c, k)));
  }

  method ParallelAnyOf<T>(input: seq<T>, p: T -> bool, c: nat) returns (r: bool)
    requires c > 0
    ensures r <==> exists i :: 0 <= i < |input| && p(input[i])
  {
    var results := ChunkResults(input, c, xs => AnyOf(p, xs), false);
    r := AnyOf(v => v, results);
    AllChunksAllOf(x => !p(x), input, c);
    assert AllOf(x => !p(x), input) <==> !AnyOf(p, input);
    assert forall k :: 0 <= k < |results| ==> (results[k] <==> !AllOf(x => !p(x), ChunkOf(input, c, k)));
  }

  method ParallelNoneOf<T>(input: seq<T>, p: T -> bool, c: nat) returns (r: bool)
    requires c > 0
    ensures r <==> forall i :: 0 <= i < |input| ==> !p(input[i])
  {
    var results := ChunkResults(input, c, xs => NoneOf(p, xs), false);
    r := AllOf(v => v, results);
    AllChunksAllOf(x => !p(x), input, c);
    assert forall k :: 0 <= k < |results| ==> (results[k] <==> AllOf(x => !p(x), ChunkOf(input, c, k)));
  }

  lemma {:induction false} CountIfConcat<T>(p: T -> bool, xs: seq<T>, ys: seq<T>)
    ensures CountIf(p, xs + ys) == CountIf(p, xs) + CountIf(p, ys)
    decreases |ys|
  {
    if ys == [] {
      assert xs + ys == xs;
    } else {
      assert (xs + ys)[..|xs + ys| - 1] == xs + ys[..|ys| - 1];
      CountIfConcat(p, xs, ys[..|ys| - 1]);
    }
  }

  /** The first `k` chunks are a prefix of the input, and the next chunk extends it. */
  lemma PrefixOfChunks<T>(input: seq<T>, c: nat, k: nat)
    requires c > 0 && k < ResultsSize(|input|, c)
    ensures input[..Lo(|input|, c, k + 1)] == input[..Lo(|input|, c, k)] + ChunkOf(input, c, k)
    ensures Lo(|input|, c, k) < Lo(|input|, c, k + 1)
  {
    LastChunk(|input|, c, k);
    MulStep(k, c);
  }

  lemma {:induction false} CountsOfChunks<T>(p: T -> bool, input: seq<T>, c: nat, counts: seq<nat>, k: nat)
    requires c > 0 && k <= |counts| == ResultsSize(|input|, c)
    requires forall i :: 0 <= i < |counts| ==> counts[i] == CountIf(p, ChunkOf(input, c, i))
    ensures Accumulate(counts[..k]) == CountIf(p, input[..Lo(|input|, c, k)])
    decreases k
  {
    if k == 0 {
      MulStep(0, c);
    } else {
      CountsOfChunks(p, input, c, counts, k - 1);
      PrefixOfChunks(input, c, k - 1);
      CountIfConcat(p, input[..Lo(|input|, c, k - 1)], ChunkOf(input, c, k - 1));
      assert counts[..k][..k - 1] == counts[..k - 1];
    }
  }

  lemma CountsAddUp<T>(p: T -> bool, input: seq<T>, c: nat, counts: seq<nat>)
    requires c > 0 && |counts| == ResultsSize(|input|, c)
    requires forall i :: 0 <= i < |counts| ==> counts[i] == CountIf(p, ChunkOf(input, c, i))
    ensures Accumulate(counts) == CountIf(p, input)
  {
    var m := |counts|;
    CountsOfChunks(p, input, c, counts, m);
    LastChunk(|input|, c, m);
    assert counts[..m] == counts && input[..|input|] == input;
  }

  method ParallelCountIf<T>(input: seq<T>, p: T -> bool, c: nat) returns (n: nat)
    requires c > 0
    ensures n == CountIf(p, input)
  {
    var results := ChunkResults(input, c, xs => CountIf(p, xs), 0);
    n := Accumulate(results);
    CountsAddUp(p, input, c, results);
  }

  lemma {:induction false} CountIsMultiplicity<T>(value: T, xs: seq<T>)
    ensures CountIf(x => x == value, xs) == multiset(xs)[value]
    decreases |xs|
  {
    if xs != [] {
      CountIsMultiplicity(value, xs[..|xs| - 1]);
      assert xs == xs[..|xs| - 1] + [xs[|xs| - 1]];
    }
  }

  method ParallelCount<T(==)>(input: seq<T>, value: T, c: nat) returns (n: nat)
    requires c > 0
    ensures n == multiset(input)[value]
  {
    n := ParallelCountIf(input, x => x == value, c);
    CountIsMultiplicity(value, input);
  }

  // ---------------------------------------------------------------- transform and copy

  function TransformTask<A, B>(input: seq<A>, f: A -> B, chunk: Chunk): seq<Interleaving.Event<B>>
    requires chunk.b <= chunk.e <= |input|
  {
    seq(chunk.e - chunk.b, j requires 0 <= j < chunk.e - chunk.b =>
      Interleaving.Event(chunk.ob + j, _ => f(input[chunk.b + j])))
  }

  function TransformProgram<A, B>(input: seq<A>, f: A -> B, tasks: seq<Chunk>): Program<B>
    requires ChunksFit(tasks, |input|)
  {
    seq(|tasks|, k requires 0 <= k < |tasks| => TransformTask(input, f, tasks[k]))
  }

  /** What `parallel_transform` runs. */
  ghost function TransformTasks<A, B>(input: seq<A>, f: A -> B, c: nat): Program<B>
    requires c > 0
  {
    AllChunksFit(|input|, c);
    TransformProgram(input, f, AllChunks(|input|, c))
  }

  /** The write interval of chunk `k` contains position `i`. */
  predicate Writes(n: nat, c: nat, k: nat, i: int) {
    WriteStart(n, c, k) <= i < WriteStart(n, c, k) + Size(n, c, k)
  }

  ghost predicate OnlyWriter(n: nat, c: nat, k: nat, i: int)
    requires c > 0
  {
    && k < ResultsSize(n, c) && Writes(n, c, k, i)
    && forall k': nat :: k' < ResultsSize(n, c) && Writes(n, c, k', i) ==> k' == k
  }

  ghost predicate WrittenOnce(n: nat, c: nat, i: int)
    requires c > 0
  {
    exists k: nat :: OnlyWriter(n, c, k, i)
  }

  /** Every position of [0, n) lies in the write interval of exactly one chunk. */
  ghost predicate WritesTile(n: nat, c: nat)
    requires c > 0
  {
    forall i :: 0 <= i < n ==> WrittenOnce(n, c, i)
  }

  /** The write intervals are pairwise disjoint and cover [0, n) if and only if the input
      fits in one chunk or the chunk size divides its length. */
  lemma WritesTileExactly(n: nat, c: nat)
    requires c > 0
    ensures WritesTile(n, c) <==> Tiles(n, c)
  {
    if Tiles(n, c) {
      forall i | 0 <= i < n ensures WrittenOnce(n, c, i) {
        LastChunk(n, c, 0);
        ChunksPartition(n, c, 0, i);
        var k := Home(c, i);
        ChunksPartition(n, c, k, i);
        WritesInBounds(n, c, k);
        forall k': nat | k' < ResultsSize(n, c) && Writes(n, c, k', i) ensures k' == k {
          ChunksPartition(n, c, k', i);
          WritesInBounds(n, c, k');
        }
        assert OnlyWriter(n, c, k, i);
      }
    } else if WritesTile(n, c) {
      var last := n - 1;
      assert WrittenOnce(n, c, last);
      var k: nat :| OnlyWriter(n, c, k, last);
      WritesInBounds(n, c, k);
    }
  }

  lemma TransformInBounds<A, B>(input: seq<A>, f: A -> B, c: nat)
    requires c > 0
    ensures Interleaving.InBounds(TransformTasks(input, f, c), |input|)
  {
    forall k | 0 <= k < ResultsSize(|input|, c)
      ensures WriteStart(|input|, c, k) + Size(|input|, c, k) <= |input|
    {
      WritesInBounds(|input|, c, k);
    }
    AllChunksFit(|input|, c);
  }

  lemma TransformRaceFree<A, B>(input: seq<A>, f: A -> B, c: nat)
    requires c > 0 && Tiles(|input|, c)
    ensures Interleaving.RaceFree(TransformTasks(input, f, c))
  {
    var n := |input|;
    var prog: Program<B> := TransformTasks(input, f, c);
    AllChunksFit(n, c);
    forall k, j, k', j' |
      (0 <= k < |prog| && 0 <= j < |prog[k]| && 0 <= k' < |prog| && 0 <= j' < |prog[k']|
       && prog[k][j].slot == prog[k'][j'].slot)
      ensures k == k' && j == j'
    {
      WritesInBounds(n, c, k);
      WritesInBounds(n, c, k');
      ChunksPartition(n, c, k, prog[k][j].slot);
      ChunksPartition(n, c, k', prog[k][j].slot);
    }
  }

  /** The sequential algorithm: the first positions are mapped, the rest is left alone. */
  function MapInto<A, B>(input: seq<A>, f: A -> B, before: seq<B>): (r: seq<B>)
    requires |input| <= |before|
    ensures |r| == |before|
  {
    seq(|before|, i requires 0 <= i < |before| => if i < |input| then f(input[i]) else before[i])
  }

  /** The event that writes position `i` writes the value of element `i`. */
  lemma TransformWrites<A, B>(input: seq<A>, f: A -> B, c: nat, i: nat, x: B)
    requires c > 0 && Tiles(|input|, c) && i < |input|
    ensures var prog: Program<B>, k := TransformTasks(input, f, c), Home(c, i);
      && k < |prog| && 0 <= i - Lo(|input|, c, k) < |prog[k]|
      && prog[k][i - Lo(|input|, c, k)].slot == i
      && prog[k][i - Lo(|input|, c, k)].update(x) == f(input[i])
  {
    InItsChunk(input, c, i);
    WritesInBounds(|input|, c, Home(c, i));
    AllChunksFit(|input|, c);
  }

  lemma TilingTransform<A, B>(input: seq<A>, f: A -> B, c: nat, before: seq<B>, after: seq<B>)
    requires c > 0 && |input| <= |before| && Tiles(|input|, c)
    requires Interleaving.Outcome(TransformTasks(input, f, c), before, after)
    ensures |after| == |before| && forall i :: 0 <= i < |input| ==> after[i] == f(input[i])
  {
    var n := |input|;
    var prog: Program<B> := TransformTasks(input, f, c);
    TransformInBounds(input, f, c);
    TransformRaceFree(input, f, c);
    Interleaving.RaceFreeOutcome(prog, before, after);
    forall i | 0 <= i < n ensures after[i] == f(input[i]) {
      TransformWrites(input, f, c, i, before[i]);
      var e := prog[Home(c, i)][i - Lo(n, c, Home(c, i))];
      assert after[e.slot] == e.update(before[e.slot]);
    }
  }

  /** Position `i` when the guard fails.  With a rest of r elements behind the full chunks: the
      full chunks go to their places, and the rest goes to the r positions from |input| - c on.
      A position written by both holds either value; one written by neither is left alone, as
      is all that lies behind the input. */
  ghost predicate MisplacedAt<A, B>(input: seq<A>, f: A -> B, c: nat, before: seq<B>, after: seq<B>, i: nat)
    requires 0 < c <= |input| && |after| == |before| && i < |after|
  {
    var n, r := |input|, |input| % c;
    var inFull, inRest := i < n - r, n - c <= i < n - c + r;
    && (inFull && !inRest ==> after[i] == f(input[i]))
    && (inRest && !inFull ==> after[i] == f(input[i + c - r]))
    && (inFull && inRest ==> after[i] == f(input[i]) || after[i] == f(input[i + c - r]))
    && (!inFull && !inRest ==> after[i] == before[i])
  }

  ghost predicate Misplaced<A, B>(input: seq<A>, f: A -> B, c: nat, before: seq<B>, after: seq<B>)
    requires 0 < c <= |input| && |after| == |before|
  {
    forall i: nat :: i < |after| ==> MisplacedAt(input, f, c, before, after, i)
  }

  /** Each event of a task, when the guard fails. */
  lemma MisplacedSlot<A, B>(input: seq<A>, f: A -> B, c: nat, k: nat, j: nat)
    requires c > 0 && !Tiles(|input|, c)
    requires k < |TransformTasks<A, B>(input, f, c)| && j < |TransformTasks<A, B>(input, f, c)[k]|
    ensures var n, r := |input|, |input| % c;
      var slot := TransformTasks<A, B>(input, f, c)[k][j].slot;
      && k < ResultsSize(n, c)
      && (k < ResultsSize(n, c) - 1 ==> slot < n - r && slot == Lo(n, c, k) + j && j < c)
      && (k == ResultsSize(n, c) - 1 ==> slot == n - c + j && j < r)
  {
    AllChunksFit(|input|, c);
    MisplacedChunk(|input|, c, k);
  }

  lemma MisplacedEvent<A, B>(input: seq<A>, f: A -> B, c: nat, k: nat, j: nat, x: B)
    requires c > 0 && !Tiles(|input|, c)
    requires k < |TransformTasks(input, f, c)| && j < |TransformTasks(input, f, c)[k]|
    ensures var n, r := |input|, |input| % c;
      var e := TransformTasks(input, f, c)[k][j];
      && (k < ResultsSize(n, c) - 1 ==> e.slot < n && e.update(x) == f(input[e.slot]))
      && (k == ResultsSize(n, c) - 1 ==> e.slot + c - r < n && e.update(x) == f(input[e.slot + c - r]))
  {
    AllChunksFit(|input|, c);
    MisplacedChunk(|input|, c, k);
  }

  /** Event `j` of task `k` is on position `i`. */
  ghost predicate EventAt<T>(prog: Program<T>, k: int, j: int, i: nat) {
    0 <= k < |prog| && 0 <= j < |prog[k]| && prog[k][j].slot == i
  }

  lemma RestTouches<A, B>(input: seq<A>, f: A -> B, c: nat, i: nat)
    requires c > 0 && !Tiles(|input|, c)
    requires |input| - c <= i < |input| - c + |input| % c
    ensures EventAt(TransformTasks<A, B>(input, f, c), ResultsSize(|input|, c) - 1, i - (|input| - c), i)
  {
    AllChunksFit(|input|, c);
    ResultsSizeIsCeiling(|input|, c);
    MisplacedChunk(|input|, c, ResultsSize(|input|, c) - 1);
  }

  lemma FullTouches<A, B>(input: seq<A>, f: A -> B, c: nat, i: nat)
    requires c > 0 && !Tiles(|input|, c) && i < |input| - |input| % c
    ensures Home(c, i) < ResultsSize(|input|, c) - 1
    ensures EventAt(TransformTasks<A, B>(input, f, c), Home(c, i), i - Lo(|input|, c, Home(c, i)), i)
  {
    AllChunksFit(|input|, c);
    InItsChunk(input, c, i);
    MisplacedChunk(|input|, c, ResultsSize(|input|, c) - 1);
    MisplacedChunk(|input|, c, Home(c, i));
  }

  lemma NeitherTouches<A, B>(input: seq<A>, f: A -> B, c: nat, i: nat)
    requires c > 0 && !Tiles(|input|, c)
    requires i >= |input| - |input| % c && !(|input| - c <= i < |input| - c + |input| % c)
    ensures !Interleaving.Touched(TransformTasks(input, f, c), i)
  {
    var prog: Program<B> := TransformTasks(input, f, c);
    forall k, j | 0 <= k < |prog| && 0 <= j < |prog[k]| ensures prog[k][j].slot != i {
      MisplacedSlot(input, f, c, k, j);
    }
  }

  lemma EventTouches<T>(prog: Program<T>, k: int, j: int, i: nat)
    requires EventAt(prog, k, j, i)
    ensures Interleaving.Touched(prog, i)
  {
  }

  lemma MisplacedTouch<A, B>(input: seq<A>, f: A -> B, c: nat, i: nat)
    requires c > 0 && !Tiles(|input|, c)
    ensures var n, r := |input|, |input| % c;
      Interleaving.Touched(TransformTasks(input, f, c), i) <==> i < n - r || n - c <= i < n - c + r
  {
    var n, r := |input|, |input| % c;
    if i < n - r {
      FullTouches(input, f, c, i);
      EventTouches(TransformTasks(input, f, c), Home(c, i), i - Lo(n, c, Home(c, i)), i);
    } else if n - c <= i < n - c + r {
      RestTouches(input, f, c, i);
      EventTouches(TransformTasks(input, f, c), ResultsSize(n, c) - 1, i - (n - c), i);
    } else {
      NeitherTouches(input, f, c, i);
    }
  }

  ghost predicate MayWrite<A, B>(input: seq<A>, f: A -> B, c: nat, i: nat, v: B)
    requires 0 < c <= |input|
  {
    var n, r := |input|, |input| % c;
    (i < n - r && v == f(input[i])) || (n - c <= i < n - c + r && v == f(input[i + c - r]))
  }

  lemma EventMayWrite<A, B>(input: seq<A>, f: A -> B, c: nat, k: nat, j: nat, x: B)
    requires 0 < c <= |input| && !Tiles(|input|, c)
    requires k < |TransformTasks(input, f, c)| && j < |TransformTasks(input, f, c)[k]|
    ensures var e := TransformTasks(input, f, c)[k][j]; MayWrite(input, f, c, e.slot, e.update(x))
  {
    MisplacedSlot(input, f, c, k, j);
    MisplacedEvent(input, f, c, k, j, x);
  }

  lemma MisplacedPosition<A, B>(input: seq<A>, f: A -> B, c: nat, before: seq<B>, after: seq<B>, i: nat)
    requires 0 < c <= |input| <= |before| && !Tiles(|input|, c) && i < |before|
    requires Interleaving.Outcome(TransformTasks(input, f, c), before, after)
    ensures |after| == |before| && MisplacedAt(input, f, c, before, after, i)
  {
    var prog: Program<B> := TransformTasks(input, f, c);
    Interleaving.UntouchedOutcome(prog, before, after);
    MisplacedTouch(input, f, c, i);
    if Interleaving.Touched(prog, i) {
      forall k, j, x | 0 <= k < |prog| && 0 <= j < |prog[k]| && prog[k][j].slot == i
        ensures MayWrite(input, f, c, i, prog[k][j].update(x))
      {
        EventMayWrite(input, f, c, k, j, x);
      }
      Interleaving.WrittenOutcome(prog, before, after, i, v => MayWrite(input, f, c, i, v));
    }
  }

  lemma MisplacedOutcome<A, B>(input: seq<A>, f: A -> B, c: nat, before: seq<B>, after: seq<B>)
    requires c > 0 && |input| <= |before| && !Tiles(|input|, c)
    requires Interleaving.Outcome(TransformTasks(input, f, c), before, after)
    ensures |after| == |before| && Misplaced(input, f, c, before, after)
  {
    Interleaving.UntouchedOutcome(TransformTasks(input, f, c), before, after);
    assert c <= |input|;
    forall i: nat | i < |after| ensures MisplacedAt(input, f, c, before, after, i) {
      MisplacedPosition(input, f, c, before, after, i);
    }
  }

  /** With the guard, every schedule gives the sequential result.  Without it, every schedule
      leaves the full chunks and the misplaced rest; in particular none ever writes the last
      position. */
  lemma TransformOutcome<A, B>(input: seq<A>, f: A -> B, c: nat, before: seq<B>, after: seq<B>)
    requires c > 0 && |input| <= |before|
    requires Interleaving.Outcome(TransformTasks(input, f, c), before, after)
    ensures |after| == |before|
    ensures Tiles(|input|, c) ==> after == MapInto(input, f, before)
    ensures !Tiles(|input|, c) ==> Misplaced(input, f, c, before, after)
    ensures !Tiles(|input|, c) ==> after[|input| - 1] == before[|input| - 1]
  {
    TransformInBounds(input, f, c);
    Interleaving.UntouchedOutcome(TransformTasks(input, f, c), before, after);
    if Tiles(|input|, c) {
      TilingTransform(input, f, c, before, after);
    } else {
      MisplacedOutcome(input, f, c, before, after);
      MisplacedChunk(|input|, c, 0);
      assert MisplacedAt(input, f, c, before, after, |input| - 1);
    }
  }

  lemma OnlyRestAndFull<A, B>(input: seq<A>, f: A -> B, c: nat, i: nat, k: nat, j: nat)
    requires c > 0 && !Tiles(|input|, c) && i < |input| - |input| % c
    requires k < |TransformTasks<A, B>(input, f, c)| && j < |TransformTasks<A, B>(input, f, c)[k]|
    requires TransformTasks<A, B>(input, f, c)[k][j].slot == i
    ensures var n, last := |input|, ResultsSize(|input|, c) - 1;
      (k == Home(c, i) && j == i - Lo(n, c, k)) || (k == last && j == i - (n - c))
  {
    MisplacedSlot(input, f, c, k, j);
    if k < ResultsSize(|input|, c) - 1 {
      MisplacedChunk(|input|, c, k);
      ChunksPartition(|input|, c, k, i);
    }
  }

  lemma TwoEvents<A, B>(input: seq<A>, f: A -> B, c: nat, i: nat, k: nat, j: nat, m: nat, l: nat)
    requires c > 0 && !Tiles(|input|, c) && i < |input| - |input| % c && |input| - c <= i
    requires k == Home(c, i) && j == i - Lo(|input|, c, k) && m == ResultsSize(|input|, c) - 1 && l == i - (|input| - c)
    requires k < m && EventAt(TransformTasks<A, B>(input, f, c), k, j, i) && EventAt(TransformTasks<A, B>(input, f, c), m, l, i)
    ensures Interleaving.Contended(TransformTasks<A, B>(input, f, c), i, k, j, m, l)
  {
    var prog: Program<B> := TransformTasks(input, f, c);
    forall k', j' | 0 <= k' < |prog| && 0 <= j' < |prog[k']| && prog[k'][j'].slot == i
      ensures (k', j') == (k, j) || (k', j') == (m, l)
    {
      OnlyRestAndFull<A, B>(input, f, c, i, k', j');
    }
  }

  /** A position that is written twice: by the event of its own chunk, and by one of the rest. */
  lemma RestAndFull<A, B(!new)>(input: seq<A>, f: A -> B, c: nat, i: nat) returns (k: nat, j: nat, m: nat, l: nat)
    requires c > 0 && !Tiles(|input|, c)
    requires i < |input| - |input| % c && |input| - c <= i < |input| - c + |input| % c
    ensures Interleaving.Contended(TransformTasks<A, B>(input, f, c), i, k, j, m, l)
    ensures k < m == ResultsSize(|input|, c) - 1
  {
    var n := |input|;
    FullTouches(input, f, c, i);
    RestTouches(input, f, c, i);
    k, j, m, l := Home(c, i), i - Lo(n, c, Home(c, i)), ResultsSize(n, c) - 1, i - (n - c);
    TwoEvents<A, B>(input, f, c, i, k, j, m, l);
  }

  lemma FullWrites<A, B(!new)>(input: seq<A>, f: A -> B, c: nat, k: nat, j: nat)
    requires c > 0 && !Tiles(|input|, c) && k < ResultsSize(|input|, c) - 1
    requires k < |TransformTasks<A, B>(input, f, c)| && j < |TransformTasks<A, B>(input, f, c)[k]|
    ensures var e := TransformTasks<A, B>(input, f, c)[k][j];
      e.slot < |input| && Interleaving.Writes(e, f(input[e.slot]))
  {
    var e := TransformTasks<A, B>(input, f, c)[k][j];
    MisplacedSlot(input, f, c, k, j);
    forall x: B ensures e.update(x) == f(input[e.slot]) {
      MisplacedEvent(input, f, c, k, j, x);
    }
  }

  lemma RestWrites<A, B(!new)>(input: seq<A>, f: A -> B, c: nat, k: nat, j: nat)
    requires c > 0 && !Tiles(|input|, c) && k == ResultsSize(|input|, c) - 1
    requires k < |TransformTasks<A, B>(input, f, c)| && j < |TransformTasks<A, B>(input, f, c)[k]|
    ensures var e, r := TransformTasks<A, B>(input, f, c)[k][j], |input| % c;
      e.slot + c - r < |input| && Interleaving.Writes(e, f(input[e.slot + c - r]))
  {
    var e, r := TransformTasks<A, B>(input, f, c)[k][j], |input| % c;
    MisplacedSlot(input, f, c, k, j);
    forall x: B ensures e.update(x) == f(input[e.slot + c - r]) {
      MisplacedEvent(input, f, c, k, j, x);
    }
  }

  /** The two values are both possible: at each position that is written twice, some schedule
      leaves the one and some schedule the other. */
  lemma RaceIsReal<A, B(!new)>(input: seq<A>, f: A -> B, c: nat, before: seq<B>, i: nat)
    requires c > 0 && !Tiles(|input|, c) && |input| <= |before|
    requires i < |input| - |input| % c && |input| - c <= i < |input| - c + |input| % c
    ensures i < |input| && i + c - |input| % c < |input|
    ensures Interleaving.CanLeave(TransformTasks(input, f, c), before, i, f(input[i]))
    ensures Interleaving.CanLeave(TransformTasks(input, f, c), before, i, f(input[i + c - |input| % c]))
  {
    TransformInBounds(input, f, c);
    var k, j, m, l := RestAndFull<A, B>(input, f, c, i);
    FullWrites(input, f, c, k, j);
    RestWrites(input, f, c, m, l);
    Interleaving.EitherWins(TransformTasks(input, f, c), before, i, k, j, m, l, |input|,
                            f(input[i]), f(input[i + c - |input| % c]));
  }

  /** Exactly when `parallel_transform` meets its promise: over all initial outputs and all
      schedules it equals the sequential algorithm if and only if `Tiles` holds. */
  lemma TransformIsExact<A, B(!new)>(input: seq<A>, f: A -> B, c: nat, u: B, v: B)
    requires c > 0 && u != v
    ensures Tiles(|input|, c) <==>
      forall before: seq<B>, after: seq<B> ::
        |input| <= |before| && Interleaving.Outcome(TransformTasks(input, f, c), before, after)
        ==> after == MapInto(input, f, before)
  {
    forall before: seq<B>, after: seq<B> |
      |input| <= |before| && Interleaving.Outcome(TransformTasks(input, f, c), before, after)
      ensures Tiles(|input|, c) ==> after == MapInto(input, f, before)
    {
      TransformOutcome(input, f, c, before, after);
    }
    if !Tiles(|input|, c) {
      var n := |input|;
      var w := if f(input[n - 1]) == u then v else u;
      var before := seq(n, _ => w);
      TransformInBounds(input, f, c);
      var after := SomeOutcome(TransformTasks(input, f, c), before);
      TransformOutcome(input, f, c, before, after);
      assert after[n - 1] != MapInto(input, f, before)[n - 1];
    }
  }

  /** Some schedule completes. */
  lemma SomeOutcome<T>(prog: Program<T>, before: seq<T>) returns (after: seq<T>)
    requires Interleaving.InBounds(prog, |before|)
    ensures Interleaving.Outcome(prog, before, after)
  {
    after := Interleaving.Complete(prog, Interleaving.Start(prog, before), before, []);
  }

  method ParallelTransform<A, B>(input: seq<A>, output: array<B>, f: A -> B, c: nat)
    requires c > 0 && |input| <= output.Length
    modifies output
    ensures Interleaving.Outcome(TransformTasks(input, f, c), old(output[..]), output[..])
    ensures Tiles(|input|, c) ==> output[..] == MapInto(input, f, old(output[..]))
    ensures !Tiles(|input|, c) ==> Misplaced(input, f, c, old(output[..]), output[..])
    ensures !Tiles(|input|, c) ==> output[|input| - 1] == old(output[|input| - 1])
  {
    var tasks := BuildChunks(|input|, c);
    AllChunksFit(|input|, c);
    TransformInBounds(input, f, c);
    Interleaving.Parallel(TransformProgram(input, f, tasks), output);
    TransformOutcome(input, f, c, old(output[..]), output[..]);
  }

  method ParallelCopy<T>(input: seq<T>, output: array<T>, c: nat)
    requires c > 0 && |input| <= output.Length
    modifies output
    ensures Tiles(|input|, c) ==> output[..] == input + old(output[|input|..])
    ensures !Tiles(|input|, c) ==> Misplaced(input, x => x, c, old(output[..]), output[..])
    ensures !Tiles(|input|, c) ==> output[|input| - 1] == old(output[|input| - 1])
  {
    ParallelTransform(input, output, x => x, c);
  }

  // ---------------------------------------------------------------- for_each

  function ForEachTask<T>(op: T -> T, chunk: Chunk): (r: seq<Interleaving.Event<T>>)
    requires chunk.b <= chunk.e
    ensures |r| == chunk.e - chunk.b && forall j :: 0 <= j < |r| ==> r[j] == Interleaving.Event(chunk.b + j, op)
  {
    seq(chunk.e - chunk.b, j requires 0 <= j < chunk.e - chunk.b => Interleaving.Event(chunk.b + j, op))
  }

  function ForEachProgram<T>(op: T -> T, tasks: seq<Chunk>, n: nat): (r: Program<T>)
    requires ChunksFit(tasks, n)
    ensures |r| == |tasks| && forall k :: 0 <= k < |r| ==> r[k] == ForEachTask(op, tasks[k])
  {
    seq(|tasks|, k requires 0 <= k < |tasks| => ForEachTask(op, tasks[k]))
  }

  /** What `parallel_for_each` runs. */
  ghost function ForEachTasks<T>(op: T -> T, n: nat, c: nat): Program<T>
    requires c > 0
  {
    AllChunksFit(n, c);
    ForEachProgram(op, AllChunks(n, c), n)
  }

  lemma ForEachRaceFree<T>(op: T -> T, n: nat, c: nat)
    requires c > 0
    ensures Interleaving.InBounds(ForEachTasks(op, n, c), n)
    ensures Interleaving.RaceFree(ForEachTasks(op, n, c))
  {
    AllChunksFit(n, c);
    var prog: Program<T> := ForEachTasks(op, n, c);
    forall k, j, k', j' |
      (0 <= k < |prog| && 0 <= j < |prog[k]| && 0 <= k' < |prog| && 0 <= j' < |prog[k']|
       && prog[k][j].slot == prog[k'][j'].slot)
      ensures k == k' && j == j'
    {
      ChunksPartition(n, c, k, prog[k][j].slot);
      ChunksPartition(n, c, k', prog[k][j].slot);
    }
  }

  /** Every element is updated exactly once, under every schedule and for every chunk size. */
  lemma ForEachOutcome<T>(op: T -> T, c: nat, before: seq<T>, after: seq<T>)
    requires c > 0
    requires Interleaving.Outcome(ForEachTasks(op, |before|, c), before, after)
    ensures |after| == |before| && forall i :: 0 <= i < |before| ==> after[i] == op(before[i])
  {
    var n := |before|;
    AllChunksFit(n, c);
    var prog: Program<T> := ForEachTasks(op, n, c);
    ForEachRaceFree(op, n, c);
    Interleaving.RaceFreeOutcome(prog, before, after);
    forall i | 0 <= i < n ensures after[i] == op(before[i]) {
      InItsChunk(before, c, i);
      var k := Home(c, i);
      assert prog[k][i - Lo(n, c, k)].slot == i;
    }
  }

  method ParallelForEach<T>(a: array<T>, op: T -> T, c: nat)
    requires c > 0
    modifies a
    ensures forall i :: 0 <= i < a.Length ==> a[i] == op(old(a[i]))
  {
    var tasks := BuildChunks(a.Length, c);
    AllChunksFit(a.Length, c);
    ForEachRaceFree(op, a.Length, c);
    Interleaving.Parallel(ForEachProgram(op, tasks, a.Length), a);
    ForEachOutcome(op, c, old(a[..]), a[..]);
    assert forall i :: 0 <= i < a.Length ==> a[..][i] == a[i] && old(a[..])[i] == old(a[i]);
  }
}
