/** The chunking loop shared by the parallel algorithms: input intervals, result indices, and
    the output positions that `parallel_transform` and `parallel_copy` keep. */
module Chunks {

  /** Input interval [b, e), result index `ri`, first output position `ob`. */
  datatype Chunk = Chunk(b: nat, e: nat, ri: nat, ob: nat)

  function Min(x: nat, y: nat): nat { if x < y then x else y }

  function ResultsSize(size: nat, chunkSize: nat): nat
    requires chunkSize > 0
  {
    if size % chunkSize == 0 then size / chunkSize else size / chunkSize + 1
  }

  /** Every product below is with the chunk size, so these two facts are all the nonlinear
      arithmetic there is. */
  lemma MulStep(k: int, c: int)
    ensures (k + 1) * c == k * c + c
  {
  }

  lemma MulMono(j: int, k: int, c: int)
    requires c >= 0 && j <= k
    ensures j * c <= k * c
  {
  }

  /** The number of results is the ceiling of size / chunkSize: that many chunks are enough,
      and one fewer is not. */
  lemma ResultsSizeIsCeiling(n: nat, c: nat)
    requires c > 0
    ensures n <= ResultsSize(n, c) * c < n + c
    ensures ResultsSize(n, c) == 0 <==> n == 0
  {
    var q, r := n / c, n % c;
    assert n == q * c + r && 0 <= r < c;
    MulStep(q, c);
    if q >= 1 {
      MulMono(1, q, c);
    }
  }

  /** The `k`-th input interval. */
  function Lo(n: nat, c: nat, k: nat): nat { Min(k * c, n) }

  function Size(n: nat, c: nat, k: nat): nat { Min((k + 1) * c, n) - Lo(n, c, k) }

  /** Where chunk `k` is written: after the sizes of chunks 1, ..., k. */
  function WriteStart(n: nat, c: nat, k: nat): nat {
    if k == 0 then 0 else WriteStart(n, c, k - 1) + Size(n, c, k)
  }

  function ChunkAt(n: nat, c: nat, k: nat): Chunk {
    Chunk(Lo(n, c, k), Lo(n, c, k + 1), k, WriteStart(n, c, k))
  }

  function AllChunks(n: nat, c: nat): (r: seq<Chunk>)
    requires c > 0
    ensures |r| == ResultsSize(n, c)
    ensures forall k :: 0 <= k < |r| ==> r[k] == ChunkAt(n, c, k)
  {
    seq(ResultsSize(n, c), k requires 0 <= k => ChunkAt(n, c, k))
  }

  method SafeAdvance(iter: nat, end: nat, count: nat) returns (iter': nat, remaining: nat)
    requires iter <= end
    ensures iter' == Min(iter + count, end) && remaining == iter' - iter
  {
    remaining := Min(end - iter, count);
    iter' := iter + remaining;
  }

  lemma LastChunk(n: nat, c: nat, k: nat)
    requires c > 0
    ensures k * c >= n <==> k >= ResultsSize(n, c)
  {
    ResultsSizeIsCeiling(n, c);
    var m := ResultsSize(n, c);
    if k >= m {
      MulMono(m, k, c);
    } else {
      MulMono(k + 1, m, c);
      MulStep(k, c);
    }
  }

  /** The loop terminates and makes exactly the chunks 0, ..., ResultsSize - 1. */
  method BuildChunks(n: nat, c: nat) returns (tasks: seq<Chunk>)
    requires c > 0
    ensures tasks == AllChunks(n, c)
    ensures |tasks| == ResultsSize(n, c)
    ensures forall k :: 0 <= k < |tasks| ==>
      && tasks[k].b == Min(k * c, n) && tasks[k].e == Min((k + 1) * c, n) && tasks[k].ri == k
      && tasks[k].ob == tasks[k].e - Min(c, n)
  {
    tasks := [];
    var b, e, ri, ob := 0, 0, 0, 0;
    var advanced: nat;
    e, advanced := SafeAdvance(e, n, c);
    while b != n
      invariant ri == |tasks| && b == Lo(n, c, ri) && e == Lo(n, c, ri + 1) && ob == WriteStart(n, c, ri)
      invariant ri <= ResultsSize(n, c)
      invariant forall k :: 0 <= k < |tasks| ==> tasks[k] == ChunkAt(n, c, k)
      decreases n - b
    {
      LastChunk(n, c, ri);
      MulStep(ri, c);
      MulStep(ri + 1, c);
      tasks := tasks + [Chunk(b, e, ri, ob)];
      b := e;
      e, advanced := SafeAdvance(e, n, c);
      ob := ob + advanced;
      ri := ri + 1;
    }
    LastChunk(n, c, ri);
    assert tasks == AllChunks(n, c);
    forall k | 0 <= k < |tasks| ensures tasks[k].ob == tasks[k].e - Min(c, n) {
      WriteStartClosed(n, c, k);
    }
  }

  /** The chunk of element `i`. */
  function Home(c: nat, i: nat): nat
    requires c > 0
  {
    i / c
  }

  /** The input intervals partition [0, n): none is empty, the result index is in bounds, and
      element `i` lies in the interval of chunk `i / c` and in no other. */
  lemma ChunksPartition(n: nat, c: nat, k: nat, i: nat)
    requires c > 0 && i < n && k < ResultsSize(n, c)
    ensures Lo(n, c, k) < Lo(n, c, k + 1) <= n && Lo(n, c, k + 1) - Lo(n, c, k) <= c
    ensures Home(c, i) < ResultsSize(n, c)
    ensures Lo(n, c, k) <= i < Lo(n, c, k + 1) <==> k == Home(c, i)
  {
    LastChunk(n, c, k);
    MulStep(k, c);
    var h := Home(c, i);
    assert h * c <= i < h * c + c;
    LastChunk(n, c, h);
    if h < k {
      MulMono(h + 1, k, c);
      MulStep(h, c);
    } else if k < h {
      MulMono(k + 1, h, c);
    }
  }

  /** The guard under which the output positions are right. */
  predicate Tiles(n: nat, c: nat)
    requires c > 0
  {
    n <= c || n % c == 0
  }

  lemma {:induction false} WriteStartClosed(n: nat, c: nat, k: nat)
    requires c > 0
    ensures WriteStart(n, c, k) == Lo(n, c, k + 1) - Min(c, n)
    decreases k
  {
    MulStep(0, c);
    MulStep(k, c);
    if k > 0 {
      WriteStartClosed(n, c, k - 1);
    }
  }

  /** A chunk that ends beyond n, when n is beyond the first chunk, ends there because the
      chunk size does not divide n. */
  lemma ShortChunk(n: nat, c: nat, k: nat)
    requires c > 0 && k * c < n < (k + 1) * c
    ensures n % c != 0
  {
    var q := n / c;
    assert n == q * c + n % c;
    if k + 1 <= q {
      MulMono(k + 1, q, c);
    } else {
      MulMono(q, k, c);
    }
  }

  lemma FullChunks(n: nat, c: nat, k: nat)
    requires c > 0 && !Tiles(n, c)
    ensures (k + 1) * c != n
  {
    if (k + 1) * c == n {
      DivisibleBy(n, c, k + 1);
    }
  }

  lemma ChunkBounds(n: nat, c: nat, k: nat)
    requires c > 0 && k < ResultsSize(n, c)
    ensures 0 <= k * c < n && (k + 1) * c == k * c + c
    ensures k > 0 ==> c <= k * c
    ensures Lo(n, c, k) == k * c && Lo(n, c, k + 1) == Min(k * c + c, n)
  {
    LastChunk(n, c, k);
    MulStep(k, c);
    if k > 0 {
      MulMono(1, k, c);
    }
  }

  /** The write intervals lie in [0, n).  They start where the input intervals start, for
      every chunk, if and only if `Tiles` holds; the last one shows the difference. */
  lemma WritesInBounds(n: nat, c: nat, k: nat)
    requires c > 0 && k < ResultsSize(n, c)
    ensures Size(n, c, k) == Lo(n, c, k + 1) - Lo(n, c, k) > 0
    ensures WriteStart(n, c, k) + Size(n, c, k) <= n
    ensures Tiles(n, c) ==> WriteStart(n, c, k) == Lo(n, c, k)
    ensures !Tiles(n, c) ==> WriteStart(n, c, k) + Size(n, c, k) < n
  {
    WriteStartClosed(n, c, k);
    ChunkBounds(n, c, k);
    if (k + 1) * c > n {
      ShortChunk(n, c, k);
    } else if !Tiles(n, c) {
      FullChunks(n, c, k);
    }
  }

  /** Where chunk `k` is written when the guard fails.  With a rest of r elements behind the
      full chunks: the full chunks are written where they are read, and the rest, which is read
      at n - r, is written at n - c. */
  lemma MisplacedChunk(n: nat, c: nat, k: nat)
    requires c > 0 && !Tiles(n, c) && k < ResultsSize(n, c)
    ensures var r, last := n % c, ResultsSize(n, c) - 1;
      && 0 < r < c < n && last > 0
      && (k < last ==> Lo(n, c, k) == WriteStart(n, c, k) && Size(n, c, k) == c && Lo(n, c, k) + c <= n - r)
      && (k == last ==> Lo(n, c, k) == n - r && WriteStart(n, c, k) == n - c && Size(n, c, k) == r)
  {
    var m, r := n / c, n % c;
    assert n == m * c + r;
    WriteStartClosed(n, c, k);
    ChunkBounds(n, c, k);
    if m == 0 {
      MulStep(0, c);
      assert false;
    }
    MulMono(1, m, c);
    if k < m {
      MulMono(k + 1, m, c);
    }
  }

  lemma DivisibleBy(n: nat, c: nat, m: nat)
    requires c > 0 && n == m * c
    ensures n % c == 0
  {
    var q, r := n / c, n % c;
    assert n == q * c + r;
    if m > q {
      MulMono(q + 1, m, c);
      MulStep(q, c);
    } else {
      MulMono(m, q, c);
    }
  }
}
