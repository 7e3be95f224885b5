/** The algorithms on the protocol: when a call of `parallel` has returned in a composed run of
    clients, pool, queue, workers and latches, whatever the other calls and the schedule, its
    memory holds what the algorithm promises. */
module EndToEnd {
  import opened Runs
  import opened Chunks
  import Algorithms
  import Interleaving
  import MapReduce
  import ParallelCall
  import Reduce

  type Program<!T> = Interleaving.Program<T>

  /** In state `s`, reached by `acts` on a pool with `workers` workers, call `j` of the
      concurrent calls `progs` has returned. */
  ghost predicate HasReturned<T>(progs: seq<Program<T>>, mems: seq<seq<T>>, workers: nat,
                                 acts: seq<ParallelCall.Action>, s: ParallelCall.State<T>, j: nat) {
    && workers > 0 && |mems| == |progs| && j < |progs|
    && Exec(ParallelCall.Stepper(progs), ParallelCall.Init(progs, mems, workers), acts) == Some(s)
    && ParallelCall.Returned(s, j)
  }

  lemma ReturnedOutcome<T(!new)>(progs: seq<Program<T>>, mems: seq<seq<T>>, workers: nat,
                                 acts: seq<ParallelCall.Action>, s: ParallelCall.State<T>, j: nat)
    requires HasReturned(progs, mems, workers, acts, s, j)
    ensures j < |s.calls| && Interleaving.Outcome(progs[j], mems[j], s.calls[j].m.mem)
  {
    ParallelCall.NeverReturnsEarly(progs, mems, workers, acts, s, j);
  }

  /** `parallel_all_of`: the results combine to the sequential answer. */
  lemma AllOfOnThePool<T>(input: seq<T>, p: T -> bool, c: nat, progs: seq<Program<bool>>, mems: seq<seq<bool>>,
                          workers: nat, acts: seq<ParallelCall.Action>, s: ParallelCall.State<bool>, j: nat)
    requires c > 0 && HasReturned(progs, mems, workers, acts, s, j)
    requires progs[j] == Algorithms.ResultTasks(input, c, xs => Algorithms.AllOf(p, xs))
    requires |mems[j]| == ResultsSize(|input|, c)
    ensures Algorithms.AllOf(v => v, s.calls[j].m.mem) <==> forall i :: 0 <= i < |input| ==> p(input[i])
  {
    ReturnedOutcome(progs, mems, workers, acts, s, j);
    var results := s.calls[j].m.mem;
    Algorithms.ResultOutcome(input, c, xs => Algorithms.AllOf(p, xs), mems[j], results);
    Algorithms.AllChunksAllOf(p, input, c);
    assert forall k :: 0 <= k < |results| ==> (results[k] <==> Algorithms.AllOf(p, Algorithms.ChunkOf(input, c, k)));
  }

  /** `parallel_count_if`: the results add up to the sequential count. */
  lemma CountIfOnThePool<T>(input: seq<T>, p: T -> bool, c: nat, progs: seq<Program<nat>>, mems: seq<seq<nat>>,
                            workers: nat, acts: seq<ParallelCall.Action>, s: ParallelCall.State<nat>, j: nat)
    requires c > 0 && HasReturned(progs, mems, workers, acts, s, j)
    requires progs[j] == Algorithms.ResultTasks(input, c, xs => Algorithms.CountIf(p, xs))
    requires |mems[j]| == ResultsSize(|input|, c)
    ensures Algorithms.Accumulate(s.calls[j].m.mem) == Algorithms.CountIf(p, input)
  {
    ReturnedOutcome(progs, mems, workers, acts, s, j);
    Algorithms.ResultOutcome(input, c, xs => Algorithms.CountIf(p, xs), mems[j], s.calls[j].m.mem);
    Algorithms.CountsAddUp(p, input, c, s.calls[j].m.mem);
  }

  /** `parallel_reduce`: reducing the results gives the exact fold, and what `std::reduce`
      gives on the whole input if `init` is absorbed. */
  lemma ReduceOnThePool<T(!new)>(input: seq<T>, init: T, op: (T, T) -> T, reduce: (T, seq<T>) -> T, c: nat,
                                 progs: seq<Program<T>>, mems: seq<seq<T>>, workers: nat,
                                 acts: seq<ParallelCall.Action>, s: ParallelCall.State<T>, j: nat)
    requires c > 0 && HasReturned(progs, mems, workers, acts, s, j)
    requires progs[j] == Algorithms.ResultTasks(input, c, xs => reduce(init, xs))
    requires |mems[j]| == ResultsSize(|input|, c)
    requires Reduce.IsStdReduce(op, reduce) && Reduce.Associative(op) && Reduce.Commutative(op)
    ensures reduce(init, s.calls[j].m.mem)
         == Reduce.Fold(op, Algorithms.Repeat(init, ResultsSize(|input|, c) + 1) + input)
    ensures Reduce.Absorbs(op, init) ==> reduce(init, s.calls[j].m.mem) == reduce(init, input)
  {
    ReturnedOutcome(progs, mems, workers, acts, s, j);
    Algorithms.ResultOutcome(input, c, xs => reduce(init, xs), mems[j], s.calls[j].m.mem);
    Reduce.ParallelValueIsFold(op, init, input, c, reduce);
    if Reduce.Absorbs(op, init) {
      Reduce.AbsorbingAgrees(op, init, input, c, reduce);
    }
  }

  /** `parallel_transform`: the output is the sequential one if the guard holds; if it does not,
      the rest is misplaced, and the last position is left alone. */
  lemma TransformOnThePool<A, B(!new)>(input: seq<A>, f: A -> B, c: nat, progs: seq<Program<B>>, mems: seq<seq<B>>,
                                       workers: nat, acts: seq<ParallelCall.Action>, s: ParallelCall.State<B>, j: nat)
    requires c > 0 && HasReturned(progs, mems, workers, acts, s, j)
    requires progs[j] == Algorithms.TransformTasks(input, f, c) && |input| <= |mems[j]|
    ensures j < |s.calls| && |s.calls[j].m.mem| == |mems[j]|
    ensures Tiles(|input|, c) ==> s.calls[j].m.mem == Algorithms.MapInto(input, f, mems[j])
    ensures !Tiles(|input|, c) ==> Algorithms.Misplaced(input, f, c, mems[j], s.calls[j].m.mem)
    ensures !Tiles(|input|, c) ==> s.calls[j].m.mem[|input| - 1] == mems[j][|input| - 1]
  {
    ReturnedOutcome(progs, mems, workers, acts, s, j);
    Algorithms.TransformOutcome(input, f, c, mems[j], s.calls[j].m.mem);
  }

  /** `parallel_for_each`: every element has been updated exactly once. */
  lemma ForEachOnThePool<T(!new)>(op: T -> T, c: nat, progs: seq<Program<T>>, mems: seq<seq<T>>,
                                  workers: nat, acts: seq<ParallelCall.Action>, s: ParallelCall.State<T>, j: nat)
    requires c > 0 && HasReturned(progs, mems, workers, acts, s, j)
    requires progs[j] == Algorithms.ForEachTasks(op, |mems[j]|, c)
    ensures j < |s.calls| && |s.calls[j].m.mem| == |mems[j]|
    ensures forall i :: 0 <= i < |mems[j]| ==> s.calls[j].m.mem[i] == op(mems[j][i])
  {
    ReturnedOutcome(progs, mems, workers, acts, s, j);
    Algorithms.ForEachOutcome(op, c, mems[j], s.calls[j].m.mem);
  }

  /** `parallel_map_reduce`: when the call that maps has returned, and the call that reduces the
      groups of its results has returned, the output is the promised map, if both guards hold. */
  lemma MapReduceOnThePool<A, K(!new), V(!new)>(
    input: seq<A>, f: A -> (K, V), reduce: (K, seq<V>) -> (K, V), c: nat, d: (K, V), order: seq<K>,
    progs: seq<Program<(K, V)>>, mems: seq<seq<(K, V)>>, workers: nat,
    acts: seq<ParallelCall.Action>, s: ParallelCall.State<(K, V)>, i: nat,
    acts': seq<ParallelCall.Action>, s': ParallelCall.State<(K, V)>, j: nat)
    requires c > 0 && MapReduce.KeyPreserving(reduce)
    requires HasReturned(progs, mems, workers, acts, s, i) && HasReturned(progs, mems, workers, acts', s', j)
    requires progs[i] == Algorithms.TransformTasks(input, f, c) && mems[i] == Algorithms.Repeat(d, |input|)
    requires i < |s.calls| && MapReduce.Enumerates(order, MapReduce.Keys(s.calls[i].m.mem))
    requires progs[j] == Algorithms.TransformTasks(MapReduce.Entries(MapReduce.Grouped(s.calls[i].m.mem), order),
                                                   MapReduce.Curried(reduce), c)
    requires mems[j] == Algorithms.Repeat(d, |order|)
    requires Tiles(|input|, c) && Tiles(|MapReduce.Keys(MapReduce.Mapped(input, f))|, c)
    ensures j < |s'.calls| && MapReduce.FromPairs(s'.calls[j].m.mem) == MapReduce.Expected(input, f, reduce)
  {
    ReturnedOutcome(progs, mems, workers, acts, s, i);
    ReturnedOutcome(progs, mems, workers, acts', s', j);
    MapReduce.MapReduceMeetsPromise(input, f, reduce, c, d, s.calls[i].m.mem, order, s'.calls[j].m.mem);
  }
}
