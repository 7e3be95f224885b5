/** `parallel_map_reduce`: a parallel map, a sequential shuffle that groups by key, a parallel
    reduce with one input per key, and the construction of the output map. */
module MapReduce {
  import opened Chunks
  import Algorithms
  import Interleaving

  // ---------------------------------------------------------------- grouping

  function Keys<K, V>(ps: seq<(K, V)>): set<K> { set i | 0 <= i < |ps| :: ps[i].0 }

  /** The values that come with key `k`, in order. */
  function ValuesFor<K(==), V>(ps: seq<(K, V)>, k: K): seq<V> {
    if ps == [] then []
    else ValuesFor(ps[..|ps| - 1], k) + if ps[|ps| - 1].0 == k then [ps[|ps| - 1].1] else []
  }

  /** The list of a key takes its values in input order: the values of a joined sequence are
      those of the first part and then those of the second, and one pair gives its value to
      its own key and to no other. */
  lemma {:induction false} ValuesInOrder<K, V>(ps: seq<(K, V)>, qs: seq<(K, V)>, p: (K, V), k: K)
    ensures ValuesFor(ps + qs, k) == ValuesFor(ps, k) + ValuesFor(qs, k)
    ensures ValuesFor([p], k) == if p.0 == k then [p.1] else []
    decreases |qs|
  {
    assert [p][..0] == [];
    if qs == [] {
      assert ps + qs == ps;
    } else {
      assert (ps + qs)[..|ps + qs| - 1] == ps + qs[..|qs| - 1];
      ValuesInOrder(ps, qs[..|qs| - 1], p, k);
    }
  }

  function Grouped<K(==), V>(ps: seq<(K, V)>): map<K, seq<V>> { map k | k in Keys(ps) :: ValuesFor(ps, k) }

  lemma {:induction false} AbsentKeyHasNoValues<K, V>(ps: seq<(K, V)>, k: K)
    requires k !in Keys(ps)
    ensures ValuesFor(ps, k) == []
    decreases |ps|
  {
    if ps != [] {
      var front := ps[..|ps| - 1];
      assert ps[|ps| - 1].0 in Keys(ps);
      assert forall i :: 0 <= i < |front| ==> front[i] == ps[i];
      AbsentKeyHasNoValues(front, k);
    }
  }

  lemma KeysSnoc<K, V>(ps: seq<(K, V)>, p: (K, V))
    ensures Keys(ps + [p]) == Keys(ps) + {p.0}
  {
    var qs := ps + [p];
    assert qs[|ps|] == p && forall i :: 0 <= i < |ps| ==> qs[i] == ps[i];
  }

  lemma GroupedSnoc<K, V>(ps: seq<(K, V)>, p: (K, V))
    ensures var g := Grouped(ps);
      Grouped(ps + [p]) == g[p.0 := (if p.0 in g then g[p.0] else []) + [p.1]]
  {
    KeysSnoc(ps, p);
    var qs := ps + [p];
    assert qs[..|qs| - 1] == ps && qs[|qs| - 1] == p;
    if p.0 !in Keys(ps) {
      AbsentKeyHasNoValues(ps, p.0);
    }
    var g, h := Grouped(ps), Grouped(qs);
    assert h.Keys == g.Keys + {p.0};
    forall k | k in g && k != p.0 ensures h[k] == g[k] {
      assert ValuesFor(qs, k) == ValuesFor(ps, k) + [];
    }
    assert h[p.0] == ValuesFor(ps, p.0) + [p.1];
    assert h == g[p.0 := ValuesFor(ps, p.0) + [p.1]];
  }

  /** The shuffle loop: append each value to the list of its key. */
  method Shuffle<K(==), V>(ps: seq<(K, V)>) returns (shuffled: map<K, seq<V>>)
    ensures shuffled == Grouped(ps)
    ensures (forall k :: k in shuffled <==> exists i :: 0 <= i < |ps| && ps[i].0 == k)
    ensures forall k :: k in shuffled ==> shuffled[k] == ValuesFor(ps, k)
  {
    shuffled := map[];
    for i := 0 to |ps|
      invariant shuffled == Grouped(ps[..i])
    {
      var (k, v) := ps[i];
      assert ps[..i + 1][..i] == ps[..i] && ps[..i + 1] == ps[..i] + [ps[i]];
      GroupedSnoc(ps[..i], ps[i]);
      shuffled := shuffled[k := (if k in shuffled then shuffled[k] else []) + [v]];
    }
    assert ps[..|ps|] == ps;
  }

  /** `order` lists the elements of `s`, each once. */
  ghost predicate Enumerates<K>(order: seq<K>, s: set<K>) {
    && (forall k :: k in s ==> k in order)
    && (forall i :: 0 <= i < |order| ==> order[i] in s)
    && (forall i, j :: 0 <= i < j < |order| ==> order[i] != order[j])
  }

  lemma {:induction false} EnumerationLength<K>(order: seq<K>, s: set<K>)
    requires Enumerates(order, s)
    ensures |order| == |s|
    decreases |order|
  {
    if order != [] {
      var last := order[|order| - 1];
      var front := order[..|order| - 1];
      assert order == front + [last];
      assert Enumerates(front, s - {last});
      EnumerationLength(front, s - {last});
      assert last in s;
    } else {
      assert s == {};
    }
  }

  function Gathered<K(==), V>(ps: seq<(K, V)>, order: seq<K>): seq<V> {
    if order == [] then []
    else Gathered(ps, order[..|order| - 1]) + ValuesFor(ps, order[|order| - 1])
  }

  function Second<K, V>(ps: seq<(K, V)>): (r: seq<V>)
    ensures |r| == |ps|
  {
    seq(|ps|, i requires 0 <= i < |ps| => ps[i].1)
  }

  /** One more pair adds its value to the lists if and only if its key is listed. */
  lemma {:induction false} GatheredSnoc<K, V>(ps: seq<(K, V)>, p: (K, V), order: seq<K>)
    requires forall i, j :: 0 <= i < j < |order| ==> order[i] != order[j]
    ensures multiset(Gathered(ps + [p], order))
         == multiset(Gathered(ps, order)) + if p.0 in order then multiset{p.1} else multiset{}
    decreases |order|
  {
    if order != [] {
      var front, last := order[..|order| - 1], order[|order| - 1];
      GatheredSnoc(ps, p, front);
      assert (ps + [p])[..|ps + [p]| - 1] == ps;
      assert order == front + [last];
    }
  }

  /** No value is lost, and none is duplicated across keys. */
  lemma {:induction false} GroupingConserves<K, V>(ps: seq<(K, V)>, order: seq<K>)
    requires forall i, j :: 0 <= i < j < |order| ==> order[i] != order[j]
    requires forall i :: 0 <= i < |ps| ==> ps[i].0 in order
    ensures multiset(Gathered(ps, order)) == multiset(Second(ps))
    decreases |ps|
  {
    if ps == [] {
      NothingGathered<K, V>(order);
    } else {
      var front, last := ps[..|ps| - 1], ps[|ps| - 1];
      assert ps == front + [last];
      GroupingConserves(front, order);
      GatheredSnoc(front, last, order);
      assert Second(ps) == Second(front) + [last.1];
    }
  }

  lemma {:induction false} NothingGathered<K, V>(order: seq<K>)
    ensures Gathered<K, V>([], order) == []
    decreases |order|
  {
    if order != [] {
      NothingGathered<K, V>(order[..|order| - 1]);
    }
  }

  // ---------------------------------------------------------------- the output map

  /** Constructing a map from a range of pairs; the first pair of a key wins. */
  function FromPairs<K(==), V>(ps: seq<(K, V)>): map<K, V> {
    if ps == [] then map[]
    else
      var m, p := FromPairs(ps[..|ps| - 1]), ps[|ps| - 1];
      if p.0 in m then m else m[p.0 := p.1]
  }

  lemma {:induction false} FromPairsKeys<K, V>(ps: seq<(K, V)>)
    ensures FromPairs(ps).Keys == Keys(ps)
    decreases |ps|
  {
    if ps != [] {
      FromPairsKeys(ps[..|ps| - 1]);
      KeysSnoc(ps[..|ps| - 1], ps[|ps| - 1]);
      assert ps == ps[..|ps| - 1] + [ps[|ps| - 1]];
    }
  }

  /** No pair before `i` has its key. */
  ghost predicate First<K, V>(ps: seq<(K, V)>, i: nat)
    requires i < |ps|
  {
    forall j :: 0 <= j < i ==> ps[j].0 != ps[i].0
  }

  /** The map has the keys of the pairs, and for each key the value of its first pair. */
  ghost predicate KeepsFirst<K, V>(m: map<K, V>, ps: seq<(K, V)>) {
    && (forall i :: 0 <= i < |ps| ==> ps[i].0 in m)
    && (forall k :: k in m ==> exists i :: 0 <= i < |ps| && ps[i].0 == k)
    && (forall i: nat :: i < |ps| && First(ps, i) ==> m[ps[i].0] == ps[i].1)
  }

  lemma {:induction false} FirstPairWins<K, V>(ps: seq<(K, V)>, i: nat)
    requires i < |ps| && First(ps, i)
    ensures ps[i].0 in FromPairs(ps) && FromPairs(ps)[ps[i].0] == ps[i].1
    decreases |ps|
  {
    var front := ps[..|ps| - 1];
    FromPairsKeys(front);
    if i < |front| {
      assert First(front, i);
      FirstPairWins(front, i);
    }
  }

  /** Constructing a map from a range of pairs keeps the first pair of each key. */
  lemma FromPairsKeepsFirst<K, V>(ps: seq<(K, V)>)
    ensures KeepsFirst(FromPairs(ps), ps)
  {
    FromPairsKeys(ps);
    forall i | 0 <= i < |ps| ensures ps[i].0 in FromPairs(ps) {
      assert ps[i].0 in Keys(ps);
    }
    forall i: nat | i < |ps| && First(ps, i) ensures FromPairs(ps)[ps[i].0] == ps[i].1 {
      FirstPairWins(ps, i);
    }
  }

  // ---------------------------------------------------------------- the whole algorithm

  function Mapped<A, K, V>(input: seq<A>, f: A -> (K, V)): (r: seq<(K, V)>)
    ensures |r| == |input|
  {
    seq(|input|, i requires 0 <= i < |input| => f(input[i]))
  }

  /** The shuffled collection in iteration order. */
  function Entries<K(==), V>(groups: map<K, seq<V>>, order: seq<K>): (r: seq<(K, seq<V>)>)
    requires forall k :: k in order ==> k in groups
    ensures |r| == |order|
  {
    seq(|order|, i requires 0 <= i < |order| => (order[i], groups[order[i]]))
  }

  ghost predicate KeyPreserving<K(!new), V(!new)>(reduce: (K, seq<V>) -> (K, V)) {
    forall k, vs :: reduce(k, vs).0 == k
  }

  /** What the caller is promised: each mapped key with the reduction of its list of values. */
  ghost function Expected<A, K, V>(input: seq<A>, f: A -> (K, V), reduce: (K, seq<V>) -> (K, V)): map<K, V> {
    var ps := Mapped(input, f);
    map k | k in Keys(ps) :: reduce(k, ValuesFor(ps, k)).1
  }

  function Curried<K, V>(reduce: (K, seq<V>) -> (K, V)): ((K, seq<V>)) -> (K, V) {
    (e: (K, seq<V>)) => reduce(e.0, e.1)
  }

  /** The phases fit together: `mapped` comes from some schedule of the map tasks, `order` is
      the iteration order of the groups, `reduced` comes from some schedule of the reduce
      tasks.  `d` is the value with which a resized list is filled. */
  ghost predicate Phases<A, K, V>(input: seq<A>, f: A -> (K, V), reduce: (K, seq<V>) -> (K, V), c: nat, d: (K, V),
                                  mapped: seq<(K, V)>, order: seq<K>, reduced: seq<(K, V)>)
    requires c > 0
  {
    && Interleaving.Outcome(Algorithms.TransformTasks(input, f, c), Algorithms.Repeat(d, |input|), mapped)
    && Enumerates(order, Keys(mapped))
    && Interleaving.Outcome(Algorithms.TransformTasks(Entries(Grouped(mapped), order), Curried(reduce), c),
                            Algorithms.Repeat(d, |order|), reduced)
  }

  method KeysInOrder<K(==), V>(groups: map<K, seq<V>>) returns (order: seq<K>)
    ensures Enumerates(order, groups.Keys)
  {
    order := [];
    var left := groups.Keys;
    while left != {}
      invariant Enumerates(order, groups.Keys - left) && left <= groups.Keys
      decreases |left|
    {
      var k :| k in left;
      order := order + [k];
      left := left - {k};
    }
    assert groups.Keys - left == groups.Keys;
  }

  /** The output is built from the phases; with the guards it is what is promised. */
  method ParallelMapReduce<A, K(==, !new), V(!new)>(
    input: seq<A>, f: A -> (K, V), reduce: (K, seq<V>) -> (K, V), c: nat, d: (K, V))
    returns (output: map<K, V>, ghost mapped: seq<(K, V)>, ghost order: seq<K>, ghost reduced: seq<(K, V)>)
    requires c > 0
    ensures Phases(input, f, reduce, c, d, mapped, order, reduced) && output == FromPairs(reduced)
    ensures KeepsFirst(output, reduced)
    ensures KeyPreserving(reduce) && Tiles(|input|, c) && Tiles(|Keys(Mapped(input, f))|, c)
      ==> output == Expected(input, f, reduce)
  {
    var slots := new (K, V)[|input|](_ => d);
    assert slots[..] == Algorithms.Repeat(d, |input|);
    Algorithms.ParallelTransform(input, slots, f, c);
    mapped := slots[..];
    var shuffled := Shuffle(slots[..]);
    var keys := KeysInOrder(shuffled);
    order := keys;
    var results := new (K, V)[|keys|](_ => d);
    assert results[..] == Algorithms.Repeat(d, |keys|);
    Algorithms.ParallelTransform(Entries(shuffled, keys), results, Curried(reduce), c);
    reduced := results[..];
    output := FromPairs(results[..]);
    FromPairsKeepsFirst(reduced);
    if KeyPreserving(reduce) && Tiles(|input|, c) && Tiles(|Keys(Mapped(input, f))|, c) {
      MapReduceMeetsPromise(input, f, reduce, c, d, mapped, order, reduced);
    }
  }

  /** With the guard on both lengths, and a reduction that keeps its key, every schedule gives
      the promised map. */
  lemma MapReduceMeetsPromise<A, K(!new), V(!new)>(
    input: seq<A>, f: A -> (K, V), reduce: (K, seq<V>) -> (K, V), c: nat, d: (K, V),
    mapped: seq<(K, V)>, order: seq<K>, reduced: seq<(K, V)>)
    requires c > 0 && Phases(input, f, reduce, c, d, mapped, order, reduced)
    requires KeyPreserving(reduce)
    requires Tiles(|input|, c) && Tiles(|Keys(Mapped(input, f))|, c)
    ensures mapped == Mapped(input, f)
    ensures FromPairs(reduced) == Expected(input, f, reduce)
  {
    Algorithms.TransformOutcome(input, f, c, Algorithms.Repeat(d, |input|), mapped);
    assert mapped == Mapped(input, f);
    EnumerationLength(order, Keys(mapped));
    var entries := Entries(Grouped(mapped), order);
    Algorithms.TransformOutcome(entries, Curried(reduce), c, Algorithms.Repeat(d, |order|), reduced);
    forall i | 0 <= i < |order| ensures reduced[i] == reduce(order[i], ValuesFor(mapped, order[i])) {
      assert reduced[i] == Curried(reduce)(entries[i]);
    }
    OutputOfReduced(reduce, mapped, order, reduced);
  }

  lemma OutputOfReduced<K(!new), V(!new)>(
    reduce: (K, seq<V>) -> (K, V), mapped: seq<(K, V)>, order: seq<K>, reduced: seq<(K, V)>)
    requires KeyPreserving(reduce) && Enumerates(order, Keys(mapped)) && |reduced| == |order|
    requires forall i :: 0 <= i < |order| ==> reduced[i] == reduce(order[i], ValuesFor(mapped, order[i]))
    ensures FromPairs(reduced) == map k | k in Keys(mapped) :: reduce(k, ValuesFor(mapped, k)).1
  {
    FromPairsKeys(reduced);
    assert forall i :: 0 <= i < |order| ==> reduced[i].0 == order[i];
    assert Keys(reduced) == Keys(mapped);
    forall k | k in Keys(mapped) ensures FromPairs(reduced)[k] == reduce(k, ValuesFor(mapped, k)).1 {
      var i :| 0 <= i < |order| && order[i] == k;
      FirstPairWins(reduced, i);
    }
  }

  /** Without a guard the last slot of a phase keeps the default, so the default's key is in
      the output, mapped or not. */
  lemma MissingGuardShowsDefault<A, K(!new), V(!new)>(
    input: seq<A>, f: A -> (K, V), reduce: (K, seq<V>) -> (K, V), c: nat, d: (K, V),
    mapped: seq<(K, V)>, order: seq<K>, reduced: seq<(K, V)>)
    requires c > 0 && Phases(input, f, reduce, c, d, mapped, order, reduced)
    requires KeyPreserving(reduce)
    requires !Tiles(|input|, c) || !Tiles(|Keys(Mapped(input, f))|, c)
    ensures d.0 in FromPairs(reduced)
  {
    Algorithms.TransformOutcome(input, f, c, Algorithms.Repeat(d, |input|), mapped);
    EnumerationLength(order, Keys(mapped));
    var entries := Entries(Grouped(mapped), order);
    Algorithms.TransformOutcome(entries, Curried(reduce), c, Algorithms.Repeat(d, |order|), reduced);
    FromPairsKeys(reduced);
    assert Tiles(|input|, c) ==> mapped == Mapped(input, f);
    if !Tiles(|order|, c) {
      assert reduced[|order| - 1] == d;
    } else {
      assert mapped[|input| - 1] == d;
      assert d.0 in order;
      var i :| 0 <= i < |order| && order[i] == d.0;
      assert reduced[i] == Curried(reduce)(entries[i]);
    }
  }

  // ---------------------------------------------------------------- exactly when

  function WitnessInput(n: nat): (r: seq<nat>)
    ensures |r| == n
  {
    seq(n, i requires 0 <= i => i)
  }

  /** Maps 0, 1, 2, ... to the keys 1, ..., m, and never to key 0. */
  function WitnessMap(m: nat): nat -> (nat, nat) {
    (x: nat) => (if x < m then x + 1 else 1, x)
  }

  function CountValues(k: nat, vs: seq<nat>): (nat, nat) { (k, |vs|) }

  function FromOneTo(m: nat): (r: set<nat>)
    ensures |r| == m && forall k: nat :: k in r <==> 1 <= k <= m
  {
    if m == 0 then {} else FromOneTo(m - 1) + {m}
  }

  lemma WitnessKeys(n: nat, m: nat)
    requires 1 <= m <= n
    ensures |Keys(Mapped(WitnessInput(n), WitnessMap(m)))| == m
    ensures 0 !in Keys(Mapped(WitnessInput(n), WitnessMap(m)))
  {
    var ps := Mapped(WitnessInput(n), WitnessMap(m));
    forall k | k in FromOneTo(m) ensures k in Keys(ps) {
      assert ps[k - 1].0 == k;
    }
    assert Keys(ps) == FromOneTo(m);
  }

  /** The promise is kept for this instance by every schedule. */
  ghost predicate KeepsPromise<A, K(!new), V(!new)>(
    input: seq<A>, f: A -> (K, V), reduce: (K, seq<V>) -> (K, V), c: nat, d: (K, V))
    requires c > 0
  {
    forall mapped: seq<(K, V)>, order: seq<K>, reduced: seq<(K, V)> ::
      Phases(input, f, reduce, c, d, mapped, order, reduced) ==> FromPairs(reduced) == Expected(input, f, reduce)
  }

  /** The promise is kept for all instances of `n` inputs with `m` distinct mapped keys. */
  ghost predicate AlwaysKeepsPromise(n: nat, m: nat, c: nat)
    requires c > 0
  {
    forall input: seq<nat>, f: nat -> (nat, nat), reduce: (nat, seq<nat>) -> (nat, nat), d: (nat, nat) ::
      |input| == n && |Keys(Mapped(input, f))| == m && KeyPreserving(reduce) ==> KeepsPromise(input, f, reduce, c, d)
  }

  lemma GuardsSuffice<A, K(!new), V(!new)>(
    input: seq<A>, f: A -> (K, V), reduce: (K, seq<V>) -> (K, V), c: nat, d: (K, V))
    requires c > 0 && KeyPreserving(reduce)
    requires Tiles(|input|, c) && Tiles(|Keys(Mapped(input, f))|, c)
    ensures KeepsPromise(input, f, reduce, c, d)
  {
    forall mapped: seq<(K, V)>, order: seq<K>, reduced: seq<(K, V)> |
      Phases(input, f, reduce, c, d, mapped, order, reduced)
      ensures FromPairs(reduced) == Expected(input, f, reduce)
    {
      MapReduceMeetsPromise(input, f, reduce, c, d, mapped, order, reduced);
    }
  }

  lemma GuardsNeeded(n: nat, m: nat, c: nat)
    requires c > 0 && 1 <= m <= n && (!Tiles(n, c) || !Tiles(m, c))
    ensures !AlwaysKeepsPromise(n, m, c)
  {
    var input, f, reduce, d := WitnessInput(n), WitnessMap(m), CountValues, (0, 0);
    WitnessKeys(n, m);
    var mapped, order, reduced := SomePhases(input, f, reduce, c, d);
    MissingGuardShowsDefault(input, f, reduce, c, d, mapped, order, reduced);
    assert 0 !in Expected(input, f, reduce);
    assert !KeepsPromise(input, f, reduce, c, d);
  }

  /** Exactly when `parallel_map_reduce` meets its promise.  For n inputs with m distinct keys:
      every instance is right under every schedule if and only if each of n and m is at most
      the chunk size or a multiple of it. */
  lemma MapReduceIsExact(n: nat, m: nat, c: nat)
    requires c > 0 && 1 <= m <= n
    ensures AlwaysKeepsPromise(n, m, c) <==> Tiles(n, c) && Tiles(m, c)
  {
    if Tiles(n, c) && Tiles(m, c) {
      forall input: seq<nat>, f: nat -> (nat, nat), reduce: (nat, seq<nat>) -> (nat, nat), d: (nat, nat) |
        |input| == n && |Keys(Mapped(input, f))| == m && KeyPreserving(reduce)
        ensures KeepsPromise(input, f, reduce, c, d)
      {
        GuardsSuffice(input, f, reduce, c, d);
      }
    } else {
      GuardsNeeded(n, m, c);
    }
  }

  lemma SomePhases<A, K, V>(input: seq<A>, f: A -> (K, V), reduce: (K, seq<V>) -> (K, V), c: nat, d: (K, V))
    returns (mapped: seq<(K, V)>, order: seq<K>, reduced: seq<(K, V)>)
    requires c > 0
    ensures Phases(input, f, reduce, c, d, mapped, order, reduced)
  {
    Algorithms.TransformInBounds(input, f, c);
    mapped := Algorithms.SomeOutcome(Algorithms.TransformTasks(input, f, c), Algorithms.Repeat(d, |input|));
    order := SomeOrder(Keys(mapped));
    var entries := Entries(Grouped(mapped), order);
    Algorithms.TransformInBounds(entries, Curried(reduce), c);
    reduced := Algorithms.SomeOutcome(Algorithms.TransformTasks(entries, Curried(reduce), c), Algorithms.Repeat(d, |order|));
  }

  lemma {:induction false} SomeOrder<K>(s: set<K>) returns (order: seq<K>)
    ensures Enumerates(order, s)
    decreases |s|
  {
    if s == {} {
      order := [];
    } else {
      var k :| k in s;
      var rest := SomeOrder(s - {k});
      order := rest + [k];
    }
  }
}
