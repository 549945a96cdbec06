/** The Longest-Processing-Time planners of tools/testkit/sharding.py.

    A placement `at` sends the i-th weight to bin `at[i]`; `Greedy` is the placement
    that sends every weight to the first of the lightest bins. Both planners are
    proved against it, and the bounds of `LptBounds` are about it. */
module Sharding {
  import opened Counting
  import opened StableSort
  import opened Names

  datatype Item<T> = Item(name: T, weight: nat)

  predicate HeavierFirst<T>(x: Item<T>, y: Item<T>) {
    x.weight >= y.weight
  }

  predicate ByName(x: Item<string>, y: Item<string>) {
    NameLeq(x.name, y.name)
  }

  function Weights<T>(items: seq<Item<T>>): seq<nat> {
    seq(|items|, i requires 0 <= i < |items| => items[i].weight)
  }

  function Total<T>(items: seq<Item<T>>): nat {
    Sum(Weights(items))
  }

  // ------------------------------------------------------------ placements

  /** What the first `n` weights put into bin `b`. */
  function Load(ws: seq<nat>, at: seq<nat>, b: nat, n: nat): nat
    requires n <= |ws| && n <= |at|
  {
    if n == 0 then 0 else Load(ws, at, b, n - 1) + if at[n - 1] == b then ws[n - 1] else 0
  }

  function Bin<T>(items: seq<Item<T>>, at: seq<nat>, b: nat, n: nat): seq<Item<T>>
    requires n <= |items| && n <= |at|
  {
    if n == 0 then [] else Bin(items, at, b, n - 1) + if at[n - 1] == b then [items[n - 1]] else []
  }

  function FirstLightest(loads: seq<nat>): (t: nat)
    requires loads != []
    ensures t < |loads|
    ensures forall c :: 0 <= c < |loads| ==> loads[t] <= loads[c]
    ensures forall c :: 0 <= c < t ==> loads[t] < loads[c]
  {
    var last := |loads| - 1;
    if last == 0 then 0
    else
      var t := FirstLightest(loads[..last]);
      if loads[last] < loads[t] then last else t
  }

  function Loads(ws: seq<nat>, at: seq<nat>, m: nat, n: nat): seq<nat>
    requires n <= |ws| && n <= |at|
  {
    seq(m, b requires 0 <= b < m => Load(ws, at, b, n))
  }

  function Greedy(ws: seq<nat>, m: nat): (at: seq<nat>)
    requires m >= 1
    ensures |at| == |ws|
  {
    if ws == [] then []
    else
      var n := |ws| - 1;
      var at := Greedy(ws[..n], m);
      at + [FirstLightest(Loads(ws, at, m, n))]
  }

  /** Every weight goes to the first of the bins that are lightest at that moment. */
  ghost predicate IsGreedy(ws: seq<nat>, at: seq<nat>, m: nat) {
    |at| == |ws| && forall n :: 0 <= n < |ws| ==> PlacedOnLightest(ws, at, m, n)
  }

  ghost predicate PlacedOnLightest(ws: seq<nat>, at: seq<nat>, m: nat, n: nat)
    requires n < |ws| == |at|
  {
    && at[n] < m
    && (forall c: nat :: c < m ==> Load(ws, at, at[n], n) <= Load(ws, at, c, n))
    && (forall c: nat :: c < at[n] ==> Load(ws, at, at[n], n) < Load(ws, at, c, n))
  }

  lemma {:induction false} LoadFrame(ws: seq<nat>, at: seq<nat>, ws': seq<nat>, at': seq<nat>, b: nat, n: nat)
    requires n <= |ws| && n <= |at| && n <= |ws'| && n <= |at'|
    requires forall i :: 0 <= i < n ==> ws[i] == ws'[i] && at[i] == at'[i]
    ensures Load(ws, at, b, n) == Load(ws', at', b, n)
  {
    if n > 0 {
      LoadFrame(ws, at, ws', at', b, n - 1);
    }
  }

  lemma {:induction false} GreedyIsGreedy(ws: seq<nat>, m: nat)
    requires m >= 1
    ensures IsGreedy(ws, Greedy(ws, m), m)
  {
    if ws != [] {
      var n := |ws| - 1;
      var before, at := Greedy(ws[..n], m), Greedy(ws, m);
      GreedyIsGreedy(ws[..n], m);
      forall k | 0 <= k < |ws| ensures PlacedOnLightest(ws, at, m, k) {
        forall c: nat ensures Load(ws, at, c, k) == Load(ws[..n], before, c, k) == Load(ws, before, c, k) {
          LoadFrame(ws, at, ws[..n], before, c, k);
          LoadFrame(ws, at, ws, before, c, k);
        }
        if k < n {
          assert PlacedOnLightest(ws[..n], before, m, k);
        } else {
          var loads := Loads(ws, before, m, n);
          assert forall c: nat :: c < m ==> loads[c] == Load(ws, at, c, n);
        }
      }
    }
  }

  /** A first-lightest placement is determined by the weights alone. */
  lemma {:induction false} GreedyUnique(ws: seq<nat>, at: seq<nat>, at': seq<nat>, m: nat, n: nat)
    requires IsGreedy(ws, at, m) && IsGreedy(ws, at', m) && n <= |ws|
    ensures at[..n] == at'[..n]
  {
    if n > 0 {
      GreedyUnique(ws, at, at', m, n - 1);
      var k := n - 1;
      forall i | 0 <= i < k ensures at[i] == at'[i] {
        assert at[..k][i] == at'[..k][i];
      }
      assert PlacedOnLightest(ws, at, m, k) && PlacedOnLightest(ws, at', m, k);
      LoadFrame(ws, at, ws, at', at[k], k);
      LoadFrame(ws, at, ws, at', at'[k], k);
      assert at[k] == at'[k];
      assert at[..n] == at[..k] + [at[k]] && at'[..n] == at'[..k] + [at'[k]];
    }
  }

  // ------------------------------------------------------------ what the planners compute

  function HeaviestFirst<T>(items: seq<Item<T>>): (s: seq<Item<T>>) {
    Sort(items, HeavierFirst)
  }

  /** The `m` buckets of the assignment loop. */
  function GreedyBins<T>(items: seq<Item<T>>, m: nat): (bins: seq<seq<Item<T>>>)
    requires m >= 1
  {
    var sorted := HeaviestFirst(items);
    var at := Greedy(Weights(sorted), m);
    seq(m, b requires 0 <= b < m => Bin(sorted, at, b, |sorted|))
  }

  /** The buckets of `lpt_shards`, with its single-bucket shortcut. */
  function LptBins(weights: seq<Item<string>>, shardCount: int): (bins: seq<seq<Item<string>>>)
    ensures |bins| == if shardCount <= 1 || |weights| <= 1 then 1 else shardCount
  {
    if shardCount <= 1 || |weights| <= 1 then [Sort(weights, ByName)] else GreedyBins(weights, shardCount)
  }

  /** The single bucket holds the modules in the order of their names. */
  lemma SingleBucketByName(weights: seq<Item<string>>, shardCount: int)
    requires shardCount <= 1 || |weights| <= 1
    ensures
      var bins := LptBins(weights, shardCount);
      && |bins| == 1 && multiset(bins[0]) == multiset(weights)
      && forall i, j :: 0 <= i < j < |bins[0]| ==> NameLeq(bins[0][i].name, bins[0][j].name)
  {
    SortPermutes(weights, ByName);
    forall x, y ensures ByName(x, y) || ByName(y, x) { NameLeqTotal(x.name, y.name); }
    forall x, y, z | ByName(x, y) && ByName(y, z) ensures ByName(x, z) {
      NameLeqTransitive(x.name, y.name, z.name);
    }
    SortSorts(weights, ByName);
  }

  predicate Occupied<T>(bin: seq<Item<T>>) {
    bin != []
  }

  function DropEmpty<T>(bins: seq<seq<Item<T>>>): seq<seq<Item<T>>> {
    Select(bins, Occupied)
  }

  /** The shards of `plan_within_module_shards`. */
  function ClassBins<T>(items: seq<Item<T>>, shardCount: int): seq<seq<Item<T>>> {
    if items == [] then []
    else if shardCount <= 1 then [items]
    else DropEmpty(GreedyBins(items, shardCount))
  }

  lemma {:induction false} BinWeighsItsLoad<T>(items: seq<Item<T>>, at: seq<nat>, b: nat, n: nat)
    requires n <= |items| && n <= |at|
    ensures Total(Bin(items, at, b, n)) == Load(Weights(items), at, b, n)
  {
    if n > 0 {
      BinWeighsItsLoad(items, at, b, n - 1);
      var before, bin := Bin(items, at, b, n - 1), Bin(items, at, b, n);
      if at[n - 1] == b {
        assert Weights(bin)[..|bin| - 1] == Weights(before);
      } else {
        assert bin == before;
      }
    }
  }

  // ------------------------------------------------------------ the planners

  class Shard {
    const index: nat
    var weight: nat
    var modules: seq<Item<string>>

    constructor (index: nat)
      ensures this.index == index && weight == 0 && modules == []
    {
      this.index := index;
      weight, modules := 0, [];
    }

    method Append(item: Item<string>)
      modifies this
      ensures modules == old(modules) + [item]
      ensures weight == old(weight) + item.weight
    {
      modules := modules + [item];
      weight := weight + item.weight;
    }
  }

  function ShardWeights(shards: seq<Shard>): (ws: seq<nat>)
    reads shards
    ensures |ws| == |shards| && forall b :: 0 <= b < |shards| ==> ws[b] == shards[b].weight
  {
    seq(|shards|, b requires 0 <= b < |shards| reads shards => shards[b].weight)
  }

  /** The shards hold exactly the given buckets, each with its weight summed up. */
  ghost predicate Holds(shards: seq<Shard>, bins: seq<seq<Item<string>>>)
    reads shards
  {
    && |shards| == |bins|
    && forall b :: 0 <= b < |bins| ==> shards[b].modules == bins[b] && shards[b].weight == Total(bins[b])
  }

  method EmptyShards(m: nat) returns (shards: seq<Shard>)
    ensures |shards| == m && NoDuplicates(shards) && fresh(shards)
    ensures forall b :: 0 <= b < m ==> shards[b].index == b && shards[b].weight == 0 && shards[b].modules == []
  {
    shards := [];
    for b := 0 to m
      invariant |shards| == b && NoDuplicates(shards) && fresh(shards)
      invariant forall c :: 0 <= c < b ==> shards[c].index == c && shards[c].weight == 0 && shards[c].modules == []
    {
      var shard := new Shard(b);
      shards := shards + [shard];
    }
  }

  /** The assignment loop: next heaviest item onto the first lightest shard. */
  method AssignHeaviestFirst(shards: seq<Shard>, items: seq<Item<string>>)
    requires |shards| >= 1 && NoDuplicates(shards)
    requires forall b :: 0 <= b < |shards| ==> shards[b].weight == 0 && shards[b].modules == []
    modifies shards
    ensures Holds(shards, GreedyBins(items, |shards|))
    ensures Sum(ShardWeights(shards)) == Total(items)
  {
    var sorted := HeaviestFirst(items);
    ghost var at := Greedy(Weights(sorted), |shards|);
    GreedyIsGreedy(Weights(sorted), |shards|);
    PlaceAll(shards, sorted, at);
    AllPlaced(shards, items, GreedyBins(items, |shards|));
  }

  method PlaceAll(shards: seq<Shard>, sorted: seq<Item<string>>, ghost at: seq<nat>)
    requires |shards| >= 1 && NoDuplicates(shards)
    requires IsGreedy(Weights(sorted), at, |shards|) && |at| == |sorted| && Placed(shards, sorted, at, 0)
    modifies shards
    ensures Placed(shards, sorted, at, |sorted|)
  {
    for n := 0 to |sorted|
      invariant Placed(shards, sorted, at, n)
    {
      PlaceNext(shards, sorted[n], sorted, at, n);
    }
  }

  method PlaceNext(shards: seq<Shard>, item: Item<string>, ghost sorted: seq<Item<string>>, ghost at: seq<nat>,
      ghost n: nat)
    requires |shards| >= 1 && NoDuplicates(shards)
    requires IsGreedy(Weights(sorted), at, |shards|) && n < |sorted| && item == sorted[n]
    requires Placed(shards, sorted, at, n)
    modifies shards
    ensures Placed(shards, sorted, at, n + 1)
  {
    var target := FirstLightest(ShardWeights(shards));
    LightestIsPlaced(ShardWeights(shards), Weights(sorted), at, |shards|, n);
    shards[target].Append(item);
    forall b | 0 <= b < |shards|
      ensures shards[b].modules == Bin(sorted, at, b, n + 1)
      ensures shards[b].weight == Load(Weights(sorted), at, b, n + 1)
    {
      assert shards[b] == shards[target] <==> b == at[n];
    }
  }

  ghost predicate Placed(shards: seq<Shard>, sorted: seq<Item<string>>, at: seq<nat>, n: nat)
    requires n <= |sorted| == |at|
    reads shards
  {
    forall b :: 0 <= b < |shards| ==>
      && shards[b].modules == Bin(sorted, at, b, n)
      && shards[b].weight == Load(Weights(sorted), at, b, n)
  }

  lemma AllPlaced(shards: seq<Shard>, items: seq<Item<string>>, bins: seq<seq<Item<string>>>)
    requires |shards| >= 1 && bins == GreedyBins(items, |shards|)
    requires
      var sorted := HeaviestFirst(items);
      Placed(shards, sorted, Greedy(Weights(sorted), |shards|), |sorted|)
    ensures Holds(shards, bins)
    ensures Sum(ShardWeights(shards)) == Total(items)
  {
    var ws := Weights(HeaviestFirst(items));
    var loads := Loads(ws, Greedy(ws, |shards|), |shards|, |ws|);
    GreedyBinsWeigh(items, |shards|);
    forall b | 0 <= b < |shards| ensures shards[b].modules == bins[b] && shards[b].weight == Total(bins[b]) {
      assert shards[b].weight == loads[b];
    }
    assert ShardWeights(shards) == loads;
  }

  lemma LightestIsPlaced(loads: seq<nat>, ws: seq<nat>, at: seq<nat>, m: nat, n: nat)
    requires m >= 1 && IsGreedy(ws, at, m) && n < |ws|
    requires |loads| == m && forall b :: 0 <= b < m ==> loads[b] == Load(ws, at, b, n)
    ensures FirstLightest(loads) == at[n]
  {
    assert PlacedOnLightest(ws, at, m, n);
  }

  method LptShards(weights: seq<Item<string>>, shardCount: int) returns (shards: seq<Shard>, totalWeight: nat)
    ensures fresh(shards) && NoDuplicates(shards)
    ensures Holds(shards, LptBins(weights, shardCount))
    ensures forall b :: 0 <= b < |shards| ==> shards[b].index == b
    ensures totalWeight == Total(weights)
  {
    if shardCount <= 1 || |weights| <= 1 {
      var items := Sort(weights, ByName);
      SortPermutes(weights, ByName);
      TotalOfPermutation(items, weights);
      shards := EmptyShards(1);
      totalWeight := Total(items);
      shards[0].modules, shards[0].weight := items, totalWeight;
      return;
    }
    shards := EmptyShards(shardCount);
    AssignHeaviestFirst(shards, weights);
    totalWeight := Sum(ShardWeights(shards));
  }

  /** The module planner with empty shards dropped; `weights` is what `compute_weights` returned. */
  method PlanShardsForPhase(modules: seq<string>, weights: seq<Item<string>>, shardCount: int)
    returns (shards: seq<Shard>, totalWeight: nat, shardsCount: nat)
    ensures shardsCount == |shards|
    ensures modules == [] ==> Holds(shards, [[]]) && totalWeight == 0
    ensures modules != [] ==>
      Holds(shards, DropEmpty(LptBins(weights, shardCount))) && totalWeight == Total(weights)
  {
    if modules == [] {
      shards := EmptyShards(1);
      return shards, 0, 1;
    }
    var planned;
    planned, totalWeight := LptShards(weights, if shardCount > 1 then shardCount else 1);
    shards := KeepOccupied(planned, LptBins(weights, shardCount));
    shardsCount := |shards|;
  }

  method KeepOccupied(planned: seq<Shard>, ghost bins: seq<seq<Item<string>>>) returns (shards: seq<Shard>)
    requires Holds(planned, bins)
    ensures Holds(shards, DropEmpty(bins))
  {
    shards := [];
    for b := 0 to |planned|
      invariant Holds(shards, DropEmpty(bins[..b]))
    {
      DropEmptyAppend(bins[..b], bins[b]);
      assert bins[..b + 1] == bins[..b] + [bins[b]];
      if planned[b].modules != [] {
        shards := shards + [planned[b]];
      }
    }
    assert bins[..|bins|] == bins;
  }

  lemma {:induction false} DropEmptyAppend<T>(bins: seq<seq<Item<T>>>, bin: seq<Item<T>>)
    ensures DropEmpty(bins + [bin]) == DropEmpty(bins) + if bin == [] then [] else [bin]
  {
    if bins == [] {
      assert [bin][1..] == [];
    } else {
      DropEmptyAppend(bins[1..], bin);
      assert (bins + [bin])[1..] == bins[1..] + [bin];
    }
  }

  /** The class planner keeps its weights in an array beside the shards. */
  method PlanWithinModuleShards<T(0)>(items: seq<Item<T>>, shardCount: int) returns (out: seq<seq<Item<T>>>)
    ensures out == ClassBins(items, shardCount)
    ensures items == [] ==> out == []
    ensures items != [] && shardCount <= 1 ==> out == [items]
  {
    if items == [] {
      return [];
    }
    if shardCount <= 1 {
      return [items];
    }
    var shards := new seq<Item<T>>[shardCount](_ => []);
    var shardWeights := new nat[shardCount](_ => 0);
    var sorted := HeaviestFirst(items);
    ghost var at := Greedy(Weights(sorted), shardCount);
    GreedyIsGreedy(Weights(sorted), shardCount);
    PlaceAllClasses(shards, shardWeights, sorted, at);
    assert shards[..] == GreedyBins(items, shardCount);
    out := DropEmpty(shards[..]);
  }

  method PlaceAllClasses<T>(shards: array<seq<Item<T>>>, shardWeights: array<nat>, sorted: seq<Item<T>>,
      ghost at: seq<nat>)
    requires shards.Length >= 1 && IsGreedy(Weights(sorted), at, shards.Length) && |at| == |sorted|
    requires ClassesPlaced(shards, shardWeights, sorted, at, 0)
    modifies shards, shardWeights
    ensures ClassesPlaced(shards, shardWeights, sorted, at, |sorted|)
  {
    for n := 0 to |sorted|
      invariant ClassesPlaced(shards, shardWeights, sorted, at, n)
    {
      PlaceNextClass(shards, shardWeights, sorted[n], sorted, at, n);
    }
  }

  ghost predicate ClassesPlaced<T>(shards: array<seq<Item<T>>>, shardWeights: array<nat>,
      sorted: seq<Item<T>>, at: seq<nat>, n: nat)
    requires n <= |sorted| == |at|
    reads shards, shardWeights
  {
    && shards.Length == shardWeights.Length
    && (forall b :: 0 <= b < shards.Length ==> shards[b] == Bin(sorted, at, b, n))
    && (forall b :: 0 <= b < shards.Length ==> shardWeights[b] == Load(Weights(sorted), at, b, n))
  }

  method PlaceNextClass<T>(shards: array<seq<Item<T>>>, shardWeights: array<nat>, item: Item<T>,
      ghost sorted: seq<Item<T>>, ghost at: seq<nat>, ghost n: nat)
    requires shards.Length >= 1
    requires IsGreedy(Weights(sorted), at, shards.Length) && n < |sorted| && item == sorted[n]
    requires ClassesPlaced(shards, shardWeights, sorted, at, n)
    modifies shards, shardWeights
    ensures ClassesPlaced(shards, shardWeights, sorted, at, n + 1)
  {
    var target := FirstLightest(shardWeights[..]);
    LightestIsPlaced(shardWeights[..], Weights(sorted), at, shards.Length, n);
    shards[target] := shards[target] + [item];
    shardWeights[target] := shardWeights[target] + item.weight;
  }

  // ------------------------------------------------------------ sums

  lemma GreedyBinsWeigh<T>(items: seq<Item<T>>, m: nat)
    requires m >= 1
    ensures
      var ws := Weights(HeaviestFirst(items));
      var loads := Loads(ws, Greedy(ws, m), m, |ws|);
      && Sum(loads) == Total(items)
      && forall b :: 0 <= b < m ==> loads[b] == Total(GreedyBins(items, m)[b])
  {
    var sorted := HeaviestFirst(items);
    var ws := Weights(sorted);
    var at := Greedy(ws, m);
    GreedyIsGreedy(ws, m);
    forall i | 0 <= i < |ws| ensures at[i] < m {
      assert PlacedOnLightest(ws, at, m, i);
    }
    LoadsSumToAll(ws, at, m, |ws|);
    assert ws[..|ws|] == ws;
    SortPermutes(items, HeavierFirst);
    TotalOfPermutation(sorted, items);
    forall b | 0 <= b < m ensures Loads(ws, at, m, |ws|)[b] == Total(GreedyBins(items, m)[b]) {
      BinWeighsItsLoad(sorted, at, b, |sorted|);
    }
  }

  lemma {:induction false} SumBump(s: seq<nat>, t: nat, w: nat)
    requires t < |s|
    ensures Sum(s[t := s[t] + w]) == Sum(s) + w
  {
    var last := |s| - 1;
    if t < last {
      SumBump(s[..last], t, w);
      assert s[t := s[t] + w][..last] == s[..last][t := s[t] + w];
    } else {
      assert s[t := s[t] + w][..last] == s[..last];
    }
  }

  /** Nothing is lost: the bins together weigh what was placed. */
  lemma {:induction false} LoadsSumToAll(ws: seq<nat>, at: seq<nat>, m: nat, n: nat)
    requires n <= |ws| && n <= |at| && forall i :: 0 <= i < n ==> at[i] < m
    ensures Sum(Loads(ws, at, m, n)) == Sum(ws[..n])
  {
    if n == 0 {
      ZeroSum(Loads(ws, at, m, 0));
    } else {
      LoadsSumToAll(ws, at, m, n - 1);
      var before, t := Loads(ws, at, m, n - 1), at[n - 1];
      SumBump(before, t, ws[n - 1]);
      assert Loads(ws, at, m, n) == before[t := before[t] + ws[n - 1]];
      assert ws[..n][..n - 1] == ws[..n - 1];
    }
  }

  lemma {:induction false} ZeroSum(s: seq<nat>)
    requires forall i :: 0 <= i < |s| ==> s[i] == 0
    ensures Sum(s) == 0
  {
    if s != [] {
      ZeroSum(s[..|s| - 1]);
    }
  }

  function Without<T>(s: seq<T>, j: nat): (rest: seq<T>)
    requires j < |s|
    ensures |rest| == |s| - 1
    ensures multiset(rest) == multiset(s) - multiset{s[j]}
  {
    assert s == s[..j] + [s[j]] + s[j + 1..];
    s[..j] + s[j + 1..]
  }

  lemma {:induction false} TotalOfPermutation<T>(a: seq<Item<T>>, b: seq<Item<T>>)
    requires multiset(a) == multiset(b)
    ensures Total(a) == Total(b)
  {
    assert |multiset(a)| == |multiset(b)|;
    if a != [] {
      var last := |a| - 1;
      assert a[last] in multiset(b);
      var j :| 0 <= j < |b| && b[j] == a[last];
      TotalOfPermutation(Without(a, last), Without(b, j));
      TotalWithout(a, last);
      TotalWithout(b, j);
    }
  }

  lemma TotalWithout<T>(b: seq<Item<T>>, j: nat)
    requires j < |b|
    ensures Total(b) == Total(Without(b, j)) + b[j].weight
  {
    assert b == b[..j] + ([b[j]] + b[j + 1..]);
    TotalConcat(b[..j], [b[j]] + b[j + 1..]);
    TotalConcat([b[j]], b[j + 1..]);
    TotalOfFront([b[j]]);
    TotalConcat(b[..j], b[j + 1..]);
  }

  lemma {:induction false} TotalConcat<T>(a: seq<Item<T>>, b: seq<Item<T>>)
    ensures Total(a + b) == Total(a) + Total(b)
  {
    if b == [] {
      assert a + b == a;
    } else {
      TotalConcat(a, b[..|b| - 1]);
      TotalOfFront(b);
      TotalOfFront(a + b);
      assert (a + b)[..|a + b| - 1] == a + b[..|b| - 1];
    }
  }

  lemma TotalOfFront<T>(b: seq<Item<T>>)
    requires b != []
    ensures Total(b) == Total(b[..|b| - 1]) + b[|b| - 1].weight
  {
    assert Weights(b)[..|b| - 1] == Weights(b[..|b| - 1]);
  }
}
