/** How good the shard plans of `Sharding` are: Graham's bounds against every other
    way of filling the same number of bins, balance, and conservation. */
module LptBounds {
  import opened Counting
  import opened StableSort
  import opened Sharding

  ghost predicate Descending(ws: seq<nat>) {
    forall i, j :: 0 <= i < j < |ws| ==> ws[i] >= ws[j]
  }

  /** `other` puts the first `n` weights into `m` bins, none heavier than `opt`. */
  ghost predicate FitsIn(ws: seq<nat>, other: seq<nat>, m: nat, n: nat, opt: nat) {
    && n <= |ws| && n <= |other|
    && (forall i :: 0 <= i < n ==> other[i] < m)
    && (forall c: nat :: c < m ==> Load(ws, other, c, n) <= opt)
  }

  lemma FitsInPrefix(ws: seq<nat>, other: seq<nat>, m: nat, n: nat, opt: nat)
    requires n > 0 && FitsIn(ws, other, m, n, opt)
    ensures FitsIn(ws, other, m, n - 1, opt)
    ensures ws[n - 1] <= opt
  {
    var k := n - 1;
    forall c: nat | c < m ensures Load(ws, other, c, k) <= opt {
      assert Load(ws, other, c, n) <= opt;
    }
    assert Load(ws, other, other[n - 1], n) <= opt;
  }

  lemma {:induction false} SumAtLeast(s: seq<nat>, low: nat)
    requires forall i :: 0 <= i < |s| ==> low <= s[i]
    ensures |s| * low <= Sum(s)
  {
    if s != [] {
      SumAtLeast(s[..|s| - 1], low);
      assert |s| * low == (|s| - 1) * low + low;
    }
  }

  lemma {:induction false} SumAtMost(s: seq<nat>, high: nat)
    requires forall i :: 0 <= i < |s| ==> s[i] <= high
    ensures Sum(s) <= |s| * high
  {
    if s != [] {
      SumAtMost(s[..|s| - 1], high);
      assert |s| * high == (|s| - 1) * high + high;
    }
  }

  // ------------------------------------------------------------ one placement

  /** The lightest bin is at most average, so `m * lightest + w` fits in `m * opt`. */
  lemma AverageStep(ws: seq<nat>, at: seq<nat>, m: nat, other: seq<nat>, opt: nat, k: nat)
    requires m >= 1 && IsGreedy(ws, at, m) && k < |ws| && FitsIn(ws, other, m, k + 1, opt)
    ensures m * Load(ws, at, at[k], k) + ws[k] <= m * opt
  {
    LightestIsAverage(ws, at, m, k);
    RivalHoldsAll(ws, other, m, opt, k + 1);
    assert ws[..k + 1][..k] == ws[..k];
  }

  lemma LightestIsAverage(ws: seq<nat>, at: seq<nat>, m: nat, k: nat)
    requires m >= 1 && IsGreedy(ws, at, m) && k < |ws|
    ensures m * Load(ws, at, at[k], k) <= Sum(ws[..k])
  {
    GreedyInRange(ws, at, m);
    LoadsSumToAll(ws, at, m, k);
    assert PlacedOnLightest(ws, at, m, k);
    SumAtLeast(Loads(ws, at, m, k), Load(ws, at, at[k], k));
  }

  lemma RivalHoldsAll(ws: seq<nat>, other: seq<nat>, m: nat, opt: nat, n: nat)
    requires n <= |ws| && FitsIn(ws, other, m, n, opt)
    ensures Sum(ws[..n]) <= m * opt
  {
    LoadsSumToAll(ws, other, m, n);
    SumAtMost(Loads(ws, other, m, n), opt);
  }

  lemma GreedyInRange(ws: seq<nat>, at: seq<nat>, m: nat)
    requires IsGreedy(ws, at, m)
    ensures forall i :: 0 <= i < |at| ==> at[i] < m
  {
    forall i | 0 <= i < |at| ensures at[i] < m {
      assert PlacedOnLightest(ws, at, m, i);
    }
  }

  /** A job too heavy to share a bin of the rival with a job of weight `w` scores 2. */
  function Scores(ws: seq<nat>, w: nat, opt: nat): seq<nat> {
    seq(|ws|, i requires 0 <= i < |ws| => if ws[i] + w > opt then 2 else 1)
  }

  lemma {:induction false} BusyBinScoresTwo(ws: seq<nat>, at: seq<nat>, b: nat, n: nat, w: nat, opt: nat)
    requires n <= |ws| && n <= |at| && w <= opt
    ensures Load(Scores(ws, w, opt), at, b, n) == 0 ==> Load(ws, at, b, n) == 0
    ensures Load(Scores(ws, w, opt), at, b, n) == 1 ==> Load(ws, at, b, n) + w <= opt
  {
    if n > 0 {
      BusyBinScoresTwo(ws, at, b, n - 1, w, opt);
    }
  }

  lemma {:induction false} RivalBinScoresAtMostTwo(ws: seq<nat>, at: seq<nat>, b: nat, n: nat, w: nat, opt: nat)
    requires n <= |ws| && n <= |at| && w <= opt < 3 * w
    requires forall i :: 0 <= i < n ==> w <= ws[i]
    ensures Load(Scores(ws, w, opt), at, b, n) >= 1 ==> Load(ws, at, b, n) >= w
    ensures Load(Scores(ws, w, opt), at, b, n) >= 2 ==> Load(ws, at, b, n) + w > opt
    ensures Load(Scores(ws, w, opt), at, b, n) >= 3 ==> Load(ws, at, b, n) > opt
  {
    if n > 0 {
      RivalBinScoresAtMostTwo(ws, at, b, n - 1, w, opt);
    }
  }

  /** When a third of `opt` is less than the lightest job, greedy placement is optimal:
      otherwise its bins score at least 2m + 1 where the rival's score at most 2m. */
  lemma HeavyStep(ws: seq<nat>, at: seq<nat>, m: nat, other: seq<nat>, opt: nat, k: nat)
    requires m >= 1 && IsGreedy(ws, at, m) && k < |ws| && FitsIn(ws, other, m, k + 1, opt)
    requires forall i :: 0 <= i < k ==> ws[k] <= ws[i]
    requires opt < 3 * ws[k]
    ensures Load(ws, at, at[k], k) + ws[k] <= opt
  {
    var w := ws[k];
    FitsInPrefix(ws, other, m, k + 1, opt);
    if Load(ws, at, at[k], k) + w > opt {
      GreedyScores(ws, at, m, opt, k);
      RivalScores(ws, other, m, opt, k);
      OneScoreMore(Scores(ws, w, opt), k);
      assert false;
    }
  }

  lemma OneScoreMore(sc: seq<nat>, k: nat)
    requires k < |sc| && sc[k] >= 1
    ensures Sum(sc[..k]) < Sum(sc[..k + 1])
  {
    assert sc[..k + 1][..k] == sc[..k];
  }

  lemma GreedyScores(ws: seq<nat>, at: seq<nat>, m: nat, opt: nat, k: nat)
    requires m >= 1 && IsGreedy(ws, at, m) && k < |ws| && ws[k] <= opt
    requires Load(ws, at, at[k], k) + ws[k] > opt
    ensures m * 2 <= Sum(Scores(ws, ws[k], opt)[..k])
  {
    var scores := Loads(Scores(ws, ws[k], opt), at, m, k);
    GreedyInRange(ws, at, m);
    LoadsSumToAll(Scores(ws, ws[k], opt), at, m, k);
    forall c: nat | c < m ensures scores[c] >= 2 {
      assert PlacedOnLightest(ws, at, m, k);
      BusyBinScoresTwo(ws, at, c, k, ws[k], opt);
    }
    SumAtLeast(scores, 2);
  }

  lemma RivalScores(ws: seq<nat>, other: seq<nat>, m: nat, opt: nat, k: nat)
    requires k < |ws| && FitsIn(ws, other, m, k + 1, opt) && ws[k] <= opt < 3 * ws[k]
    requires forall i :: 0 <= i < k ==> ws[k] <= ws[i]
    ensures Sum(Scores(ws, ws[k], opt)[..k + 1]) <= m * 2
  {
    var scores := Loads(Scores(ws, ws[k], opt), other, m, k + 1);
    LoadsSumToAll(Scores(ws, ws[k], opt), other, m, k + 1);
    forall c: nat | c < m ensures scores[c] <= 2 {
      RivalBinScoresAtMostTwo(ws, other, c, k + 1, ws[k], opt);
    }
    SumAtMost(scores, 2);
  }

  // ------------------------------------------------------------ Graham's bounds

  /** A load of at most 4/3 - 1/(3m) times `opt`. */
  ghost predicate WithinGraham(load: nat, m: nat, opt: nat) {
    3 * m * load <= (4 * m - 1) * opt
  }

  /** List scheduling in any order whatever: within 2 - 1/m of every other placement. */
  lemma {:induction false} ListSchedulingBound(ws: seq<nat>, m: nat, other: seq<nat>, opt: nat, b: nat, n: nat)
    requires m >= 1 && FitsIn(ws, other, m, n, opt)
    ensures m * Load(ws, Greedy(ws, m), b, n) <= (2 * m - 1) * opt
  {
    var at := Greedy(ws, m);
    if n > 0 {
      GreedyIsGreedy(ws, m);
      FitsInPrefix(ws, other, m, n, opt);
      ListSchedulingBound(ws, m, other, opt, b, n - 1);
      if at[n - 1] == b {
        AverageStep(ws, at, m, other, opt, n - 1);
        ListArithmetic(m, Load(ws, at, b, n - 1), ws[n - 1], opt);
      }
    } else {
      ListArithmetic(m, 0, 0, opt);
    }
  }

  /** Heaviest first: within 4/3 - 1/(3m). */
  lemma {:induction false} HeaviestFirstBound(ws: seq<nat>, m: nat, other: seq<nat>, opt: nat, b: nat, n: nat)
    requires m >= 1 && Descending(ws) && FitsIn(ws, other, m, n, opt)
    ensures WithinGraham(Load(ws, Greedy(ws, m), b, n), m, opt)
  {
    var at := Greedy(ws, m);
    if n > 0 {
      GreedyIsGreedy(ws, m);
      HeaviestFirstBound(ws, m, other, opt, b, n - 1) by { FitsInPrefix(ws, other, m, n, opt); }
      if at[n - 1] == b {
        GrahamStep(ws, at, m, other, opt, n - 1);
      }
    } else {
      GrahamArithmetic(m, 0, 0, opt);
    }
  }

  lemma GrahamStep(ws: seq<nat>, at: seq<nat>, m: nat, other: seq<nat>, opt: nat, k: nat)
    requires m >= 1 && Descending(ws) && IsGreedy(ws, at, m) && k < |ws| && FitsIn(ws, other, m, k + 1, opt)
    ensures WithinGraham(Load(ws, at, at[k], k) + ws[k], m, opt)
  {
    var light, w := Load(ws, at, at[k], k), ws[k];
    if opt < 3 * w {
      HeavyStep(ws, at, m, other, opt, k);
      OptimalArithmetic(m, light + w, opt);
    } else {
      AverageStep(ws, at, m, other, opt, k);
      GrahamArithmetic(m, light, w, opt);
    }
  }

  lemma ListArithmetic(m: nat, light: nat, w: nat, opt: nat)
    requires m >= 1 && m * light + w <= m * opt && w <= opt
    ensures m * (light + w) <= (2 * m - 1) * opt
  {
    assert m * (light + w) == (m * light + w) + (m - 1) * w;
    assert (m - 1) * w <= (m - 1) * opt;
    assert m * opt + (m - 1) * opt == (2 * m - 1) * opt;
  }

  lemma GrahamArithmetic(m: nat, light: nat, w: nat, opt: nat)
    requires m >= 1 && m * light + w <= m * opt && 3 * w <= opt
    ensures WithinGraham(light + w, m, opt)
  {
    assert 3 * m * (light + w) == 3 * (m * light + w) + (m - 1) * (3 * w);
    assert (m - 1) * (3 * w) <= (m - 1) * opt;
    assert 3 * (m * opt) + (m - 1) * opt == (4 * m - 1) * opt;
  }

  lemma OptimalArithmetic(m: nat, load: nat, opt: nat)
    requires m >= 1 && load <= opt
    ensures WithinGraham(load, m, opt)
  {
    assert 3 * m * load <= 3 * m * opt;
    assert (4 * m - 1) * opt == 3 * m * opt + (m - 1) * opt;
  }

  // ------------------------------------------------------------ the plans

  ghost function Contents<T>(bins: seq<seq<Item<T>>>): multiset<Item<T>> {
    if bins == [] then multiset{} else Contents(bins[..|bins| - 1]) + multiset(bins[|bins| - 1])
  }

  lemma {:induction false} ContentsUpdate<T>(bins: seq<seq<Item<T>>>, c: nat, bin: seq<Item<T>>)
    requires c < |bins|
    ensures Contents(bins[c := bin]) + multiset(bins[c]) == Contents(bins) + multiset(bin)
  {
    var last := |bins| - 1;
    if c < last {
      ContentsUpdate(bins[..last], c, bin);
      assert bins[c := bin][..last] == bins[..last][c := bin];
      var rest, kept := Contents(bins[..last]), multiset(bins[last]);
      assert Contents(bins[c := bin]) == Contents(bins[..last][c := bin]) + kept;
      assert (rest + multiset(bin)) + kept == (rest + kept) + multiset(bin);
      assert Contents(bins[c := bin]) + multiset(bins[c])
        == (Contents(bins[..last][c := bin]) + multiset(bins[..last][c])) + kept;
    } else {
      assert bins[c := bin][..last] == bins[..last];
    }
  }

  lemma {:induction false} ContentsMember<T>(bins: seq<seq<Item<T>>>, x: Item<T>) returns (c: nat, j: nat)
    requires x in Contents(bins)
    ensures c < |bins| && j < |bins[c]| && bins[c][j] == x
  {
    var last := |bins| - 1;
    if x in bins[last] {
      c := last;
      j :| 0 <= j < |bins[last]| && bins[last][j] == x;
    } else {
      c, j := ContentsMember(bins[..last], x);
    }
  }

  /** Any filling of the bins is some placement of the items in the given order. */
  lemma {:induction false} PlacementOf<T>(items: seq<Item<T>>, bins: seq<seq<Item<T>>>) returns (at: seq<nat>)
    requires Contents(bins) == multiset(items)
    ensures |at| == |items| && forall i :: 0 <= i < |at| ==> at[i] < |bins|
    ensures forall c: nat :: c < |bins| ==> Load(Weights(items), at, c, |items|) == Total(bins[c])
  {
    if items == [] {
      at := [];
      forall c: nat | c < |bins| ensures bins[c] == [] {
        EmptyContents(bins, c);
      }
    } else {
      var n := |items| - 1;
      var c, smaller := RemoveLast(items, bins);
      var before := PlacementOf(items[..n], smaller);
      at := before + [c];
      forall d: nat | d < |bins| ensures Load(Weights(items), at, d, |items|) == Total(bins[d]) {
        LoadFrame(Weights(items), at, Weights(items[..n]), before, d, n);
        assert Load(Weights(items[..n]), before, d, n) == Total(smaller[d]);
      }
    }
  }

  lemma RemoveLast<T>(items: seq<Item<T>>, bins: seq<seq<Item<T>>>) returns (c: nat, smaller: seq<seq<Item<T>>>)
    requires items != [] && Contents(bins) == multiset(items)
    ensures c < |bins| == |smaller| && Contents(smaller) == multiset(items[..|items| - 1])
    ensures Total(bins[c]) == Total(smaller[c]) + items[|items| - 1].weight
    ensures forall d :: 0 <= d < |bins| && d != c ==> smaller[d] == bins[d]
  {
    var n := |items| - 1;
    var x := items[n];
    assert items == items[..n] + [x];
    var j;
    c, j := ContentsMember(bins, x);
    var rest := Without(bins[c], j);
    smaller := bins[c := rest];
    TotalWithout(bins[c], j);
    ContentsUpdate(bins, c, rest);
    TakeAway(Contents(bins), Contents(smaller), multiset(items[..n]), multiset(bins[c]), multiset(rest), multiset{x});
  }

  /** Replacing a part by what is left of it takes the difference out of the whole. */
  lemma TakeAway<T>(whole: multiset<T>, less: multiset<T>, most: multiset<T>, part: multiset<T>, rest: multiset<T>,
      x: multiset<T>)
    requires less + part == whole + rest && part == rest + x && whole == most + x
    ensures less == most
  {
    assert less + part == most + part;
    Cancel(less, most, part);
  }

  lemma Cancel<T>(a: multiset<T>, b: multiset<T>, x: multiset<T>)
    requires a + x == b + x
    ensures a == b
  {
    forall y ensures a[y] == b[y] {
      assert (a + x)[y] == (b + x)[y];
    }
  }

  lemma {:induction false} EmptyContents<T>(bins: seq<seq<Item<T>>>, c: nat)
    requires Contents(bins) == multiset{} && c < |bins|
    ensures bins[c] == []
  {
    var last := |bins| - 1;
    assert multiset(bins[last]) <= Contents(bins) && Contents(bins[..last]) <= Contents(bins);
    assert |multiset(bins[last])| == 0;
    if c < last {
      EmptyContents(bins[..last], c);
    }
  }

  /** Within 4/3 - 1/(3m) of every other way to fill `m` bins with the same items. */
  lemma GreedyBinsWithinGraham<T(!new)>(items: seq<Item<T>>, m: nat, other: seq<seq<Item<T>>>, opt: nat, b: nat)
    requires m >= 1 && |other| == m && Contents(other) == multiset(items)
    requires forall c :: 0 <= c < m ==> Total(other[c]) <= opt
    requires b < m
    ensures WithinGraham(Total(GreedyBins(items, m)[b]), m, opt)
  {
    var sorted := HeaviestFirst(items);
    var ws := Weights(sorted);
    SortPermutes(items, HeavierFirst);
    HeaviestFirstDescends(items);
    var at := PlacementOf(sorted, other);
    HeaviestFirstBound(ws, m, at, opt, b, |ws|);
    BinWeighsItsLoad(sorted, Greedy(ws, m), b, |ws|);
  }

  /** The bound for `lpt_shards`, its single-bucket shortcut included. */
  lemma LptWithinGraham(weights: seq<Item<string>>, shardCount: int, other: seq<seq<Item<string>>>, opt: nat, b: nat)
    requires |other| == (if shardCount > 1 then shardCount else 1) && Contents(other) == multiset(weights)
    requires forall c :: 0 <= c < |other| ==> Total(other[c]) <= opt
    requires b < |LptBins(weights, shardCount)|
    ensures WithinGraham(Total(LptBins(weights, shardCount)[b]), |other|, opt)
    ensures 2 * Total(LptBins(weights, shardCount)[b]) <= 3 * opt
  {
    if shardCount <= 1 || |weights| <= 1 {
      SingleBucketFits(weights, other, opt);
      OptimalArithmetic(|other|, Total(weights), opt);
      SingleBucket(weights, shardCount);
    } else {
      GreedyBinsWithinGraham(weights, shardCount, other, opt, b);
    }
    ThreeHalves(|other|, Total(LptBins(weights, shardCount)[b]), opt);
  }

  lemma SingleBucket(weights: seq<Item<string>>, shardCount: int)
    requires shardCount <= 1 || |weights| <= 1
    ensures |LptBins(weights, shardCount)| == 1 && Total(LptBins(weights, shardCount)[0]) == Total(weights)
  {
    SortPermutes(weights, ByName);
    TotalOfPermutation(Sort(weights, ByName), weights);
  }

  lemma SingleBucketFits(weights: seq<Item<string>>, other: seq<seq<Item<string>>>, opt: nat)
    requires |other| >= 1 && Contents(other) == multiset(weights)
    requires |other| == 1 || |weights| <= 1
    requires forall c :: 0 <= c < |other| ==> Total(other[c]) <= opt
    ensures Total(weights) <= opt
  {
    if |other| == 1 {
      assert Contents(other[..0]) == multiset{};
      TotalOfPermutation(other[0], weights);
    } else if |weights| == 1 {
      assert weights[0] in multiset(weights);
      var c, j := ContentsMember(other, weights[0]);
      TotalWithout(other[c], j);
      TotalWithout(weights, 0);
    }
  }

  lemma ThreeHalves(m: nat, load: nat, opt: nat)
    requires m >= 1 && WithinGraham(load, m, opt)
    ensures 2 * load <= 3 * opt
  {}

  // ------------------------------------------------------------ the bound is reached

  /** The weights 2m - 1, 2m - 1, 2m - 2, 2m - 2, ..., m + 1, m + 1, m, m, m. */
  function TightWeight(m: nat, i: nat): nat
    requires m >= 1 && i <= 2 * m
  {
    if i == 2 * m then m else 2 * m - 1 - i / 2
  }

  function TightWeights(m: nat): seq<nat>
    requires m >= 1
  {
    seq(2 * m + 1, i requires 0 <= i <= 2 * m => TightWeight(m, i))
  }

  /** Where they go: one to each bin, then the second ones backwards, so that all bins are equal
      when the last one comes. */
  function TightBin(m: nat, i: nat): nat
    requires m >= 1 && i <= 2 * m
  {
    if i < m then i
    else if i == 2 * m then 0
    else if i == m && m % 2 == 1 then m - 1
    else 2 * (m - 1 - i / 2) + i % 2
  }

  function TightBins(m: nat): seq<nat>
    requires m >= 1
  {
    seq(2 * m + 1, i requires 0 <= i <= 2 * m => TightBin(m, i))
  }

  /** The second job of a bin. */
  function Second(m: nat, b: nat): nat
    requires b < m
  {
    if b == m - 1 && m % 2 == 1 then m else 2 * (m - 1 - b / 2) + b % 2
  }

  lemma SecondIs(m: nat, b: nat, i: nat)
    requires b < m <= i < 2 * m
    ensures TightBin(m, i) == b <==> i == Second(m, b)
    ensures i == Second(m, b) ==> TightWeight(m, b) + TightWeight(m, i) == 3 * m - 1
  {
    Mirrored(m, b / 2, b % 2, i / 2, i % 2);
  }

  /** In halves: the job 2q + r goes to the bin 2p + t. */
  lemma Mirrored(m: int, p: int, t: int, q: int, r: int)
    requires 0 <= t <= 1 && 0 <= r <= 1
    ensures 2 * (m - 1 - q) + r == 2 * p + t <==> p + q == m - 1 && r == t
    ensures 2 * (m - 1 - p) + t == 2 * q + r <==> p + q == m - 1 && r == t
  {
    if r != t {
      assert 2 * (m - 1 - q - p) != t - r && 2 * (m - 1 - q - p) != r - t;
    }
  }

  function TightLoad(m: nat, b: nat, n: nat): nat
    requires b < m && n <= 2 * m
  {
    if n <= b then 0 else if n <= Second(m, b) then TightWeight(m, b) else 3 * m - 1
  }

  lemma SecondIsLate(m: nat, b: nat)
    requires b < m
    ensures m <= Second(m, b) < 2 * m
  {}

  lemma {:induction false} TightLoads(m: nat, b: nat, n: nat)
    requires b < m && n <= 2 * m
    ensures Load(TightWeights(m), TightBins(m), b, n) == TightLoad(m, b, n)
  {
    SecondIsLate(m, b);
    if n > 0 {
      TightLoads(m, b, n - 1);
      if m < n {
        SecondIs(m, b, n - 1);
      } else if n == m + 1 {
        SecondIs(m, b, m);
      }
    }
  }

  lemma TightIsLightest(m: nat, n: nat, c: nat)
    requires m >= 1 && n < 2 * m && c < m && TightBin(m, n) < m
    ensures TightLoad(m, TightBin(m, n), n) <= TightLoad(m, c, n)
    ensures c < TightBin(m, n) ==> TightLoad(m, TightBin(m, n), n) < TightLoad(m, c, n)
  {}

  lemma TightBinInRange(m: nat, n: nat)
    requires m >= 1 && n <= 2 * m
    ensures TightBin(m, n) < m
  {}

  lemma TightIsPlaced(m: nat, n: nat)
    requires m >= 1 && n <= 2 * m
    ensures PlacedOnLightest(TightWeights(m), TightBins(m), m, n)
  {
    TightBinInRange(m, n);
    forall c: nat | c < m
      ensures Load(TightWeights(m), TightBins(m), c, n) == TightLoad(m, c, n)
      ensures n < 2 * m ==> TightLoad(m, TightBin(m, n), n) <= TightLoad(m, c, n)
      ensures n < 2 * m && c < TightBin(m, n) ==> TightLoad(m, TightBin(m, n), n) < TightLoad(m, c, n)
      ensures n == 2 * m ==> TightLoad(m, c, n) == 3 * m - 1
    {
      TightLoads(m, c, n);
      SecondIsLate(m, c);
      if n < 2 * m {
        TightIsLightest(m, n, c);
      }
    }
  }

  lemma TightIsGreedy(m: nat)
    requires m >= 1
    ensures Greedy(TightWeights(m), m) == TightBins(m)
  {
    var ws, at := TightWeights(m), TightBins(m);
    forall n: nat | n < |ws| ensures PlacedOnLightest(ws, at, m, n) {
      TightIsPlaced(m, n);
    }
    GreedyIsGreedy(ws, m);
    GreedyUnique(ws, Greedy(ws, m), at, m, |ws|);
  }

  /** A better placement: the three lightest together, the others heaviest with lightest. */
  function RivalBin(m: nat, i: nat): nat
    requires m >= 1 && i <= 2 * m
  {
    if i >= 2 * m - 2 then m - 1 else if i < m - 1 then i else 2 * m - 3 - i
  }

  function RivalBins(m: nat): seq<nat>
    requires m >= 1
  {
    seq(2 * m + 1, i requires 0 <= i <= 2 * m => RivalBin(m, i))
  }

  function RivalLoad(m: nat, b: nat, n: nat): nat
    requires b < m && n <= 2 * m + 1
  {
    if b < m - 1 then if n <= b then 0 else if n <= 2 * m - 3 - b then TightWeight(m, b) else 3 * m
    else if n <= 2 * m - 2 then 0
    else if n == 2 * m - 1 then m
    else if n == 2 * m then 2 * m
    else 3 * m
  }

  lemma {:induction false} RivalLoads(m: nat, b: nat, n: nat)
    requires b < m && n <= 2 * m + 1
    ensures Load(TightWeights(m), RivalBins(m), b, n) == RivalLoad(m, b, n)
  {
    if n > 0 {
      RivalLoads(m, b, n - 1);
      assert b < m - 1 ==> TightWeight(m, b) + TightWeight(m, 2 * m - 3 - b) == 3 * m;
    }
  }

  /** The bound is reached by every number of shards: on these weights, heaviest first, the first
      shard gets 4m - 1 where every shard of the rival holds 3m. */
  lemma GrahamIsTight(m: nat)
    requires m >= 1
    ensures
      var ws := TightWeights(m);
      && (forall i, j :: 0 <= i <= j < |ws| ==> ws[j] <= ws[i])
      && Load(ws, Greedy(ws, m), 0, |ws|) == 4 * m - 1
      && (forall b :: 0 <= b < m ==> Load(ws, RivalBins(m), b, |ws|) == 3 * m)
      && 3 * m * Load(ws, Greedy(ws, m), 0, |ws|) == (4 * m - 1) * Load(ws, RivalBins(m), 0, |ws|)
  {
    var ws := TightWeights(m);
    TightIsGreedy(m);
    TightFirstLoad(m);
    RivalIsEven(m);
    JustReached(m, Load(ws, TightBins(m), 0, |ws|), Load(ws, RivalBins(m), 0, |ws|));
  }

  lemma TightFirstLoad(m: nat)
    requires m >= 1
    ensures Load(TightWeights(m), TightBins(m), 0, 2 * m + 1) == 4 * m - 1
  {
    TightLoads(m, 0, 2 * m);
    SecondIsLate(m, 0);
  }

  lemma RivalIsEven(m: nat)
    requires m >= 1
    ensures
      var ws := TightWeights(m);
      forall b :: 0 <= b < m ==> Load(ws, RivalBins(m), b, |ws|) == 3 * m
  {
    var ws, n := TightWeights(m), 2 * m + 1;
    forall b: nat | b < m ensures Load(ws, RivalBins(m), b, n) == 3 * m {
      RivalLoads(m, b, n);
    }
  }

  lemma JustReached(m: nat, load: nat, opt: nat)
    requires load == 4 * m - 1 && opt == 3 * m
    ensures 3 * m * load == (4 * m - 1) * opt
  {}

  /** Nothing is lost, duplicated or moved between plans. */
  lemma LptPartitions(weights: seq<Item<string>>, shardCount: int)
    ensures Contents(LptBins(weights, shardCount)) == multiset(weights)
    ensures Contents(DropEmpty(LptBins(weights, shardCount))) == multiset(weights)
  {
    var bins := LptBins(weights, shardCount);
    if shardCount <= 1 || |weights| <= 1 {
      SortPermutes(weights, ByName);
      assert bins[..0] == [];
    } else {
      GreedyPartitions(weights, shardCount);
    }
    DropEmptyKeeps(bins);
  }

  lemma GreedyPartitions<T>(items: seq<Item<T>>, m: nat)
    requires m >= 1
    ensures Contents(GreedyBins(items, m)) == multiset(items)
  {
    var sorted := HeaviestFirst(items);
    var ws := Weights(sorted);
    GreedyIsGreedy(ws, m);
    GreedyInRange(ws, Greedy(ws, m), m);
    BinsPartition(sorted, Greedy(ws, m), m, |sorted|);
    assert sorted[..|sorted|] == sorted;
    SortPermutes(items, HeavierFirst);
  }

  function Bins<T>(items: seq<Item<T>>, at: seq<nat>, m: nat, n: nat): seq<seq<Item<T>>>
    requires n <= |items| && n <= |at|
  {
    seq(m, b requires 0 <= b < m => Bin(items, at, b, n))
  }

  lemma {:induction false} BinsPartition<T>(items: seq<Item<T>>, at: seq<nat>, m: nat, n: nat)
    requires n <= |items| && n <= |at| && forall i :: 0 <= i < n ==> at[i] < m
    ensures Contents(Bins(items, at, m, n)) == multiset(items[..n])
  {
    if n == 0 {
      NothingPlaced<T>(Bins(items, at, m, 0));
      assert items[..n] == [];
    } else {
      var k := n - 1;
      BinsPartition(items, at, m, k);
      BinsStep(items, at, m, n);
      PrefixGrows(items, n);
      calc {
        Contents(Bins(items, at, m, n));
        Contents(Bins(items, at, m, k)) + multiset{items[k]};
        multiset(items[..k]) + multiset{items[k]};
        multiset(items[..n]);
      }
    }
  }

  lemma PrefixGrows<T>(items: seq<T>, n: nat)
    requires 0 < n <= |items|
    ensures multiset(items[..n]) == multiset(items[..n - 1]) + multiset{items[n - 1]}
  {
    assert items[..n] == items[..n - 1] + [items[n - 1]];
  }

  lemma ContentsGrow<T>(bins: seq<seq<Item<T>>>, t: nat, x: Item<T>)
    requires t < |bins|
    ensures Contents(bins[t := bins[t] + [x]]) == Contents(bins) + multiset{x}
  {
    var bin := bins[t] + [x];
    ContentsUpdate(bins, t, bin);
    assert multiset(bin) == multiset{x} + multiset(bins[t]);
    assert Contents(bins[t := bin]) + multiset(bins[t]) == (Contents(bins) + multiset{x}) + multiset(bins[t]);
    Cancel(Contents(bins[t := bin]), Contents(bins) + multiset{x}, multiset(bins[t]));
  }

  lemma BinsStep<T>(items: seq<Item<T>>, at: seq<nat>, m: nat, n: nat)
    requires 0 < n <= |items| && n <= |at| && at[n - 1] < m
    ensures Contents(Bins(items, at, m, n)) == Contents(Bins(items, at, m, n - 1)) + multiset{items[n - 1]}
  {
    var before, t, x := Bins(items, at, m, n - 1), at[n - 1], items[n - 1];
    forall c: nat | c < m && c != t ensures Bin(items, at, c, n) == before[c] {
      assert before[c] + [] == before[c];
    }
    assert Bins(items, at, m, n) == before[t := before[t] + [x]];
    ContentsGrow(before, t, x);
  }

  lemma {:induction false} NothingPlaced<T>(bins: seq<seq<Item<T>>>)
    requires forall b :: 0 <= b < |bins| ==> bins[b] == []
    ensures Contents(bins) == multiset{}
  {
    if bins != [] {
      NothingPlaced(bins[..|bins| - 1]);
    }
  }

  lemma {:induction false} DropEmptyKeeps<T>(bins: seq<seq<Item<T>>>)
    ensures Contents(DropEmpty(bins)) == Contents(bins)
  {
    if bins != [] {
      var front, last := bins[..|bins| - 1], bins[|bins| - 1];
      DropEmptyKeeps(front);
      assert bins == front + [last];
      DropEmptyAppend(front, last);
      ContentsAppend(DropEmpty(front), last);
      assert DropEmpty(front) + [] == DropEmpty(front);
    }
  }

  lemma ContentsAppend<T>(bins: seq<seq<Item<T>>>, bin: seq<Item<T>>)
    ensures Contents(bins + [bin]) == Contents(bins) + multiset(bin)
  {
    assert (bins + [bin])[..|bins|] == bins;
  }

  lemma {:induction false} LastLoadBalances<T>(items: seq<Item<T>>, at: seq<nat>, m: nat, b: nat, c: nat, n: nat)
    requires IsGreedy(Weights(items), at, m) && n <= |items| && b < m && c < m
    requires Bin(items, at, b, n) != []
    ensures
      var bin := Bin(items, at, b, n);
      Load(Weights(items), at, b, n) <= Load(Weights(items), at, c, n) + bin[|bin| - 1].weight
  {
    if at[n - 1] == b {
      assert PlacedOnLightest(Weights(items), at, m, n - 1);
    } else {
      LastLoadBalances(items, at, m, b, c, n - 1);
      assert Bin(items, at, b, n) == Bin(items, at, b, n - 1);
    }
  }

  /** Taking its last module away leaves no shard heavier than any other. */
  lemma LastPlacedBalances<T>(items: seq<Item<T>>, at: seq<nat>, m: nat, b: nat, c: nat, n: nat)
    requires IsGreedy(Weights(items), at, m) && n <= |items| && b < m && c < m
    requires Bin(items, at, b, n) != []
    ensures
      var bin := Bin(items, at, b, n);
      Total(bin) <= Load(Weights(items), at, c, n) + bin[|bin| - 1].weight
  {
    LastLoadBalances(items, at, m, b, c, n);
    BinWeighsItsLoad(items, at, b, n);
  }

  /** The last module of a bin is its lightest. */
  lemma {:induction false} LastPlacedIsLightest<T>(items: seq<Item<T>>, at: seq<nat>, b: nat, n: nat)
    requires n <= |items| && n <= |at| && Descending(Weights(items))
    ensures
      var bin := Bin(items, at, b, n);
      && (bin != [] ==> forall i :: 0 <= i < |bin| ==> bin[|bin| - 1].weight <= bin[i].weight)
      && forall i :: 0 <= i < |bin| ==> bin[i] in items[..n]
  {
    if n > 0 {
      LastPlacedIsLightest(items, at, b, n - 1);
      var before, bin := Bin(items, at, b, n - 1), Bin(items, at, b, n);
      assert items[..n] == items[..n - 1] + [items[n - 1]];
      forall x | x in items[..n - 1] ensures x.weight >= items[n - 1].weight {
        var i :| 0 <= i < n - 1 && items[i] == x;
        assert Weights(items)[i] >= Weights(items)[n - 1];
      }
    }
  }

  lemma GreedyBinsBalanced<T(!new)>(items: seq<Item<T>>, m: nat, b: nat, c: nat)
    requires m >= 1 && b < m && c < m
    requires GreedyBins(items, m)[b] != []
    ensures
      var bins := GreedyBins(items, m);
      var last := bins[b][|bins[b]| - 1];
      && Total(bins[b]) - last.weight <= Total(bins[c])
      && forall item :: item in bins[b] ==> last.weight <= item.weight
  {
    var sorted := HeaviestFirst(items);
    var at := Greedy(Weights(sorted), m);
    HeaviestFirstDescends(items);
    GreedyIsGreedy(Weights(sorted), m);
    LastPlacedBalances(sorted, at, m, b, c, |sorted|);
    LastPlacedIsLightest(sorted, at, b, |sorted|);
    BinWeighsItsLoad(sorted, at, c, |sorted|);
  }

  lemma HeaviestFirstDescends<T(!new)>(items: seq<Item<T>>)
    ensures Descending(Weights(HeaviestFirst(items)))
  {
    SortSorts(items, HeavierFirst);
  }

  // ------------------------------------------------------------ no shard stays empty

  function EmptyBins(loads: seq<nat>): nat {
    if loads == [] then 0
    else EmptyBins(loads[..|loads| - 1]) + if loads[|loads| - 1] == 0 then 1 else 0
  }

  lemma {:induction false} EmptyBinsBump(loads: seq<nat>, t: nat, w: nat)
    requires t < |loads| && w >= 1
    ensures EmptyBins(loads[t := loads[t] + w]) == EmptyBins(loads) - if loads[t] == 0 then 1 else 0
  {
    var last := |loads| - 1;
    if t < last {
      EmptyBinsBump(loads[..last], t, w);
      assert loads[t := loads[t] + w][..last] == loads[..last][t := loads[t] + w];
    } else {
      assert loads[t := loads[t] + w][..last] == loads[..last];
    }
  }

  lemma {:induction false} EmptyBinsAll(loads: seq<nat>)
    ensures (forall b :: 0 <= b < |loads| ==> loads[b] == 0) ==> EmptyBins(loads) == |loads|
    ensures EmptyBins(loads) == 0 <==> forall b :: 0 <= b < |loads| ==> loads[b] != 0
  {
    if loads != [] {
      EmptyBinsAll(loads[..|loads| - 1]);
    }
  }

  /** Each positive weight fills one of the bins still empty, as long as there is one. */
  lemma {:induction false} EmptyBinsLeft(ws: seq<nat>, at: seq<nat>, m: nat, n: nat)
    requires IsGreedy(ws, at, m) && n <= |ws|
    requires forall i :: 0 <= i < |ws| ==> ws[i] >= 1
    ensures EmptyBins(Loads(ws, at, m, n)) == if n <= m then m - n else 0
  {
    if n == 0 {
      EmptyBinsAll(Loads(ws, at, m, 0));
    } else {
      var before, t := Loads(ws, at, m, n - 1), at[n - 1];
      EmptyBinsLeft(ws, at, m, n - 1);
      assert PlacedOnLightest(ws, at, m, n - 1);
      assert Loads(ws, at, m, n) == before[t := before[t] + ws[n - 1]];
      FillsOne(before, t, ws[n - 1]);
    }
  }

  lemma FillsOne(loads: seq<nat>, t: nat, w: nat)
    requires t < |loads| && w >= 1 && forall c :: 0 <= c < |loads| ==> loads[t] <= loads[c]
    ensures EmptyBins(loads[t := loads[t] + w]) == if EmptyBins(loads) > 0 then EmptyBins(loads) - 1 else 0
  {
    EmptyBinsBump(loads, t, w);
    EmptyMeansLightest(loads, t);
  }

  lemma EmptyMeansLightest(loads: seq<nat>, t: nat)
    requires t < |loads| && forall c :: 0 <= c < |loads| ==> loads[t] <= loads[c]
    ensures loads[t] == 0 <==> EmptyBins(loads) > 0
  {
    EmptyBinsAll(loads);
  }

  /** With weights of at least 1, exactly the first min(n, m) bins' worth are used. */
  lemma NoShardEmpty<T(!new)>(items: seq<Item<T>>, m: nat, b: nat)
    requires m >= 1 && |items| >= m && b < m
    requires forall item :: item in items ==> item.weight >= 1
    ensures GreedyBins(items, m)[b] != []
  {
    var sorted := HeaviestFirst(items);
    var ws := Weights(sorted);
    var at := Greedy(ws, m);
    SortPermutes(items, HeavierFirst);
    GreedyIsGreedy(ws, m);
    forall i | 0 <= i < |ws| ensures ws[i] >= 1 {
      assert sorted[i] in multiset(items);
    }
    EmptyBinsLeft(ws, at, m, |ws|);
    EmptyBinsAll(Loads(ws, at, m, |ws|));
    assert Loads(ws, at, m, |ws|)[b] != 0;
    BinWeighsItsLoad(sorted, at, b, |sorted|);
  }

  /** The two planners agree: same shards, in the same order, from two bins on. */
  lemma PlannersAgree(items: seq<Item<string>>, shardCount: int)
    requires shardCount >= 2
    ensures ClassBins(items, shardCount) == DropEmpty(LptBins(items, shardCount))
  {
    if |items| <= 1 {
      SortPermutes(items, ByName);
      if items == [] {
        AllEmptyDropped(LptBins(items, shardCount));
      } else {
        assert items == [items[0]];
        OneItemOneBin(items[0], shardCount);
        assert DropEmpty([] + [items]) == [] + [items] by { DropEmptyAppend([], items); }
        assert [] + [items] == [items] == LptBins(items, shardCount);
      }
    }
  }

  lemma OneItemOneBin(item: Item<string>, m: nat)
    requires m >= 2
    ensures DropEmpty(GreedyBins([item], m)) == [[item]]
    ensures Sort([item], ByName) == [item]
  {
    var bins := GreedyBins([item], m);
    SortSingle(item, HeavierFirst);
    SortSingle(item, ByName);
    var ws := [item.weight];
    var at := Greedy(ws, m);
    assert Weights([item]) == ws;
    GreedyIsGreedy(ws, m);
    assert PlacedOnLightest(ws, at, m, 0);
    assert Load(ws, at, 0, 0) == Load(ws, at, at[0], 0) == 0;
    forall b: nat | b < m ensures bins[b] == if b == 0 then [item] else [] {
      assert Bin([item], at, b, 1) == Bin([item], at, b, 0) + if at[0] == b then [item] else [];
    }
    AllEmptyDropped(bins[1..]);
  }

  lemma {:induction false} AllEmptyDropped<T>(bins: seq<seq<Item<T>>>)
    requires forall b :: 0 <= b < |bins| ==> bins[b] == []
    ensures DropEmpty(bins) == []
  {
    if bins != [] {
      AllEmptyDropped(bins[1..]);
    }
  }
}
