/** `greedy_shards` of tools/testkit/sharding.py: modules dealt out in turn, in the order of
    their names. It is the weighted planner on equal weights. */
module RoundRobin {
  import opened StableSort
  import opened Names
  import opened Sharding

  /** What shard `b` of `m` has been dealt of the first `n` names. */
  function Dealt(names: seq<string>, m: nat, b: nat, n: nat): seq<string>
    requires m >= 1 && n <= |names|
  {
    if n == 0 then [] else Dealt(names, m, b, n - 1) + if (n - 1) % m == b then [names[n - 1]] else []
  }

  function Hands(names: seq<string>, m: nat, n: nat): seq<seq<string>>
    requires m >= 1 && n <= |names|
  {
    seq(m, b requires 0 <= b < m => Dealt(names, m, b, n))
  }

  predicate NotEmpty(hand: seq<string>) {
    hand != []
  }

  method GreedyShards(items: seq<string>, shardCount: int) returns (out: seq<seq<string>>)
    ensures out ==
      if shardCount <= 1 || |items| <= 1 then [items]
      else Select(Hands(Sort(items, NameLeq), shardCount, |Sort(items, NameLeq)|), NotEmpty)
  {
    if shardCount <= 1 || |items| <= 1 {
      return [items];
    }
    var shards := seq(shardCount, _ => []);
    var sorted := Sort(items, NameLeq);
    for i := 0 to |sorted|
      invariant shards == Hands(sorted, shardCount, i)
    {
      var turn := i % shardCount;
      DealNext(sorted, shardCount, i);
      shards := shards[turn := shards[turn] + [sorted[i]]];
    }
    out := Select(shards, NotEmpty);
  }

  lemma DealNext(names: seq<string>, m: nat, i: nat)
    requires m >= 1 && i < |names|
    ensures var hands := Hands(names, m, i);
      Hands(names, m, i + 1) == hands[i % m := hands[i % m] + [names[i]]]
  {
    forall b: nat | b < m && b != i % m ensures Dealt(names, m, b, i + 1) == Dealt(names, m, b, i) {}
  }

  /** A hand is empty exactly when the names ran out before its first turn. */
  lemma {:induction false} DealtEmptyIff(names: seq<string>, m: nat, b: nat, n: nat)
    requires b < m && n <= |names|
    ensures Dealt(names, m, b, n) == [] <==> n <= b
  {
    if n > 0 {
      DealtEmptyIff(names, m, b, n - 1);
      OwnTurn(n - 1, m, (n - 1) % m);
    }
  }

  lemma OwnTurn(i: nat, m: nat, turn: nat)
    requires m >= 1 && turn == i % m
    ensures turn <= i && (i < m ==> turn == i)
  {}

  lemma {:induction false} SelectPrefix<T>(s: seq<T>, p: T -> bool, k: nat)
    requires k <= |s| && forall i :: 0 <= i < |s| ==> (p(s[i]) <==> i < k)
    ensures Select(s, p) == s[..k]
  {
    if s != [] {
      assert forall i :: 0 <= i < |s| - 1 ==> s[1..][i] == s[i + 1];
      SelectPrefix(s[1..], p, if k == 0 then 0 else k - 1);
    }
  }

  /** What is left of the hands is the first of them, as many as there are names at most. */
  lemma FirstHandsStay(names: seq<string>, m: nat)
    requires m >= 1
    ensures
      var hands := Hands(names, m, |names|);
      Select(hands, NotEmpty) == hands[..if |names| < m then |names| else m]
  {
    var hands := Hands(names, m, |names|);
    forall b | 0 <= b < m ensures NotEmpty(hands[b]) <==> b < |names| {
      DealtEmptyIff(names, m, b, |names|);
    }
    SelectPrefix(hands, NotEmpty, if |names| < m then |names| else m);
  }

  // ------------------------------------------------------------ the same as planning equal weights

  function Ones(n: nat): seq<nat> {
    seq(n, _ => 1)
  }

  function Turns(n: nat, m: nat): seq<nat>
    requires m >= 1
  {
    seq(n, i requires 0 <= i < n => i % m)
  }

  lemma TurnOf(q: nat, m: nat, r: nat)
    requires r < m
    ensures (q * m + r) % m == r
  {
    var x := q * m + r;
    OneRemainder(m, q, r, x / m, x % m);
  }

  lemma OneRemainder(m: nat, q: nat, r: nat, p: nat, s: nat)
    requires r < m && s < m && q * m + r == p * m + s
    ensures r == s
  {
    if q < p {
      RoundsApart(m, q, p);
    } else if p < q {
      RoundsApart(m, p, q);
    }
  }

  lemma {:induction false} RoundsApart(m: nat, q: nat, p: nat)
    requires q < p
    ensures q * m + m <= p * m
  {
    NextRound(p - 1, m);
    if q < p - 1 {
      RoundsApart(m, q, p - 1);
    }
  }

  lemma NextRound(q: nat, m: nat)
    ensures (q + 1) * m == q * m + m
  {}

  /** After `q` full rounds and `r` more turns, the first `r` shards are one ahead. */
  lemma {:induction false} RoundLoads(total: nat, m: nat, q: nat, r: nat, b: nat)
    requires r < m && b < m && q * m + r <= total
    ensures Load(Ones(total), Turns(total, m), b, q * m + r) == q + if b < r then 1 else 0
    decreases q * m + r
  {
    if r > 0 {
      TurnOf(q, m, r - 1);
      RoundLoads(total, m, q, r - 1, b);
    } else if q > 0 {
      assert q * m == (q - 1) * m + (m - 1) + 1;
      TurnOf(q - 1, m, m - 1);
      RoundLoads(total, m, q - 1, m - 1, b);
    }
  }

  lemma Rounds(n: nat, m: nat) returns (q: nat, r: nat)
    requires m >= 1
    ensures n == q * m + r && r < m && n % m == r
  {
    q, r := n / m, n % m;
  }

  /** Dealing in turn is placing every name on the first of the shortest shards. */
  lemma TurnsAreGreedy(n: nat, m: nat)
    requires m >= 1
    ensures Greedy(Ones(n), m) == Turns(n, m)
  {
    TurnsArePlaced(n, m);
    GreedyIsGreedy(Ones(n), m);
    GreedyUnique(Ones(n), Greedy(Ones(n), m), Turns(n, m), m, n);
  }

  lemma TurnsArePlaced(n: nat, m: nat)
    requires m >= 1
    ensures IsGreedy(Ones(n), Turns(n, m), m)
  {
    forall k | 0 <= k < n ensures PlacedOnLightest(Ones(n), Turns(n, m), m, k) {
      TurnIsLightest(n, m, k);
    }
  }

  lemma TurnIsLightest(n: nat, m: nat, k: nat)
    requires m >= 1 && k < n
    ensures PlacedOnLightest(Ones(n), Turns(n, m), m, k)
  {
    var q, r := Rounds(k, m);
    forall c: nat | c < m ensures Load(Ones(n), Turns(n, m), c, k) == q + if c < r then 1 else 0 {
      RoundLoads(n, m, q, r, c);
    }
  }

  function EqualItems(names: seq<string>): seq<Item<string>> {
    seq(|names|, i requires 0 <= i < |names| => Item(names[i], 1))
  }

  function NamesOf(items: seq<Item<string>>): seq<string> {
    seq(|items|, i requires 0 <= i < |items| => items[i].name)
  }

  lemma {:induction false} EqualItemsStay(names: seq<string>)
    ensures HeaviestFirst(EqualItems(names)) == EqualItems(names)
  {
    if names != [] {
      EqualItemsStay(names[1..]);
      assert EqualItems(names)[1..] == EqualItems(names[1..]);
      assert EqualItems(names) == [Item(names[0], 1)] + EqualItems(names[1..]);
    }
  }

  lemma {:induction false} DealtIsBin(names: seq<string>, m: nat, b: nat, n: nat)
    requires m >= 1 && n <= |names|
    ensures NamesOf(Bin(EqualItems(names), Turns(|names|, m), b, n)) == Dealt(names, m, b, n)
  {
    if n > 0 {
      DealtIsBin(names, m, b, n - 1);
    }
  }

  /** Every shard is the one the weighted planner makes of modules of equal weight. */
  lemma SameAsEqualWeights(names: seq<string>, m: nat, b: nat)
    requires m >= 1 && b < m
    ensures NamesOf(GreedyBins(EqualItems(names), m)[b]) == Hands(names, m, |names|)[b]
  {
    EqualItemsStay(names);
    assert Weights(EqualItems(names)) == Ones(|names|);
    TurnsAreGreedy(|names|, m);
    DealtIsBin(names, m, b, |names|);
  }

  /** So no shard is more than one module ahead of another. */
  lemma SizesDifferByOne(names: seq<string>, m: nat, b: nat, c: nat)
    requires m >= 1 && b < m && c < m
    ensures |Hands(names, m, |names|)[b]| <= |Hands(names, m, |names|)[c]| + 1
  {
    var q, r := Rounds(|names|, m);
    DealtSize(names, m, b, |names|);
    DealtSize(names, m, c, |names|);
    RoundLoads(|names|, m, q, r, b);
    RoundLoads(|names|, m, q, r, c);
  }

  lemma {:induction false} DealtSize(names: seq<string>, m: nat, b: nat, n: nat)
    requires m >= 1 && n <= |names|
    ensures |Dealt(names, m, b, n)| == Load(Ones(|names|), Turns(|names|, m), b, n)
  {
    if n > 0 {
      DealtSize(names, m, b, n - 1);
    }
  }
}
