/** Python's `sorted`: a stable sort, given by a comparison that says when its
    first argument may stand before its second. The shard planner, the env-file
    printer and the percentile all sort through it. */
module StableSort {

  ghost predicate TotalPreorder<T(!new)>(leq: (T, T) -> bool) {
    && (forall x, y :: leq(x, y) || leq(y, x))
    && (forall x, y, z :: leq(x, y) && leq(y, z) ==> leq(x, z))
  }

  predicate Sorted<T>(s: seq<T>, leq: (T, T) -> bool) {
    forall i, j :: 0 <= i < j < |s| ==> leq(s[i], s[j])
  }

  /** Puts `x` in front of the first element it may precede, so before its equals. */
  function Insert<T>(x: T, s: seq<T>, leq: (T, T) -> bool): seq<T> {
    if s == [] || leq(x, s[0]) then [x] + s else [s[0]] + Insert(x, s[1..], leq)
  }

  function Sort<T>(s: seq<T>, leq: (T, T) -> bool): seq<T> {
    if s == [] then [] else Insert(s[0], Sort(s[1..], leq), leq)
  }

  function Select<T>(s: seq<T>, p: T -> bool): seq<T> {
    if s == [] then [] else (if p(s[0]) then [s[0]] else []) + Select(s[1..], p)
  }

  lemma {:induction false} InsertPermutes<T>(x: T, s: seq<T>, leq: (T, T) -> bool)
    ensures multiset(Insert(x, s, leq)) == multiset(s) + multiset{x}
  {
    if s == [] || leq(x, s[0]) {
    } else {
      InsertPermutes(x, s[1..], leq);
      assert s == [s[0]] + s[1..];
    }
  }

  lemma {:induction false} SortPermutes<T>(s: seq<T>, leq: (T, T) -> bool)
    ensures multiset(Sort(s, leq)) == multiset(s)
    ensures |Sort(s, leq)| == |s|
  {
    if s != [] {
      SortPermutes(s[1..], leq);
      InsertPermutes(s[0], Sort(s[1..], leq), leq);
      assert s == [s[0]] + s[1..];
    }
    assert |multiset(Sort(s, leq))| == |multiset(s)|;
  }

  lemma {:induction false} InsertSorts<T(!new)>(x: T, s: seq<T>, leq: (T, T) -> bool)
    requires TotalPreorder(leq) && Sorted(s, leq)
    ensures Sorted(Insert(x, s, leq), leq)
  {
    if s == [] {
    } else if leq(x, s[0]) {
      forall i | 0 <= i < |s| ensures leq(x, s[i]) {
        assert i == 0 || leq(s[0], s[i]);
      }
    } else {
      InsertSorts(x, s[1..], leq);
      InsertPermutes(x, s[1..], leq);
      var rest := Insert(x, s[1..], leq);
      forall i | 0 <= i < |rest| ensures leq(s[0], rest[i]) {
        assert rest[i] in multiset(rest);
        if rest[i] != x {
          assert rest[i] in s[1..];
        }
      }
    }
  }

  lemma {:induction false} SortSorts<T(!new)>(s: seq<T>, leq: (T, T) -> bool)
    requires TotalPreorder(leq)
    ensures Sorted(Sort(s, leq), leq)
  {
    if s != [] {
      SortSorts(s[1..], leq);
      InsertSorts(s[0], Sort(s[1..], leq), leq);
    }
  }

  /** Stability: a class of mutually equal elements keeps its order. */
  lemma {:induction false} SortStable<T(!new)>(s: seq<T>, leq: (T, T) -> bool, p: T -> bool)
    requires forall x, y :: p(x) && p(y) ==> leq(x, y)
    ensures Select(Sort(s, leq), p) == Select(s, p)
  {
    if s != [] {
      SortStable(s[1..], leq, p);
      InsertStable(s[0], Sort(s[1..], leq), leq, p);
    }
  }

  lemma {:induction false} InsertStable<T(!new)>(x: T, s: seq<T>, leq: (T, T) -> bool, p: T -> bool)
    requires forall x, y :: p(x) && p(y) ==> leq(x, y)
    ensures Select(Insert(x, s, leq), p) == Select([x] + s, p)
  {
    assert ([x] + s)[1..] == s;
    if s == [] || leq(x, s[0]) {
    } else {
      InsertStable(x, s[1..], leq, p);
      assert ([x] + s[1..])[1..] == s[1..];
      var rest := Insert(x, s[1..], leq);
      assert ([s[0]] + rest)[1..] == rest;
    }
  }

  /** For an antisymmetric order the sorted form of a multiset is unique. */
  lemma {:induction false} SortedUnique<T(!new)>(a: seq<T>, b: seq<T>, leq: (T, T) -> bool)
    requires forall x, y :: leq(x, y) && leq(y, x) ==> x == y
    requires forall x :: leq(x, x)
    requires Sorted(a, leq) && Sorted(b, leq) && multiset(a) == multiset(b)
    ensures a == b
  {
    assert |multiset(a)| == |multiset(b)|;
    if a != [] {
      HeadIsLeast(a, b, leq);
      HeadIsLeast(b, a, leq);
      TailMultiset(a);
      TailMultiset(b);
      SortedUnique(a[1..], b[1..], leq);
    }
  }

  lemma TailMultiset<T>(a: seq<T>)
    requires a != []
    ensures multiset(a[1..]) == multiset(a) - multiset{a[0]}
    ensures a == [a[0]] + a[1..]
  {
    assert a == [a[0]] + a[1..];
  }

  lemma HeadIsLeast<T(!new)>(a: seq<T>, b: seq<T>, leq: (T, T) -> bool)
    requires forall x :: leq(x, x)
    requires Sorted(a, leq) && multiset(a) == multiset(b)
    requires a != [] && b != []
    ensures leq(a[0], b[0])
  {
    assert b[0] in multiset(a);
    var i :| 0 <= i < |a| && a[i] == b[0];
    assert i == 0 || leq(a[0], a[i]);
  }

  lemma SortSingle<T>(x: T, leq: (T, T) -> bool)
    ensures Sort([x], leq) == [x]
  {
    assert [x][1..] == [];
    assert Sort([x], leq) == Insert(x, [], leq);
  }
}
