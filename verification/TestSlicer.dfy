/** Slicing a phase's tests over several runs: `_build_method_slice_requests` in
    tools/testkit/session.py and the two slicers of tools/testkit/sitecustomize.py. The hash
    is any function from names to naturals. */
module TestSlicer {
  import opened Counting
  import opened Wrappers
  import opened PyStrings
  import opened StableSort

  type Hash = string -> nat

  datatype Test = Test(pyModule: string, cls: string, name: string)

  /** A test class as the loader sees it: the names the unpatched loader finds, and whether the
      class has a `runTest` to fall back on. */
  datatype TestClass = TestClass(pyModule: string, cls: string, names: seq<string>, runTest: bool)

  datatype Slicer = Off | Slice(total: int, index: int, targets: set<string>)

  /** Whether `odoo.tests.loader` could be patched too. */
  datatype Patched = UnittestOnly | Both

  function BucketOf(hash: Hash, name: string, total: int): (b: int)
    ensures 0 <= b && (total >= 1 ==> b < total)
  {
    if total <= 1 then 0 else hash(name) % total
  }

  predicate EndsWith(s: string, end: string) {
    |end| <= |s| && s[|s| - |end|..] == end
  }

  predicate Contains(s: string, part: string) {
    StartsWith(s, part) || (s != [] && Contains(s[1..], part))
  }

  predicate InAddon(pyModule: string, target: string) {
    || Contains(pyModule, ".addons." + target + ".")
    || EndsWith(pyModule, ".addons." + target)
    || StartsWith(pyModule, target + ".")
  }

  predicate MatchesTarget(pyModule: string, targets: set<string>) {
    targets == {} || exists t :: t in targets && InAddon(pyModule, t)
  }

  function BucketKey(t: Test): string {
    t.pyModule + "." + t.cls + "." + t.name
  }

  predicate InSlice(hash: Hash, s: Slicer, t: Test)
    requires s.Slice?
  {
    BucketOf(hash, BucketKey(t), s.total) == s.index
  }

  /** What the patched `getTestCaseNames` keeps. */
  predicate NameKept(hash: Hash, s: Slicer, t: Test) {
    s.Off? || !MatchesTarget(t.pyModule, s.targets) || !StartsWith(t.name, "test") || InSlice(hash, s, t)
  }

  /** What the patched `get_module_test_cases` keeps. */
  predicate CaseKept(hash: Hash, s: Slicer, t: Test) {
    s.Off? || !MatchesTarget(t.pyModule, s.targets) || t.name == [] || InSlice(hash, s, t)
  }

  // ------------------------------------------------------------ the two loaders

  function TestsOf(c: TestClass): seq<Test> {
    seq(|c.names|, i requires 0 <= i < |c.names| => Test(c.pyModule, c.cls, c.names[i]))
  }

  function AllTests(classes: seq<TestClass>): seq<Test> {
    if classes == [] then [] else AllTests(classes[..|classes| - 1]) + TestsOf(classes[|classes| - 1])
  }

  /** The tests that pass both patches in force. */
  function Kept(hash: Hash, s: Slicer, patched: Patched): Test -> bool {
    t => NameKept(hash, s, t) && (patched.UnittestOnly? || CaseKept(hash, s, t))
  }

  function NamePass(hash: Hash, s: Slicer): Test -> bool {
    t => NameKept(hash, s, t)
  }

  function RunTest(c: TestClass): Test {
    Test(c.pyModule, c.cls, "runTest")
  }

  /** The loader has no name left for the class and falls back on its `runTest`. */
  predicate FallsBack(hash: Hash, s: Slicer, c: TestClass) {
    c.runTest && Select(TestsOf(c), NamePass(hash, s)) == []
  }

  /** What the loader makes of a class through the patched `getTestCaseNames`. */
  function Offered(hash: Hash, s: Slicer, c: TestClass): seq<Test> {
    if FallsBack(hash, s, c) then [RunTest(c)] else Select(TestsOf(c), NamePass(hash, s))
  }

  /** What a run loads of a module. */
  function Loaded(hash: Hash, s: Slicer, patched: Patched, classes: seq<TestClass>): seq<Test> {
    if classes == [] then []
    else
      Loaded(hash, s, patched, classes[..|classes| - 1]) +
      Select(Offered(hash, s, classes[|classes| - 1]), CasePass(hash, s, patched))
  }

  /** The patched `getTestCaseNames` of one class. */
  method GetTestCaseNames(hash: Hash, s: Slicer, c: TestClass) returns (selected: seq<Test>)
    ensures selected == Select(TestsOf(c), NamePass(hash, s))
  {
    SelectAll(TestsOf(c), NamePass(hash, s));
    if s.Off? || !MatchesTarget(c.pyModule, s.targets) {
      return TestsOf(c);
    }
    selected := [];
    var i := 0;
    while i < |c.names|
      invariant i <= |c.names| && selected == Select(TestsOf(c)[..i], NamePass(hash, s))
    {
      SelectNext(TestsOf(c), NamePass(hash, s), i);
      var keep := SliceName(hash, s, TestsOf(c)[i]);
      if keep {
        selected := selected + [TestsOf(c)[i]];
      }
      i := i + 1;
    }
    assert TestsOf(c)[..i] == TestsOf(c);
  }

  /** The standard loader's use of it. */
  method LoadTestCase(hash: Hash, s: Slicer, c: TestClass) returns (found: seq<Test>)
    ensures found == Offered(hash, s, c)
  {
    found := GetTestCaseNames(hash, s, c);
    if found == [] && c.runTest {
      found := [RunTest(c)];
    }
  }

  method SliceName(hash: Hash, s: Slicer, t: Test) returns (keep: bool)
    requires s.Slice? && MatchesTarget(t.pyModule, s.targets)
    ensures keep == NamePass(hash, s)(t)
  {
    if !StartsWith(t.name, "test") {
      return true;
    }
    keep := BucketOf(hash, BucketKey(t), s.total) == s.index;
  }

  lemma {:induction false} SelectAll<T>(s: seq<T>, p: T -> bool)
    ensures (forall i :: 0 <= i < |s| ==> p(s[i])) ==> Select(s, p) == s
  {
    if s != [] {
      SelectAll(s[1..], p);
    }
  }

  lemma {:induction false} SelectSplit<T>(a: seq<T>, b: seq<T>, p: T -> bool)
    ensures Select(a + b, p) == Select(a, p) + Select(b, p)
  {
    if a == [] {
      assert a + b == b;
    } else {
      SelectSplit(a[1..], b, p);
      SelectHead(a + b, p, a[1..] + b);
      SelectHead(a, p, a[1..]);
    }
  }

  lemma SelectHead<T>(s: seq<T>, p: T -> bool, tail: seq<T>)
    requires s != [] && s[1..] == tail
    ensures Select(s, p) == (if p(s[0]) then [s[0]] else []) + Select(tail, p)
  {}

  lemma SelectNext<T>(s: seq<T>, p: T -> bool, i: nat)
    requires i < |s|
    ensures Select(s[..i + 1], p) == Select(s[..i], p) + if p(s[i]) then [s[i]] else []
  {
    assert s[..i + 1] == s[..i] + [s[i]];
    SelectSplit(s[..i], [s[i]], p);
  }

  /** The patched `get_module_test_cases`, over the classes of a module. */
  method GetModuleTestCases(hash: Hash, s: Slicer, patched: Patched, classes: seq<TestClass>)
    returns (cases: seq<Test>)
    ensures cases == Loaded(hash, s, patched, classes)
  {
    cases := [];
    var i := 0;
    while i < |classes|
      invariant i <= |classes| && cases == Loaded(hash, s, patched, classes[..i])
    {
      assert classes[..i + 1][..i] == classes[..i];
      var found := LoadTestCase(hash, s, classes[i]);
      var passed := SliceCases(hash, s, patched, found);
      cases := cases + passed;
      i := i + 1;
    }
    assert classes[..i] == classes;
  }

  function CasePass(hash: Hash, s: Slicer, patched: Patched): Test -> bool {
    t => patched.UnittestOnly? || CaseKept(hash, s, t)
  }

  lemma {:induction false} SelectTwice<T(!new)>(s: seq<T>, p: T -> bool, q: T -> bool, both: T -> bool)
    requires forall x :: both(x) == (p(x) && q(x))
    ensures Select(Select(s, p), q) == Select(s, both)
  {
    if s != [] {
      SelectTwice(s[1..], p, q, both);
      assert both(s[0]) == (p(s[0]) && q(s[0]));
      if p(s[0]) {
        assert ([s[0]] + Select(s[1..], p))[1..] == Select(s[1..], p);
      } else {
        assert Select(s, p) == Select(s[1..], p);
      }
    }
  }

  method SliceCases(hash: Hash, s: Slicer, patched: Patched, found: seq<Test>) returns (passed: seq<Test>)
    ensures passed == Select(found, CasePass(hash, s, patched))
  {
    passed := [];
    var i := 0;
    while i < |found|
      invariant i <= |found| && passed == Select(found[..i], CasePass(hash, s, patched))
    {
      SelectNext(found, CasePass(hash, s, patched), i);
      var keep := SliceCase(hash, s, patched, found[i]);
      if keep {
        passed := passed + [found[i]];
      }
      i := i + 1;
    }
    assert found[..i] == found;
  }

  method SliceCase(hash: Hash, s: Slicer, patched: Patched, t: Test) returns (keep: bool)
    ensures keep == CasePass(hash, s, patched)(t)
  {
    if patched.UnittestOnly? || s.Off? {
      return true;
    }
    if !MatchesTarget(t.pyModule, s.targets) {
      return true;
    }
    if t.name == [] {
      return true;
    }
    keep := BucketOf(hash, BucketKey(t), s.total) == s.index;
  }

  // ------------------------------------------------------------ the requests

  /** What a request's environment says to the run; `None` is text that is no number. */
  datatype SliceEnv = SliceEnv(enabled: bool, total: Option<int>, index: Option<int>, modules: string)

  datatype Request = Request(dbName: string, env: SliceEnv)

  function SplitComma(s: string): seq<string> {
    var at := IndexOf(s, ',');
    if at == |s| then [s] else [s[..at]] + SplitComma(s[at + 1..])
  }

  function JoinComma(names: seq<string>): string {
    if names == [] then ""
    else if |names| == 1 then names[0]
    else names[0] + [','] + JoinComma(names[1..])
  }

  /** `_parse_slicer_modules`. */
  function ParseModules(text: string): set<string> {
    if Strip(text) == [] then {}
    else
      var parts := SplitComma(Strip(text));
      set i | 0 <= i < |parts| && Strip(parts[i]) != [] :: Strip(parts[i])
  }

  /** `_apply_test_slicer`: which slicer, if any, is installed. */
  function ApplySlicer(env: SliceEnv): Slicer {
    if !env.enabled || env.total.None? || env.index.None? then Off
    else if env.total.value <= 1 || env.index.value < 0 || env.index.value >= env.total.value then Off
    else Slice(env.total.value, env.index.value, ParseModules(env.modules))
  }

  /** `_cap_by_db_guardrail`; `room` is what the database has to spare, when that is known. */
  function CapByGuardrail(shardCount: int, room: Option<int>, connPerShard: int): (n: int)
    ensures 1 <= n && (1 <= shardCount ==> n <= shardCount)
  {
    if room.None? then Max(1, shardCount)
    else Max(1, Min(shardCount, Max(1, room.value / Max(1, connPerShard))))
  }

  function Max(a: int, b: int): int {
    if a < b then b else a
  }

  function Min(a: int, b: int): int {
    if a < b then a else b
  }

  function SliceRequest(dbBase: string, modules: seq<string>, total: nat, index: nat): Request {
    Request(dbBase + "_m" + Padded(index), SliceEnv(true, Some(total), Some(index), JoinComma(modules)))
  }

  method BuildMethodSliceRequests(dbBase: string, modules: seq<string>, planned: int, room: Option<int>,
                                  connPerShard: int)
    returns (requests: seq<Request>)
    ensures |requests| == CapByGuardrail(Max(1, planned), room, connPerShard)
    ensures forall k :: 0 <= k < |requests| ==> requests[k] == SliceRequest(dbBase, modules, |requests|, k)
  {
    var total := CapByGuardrail(Max(1, planned), room, connPerShard);
    requests := [];
    while |requests| < total
      invariant |requests| <= total
      invariant forall k :: 0 <= k < |requests| ==> requests[k] == SliceRequest(dbBase, modules, total, k)
    {
      requests := requests + [SliceRequest(dbBase, modules, total, |requests|)];
    }
  }

  // ------------------------------------------------------------ names of databases

  function Digit(d: nat): char
    requires d < 10
  {
    "0123456789"[d]
  }

  function Decimal(n: nat): (s: string)
    ensures s != []
  {
    if n < 10 then [Digit(n)] else Decimal(n / 10) + [Digit(n % 10)]
  }

  /** `:03d`. */
  function Padded(n: nat): string {
    ZeroPad(Decimal(n))
  }

  function ZeroPad(s: string): string
    decreases 3 - |s|
  {
    if |s| < 3 then ZeroPad(['0'] + s) else s
  }

  function DigitValue(c: char): nat {
    if c == '0' then 0 else if c == '1' then 1 else if c == '2' then 2 else if c == '3' then 3
    else if c == '4' then 4 else if c == '5' then 5 else if c == '6' then 6 else if c == '7' then 7
    else if c == '8' then 8 else 9
  }

  function Value(s: string): nat {
    if s == [] then 0 else 10 * Value(s[..|s| - 1]) + DigitValue(s[|s| - 1])
  }

  lemma {:induction false} DecimalValue(n: nat)
    ensures Value(Decimal(n)) == n
  {
    assert DigitValue(Digit(n % 10)) == n % 10;
    if n < 10 {
      assert [Digit(n)][..0] == [];
    } else {
      DecimalValue(n / 10);
      PushDigit(Decimal(n / 10), Digit(n % 10));
    }
  }

  lemma PushDigit(s: string, c: char)
    ensures Value(s + [c]) == 10 * Value(s) + DigitValue(c)
  {
    assert (s + [c])[..|s|] == s;
  }

  lemma {:induction false} LeadingZero(s: string)
    ensures Value(['0'] + s) == Value(s)
  {
    if s == [] {
      assert (['0'] + s)[..0] == [];
    } else {
      LeadingZero(s[..|s| - 1]);
      assert (['0'] + s)[..|s|] == ['0'] + s[..|s| - 1];
    }
  }

  lemma {:induction false} PaddedValue(s: string)
    ensures Value(ZeroPad(s)) == Value(s)
    decreases 3 - |s|
  {
    if |s| < 3 {
      LeadingZero(s);
      PaddedValue(['0'] + s);
    }
  }

  /** Distinct slices get distinct databases, however many there are. */
  lemma DistinctDatabases(dbBase: string, modules: seq<string>, total: nat, i: nat, j: nat)
    requires SliceRequest(dbBase, modules, total, i).dbName == SliceRequest(dbBase, modules, total, j).dbName
    ensures i == j
  {
    var head := dbBase + "_m";
    assert (head + Padded(i))[|head|..] == Padded(i) && (head + Padded(j))[|head|..] == Padded(j);
    DecimalValue(i);
    DecimalValue(j);
    PaddedValue(Decimal(i));
    PaddedValue(Decimal(j));
  }

  // ------------------------------------------------------------ every test, once

  function SlicerOf(dbBase: string, modules: seq<string>, total: nat, k: nat): Slicer {
    ApplySlicer(SliceRequest(dbBase, modules, total, k).env)
  }

  function Targets(modules: seq<string>): set<string> {
    ParseModules(JoinComma(modules))
  }

  /** The tests a slicer takes out of some runs. Once both patches are in force this includes
      targeted methods whose name does not begin with `test`, if they have a name. */
  predicate IsSliced(t: Test, targets: set<string>, patched: Patched) {
    MatchesTarget(t.pyModule, targets) && t.name != [] && (patched.Both? || StartsWith(t.name, "test"))
  }

  /** One run keeps a sliced test, the one its hash says; every run keeps the others. */
  lemma KeptInOneSlice(hash: Hash, dbBase: string, modules: seq<string>, total: nat, k: nat, patched: Patched, t: Test)
    requires k < total
    ensures Kept(hash, SlicerOf(dbBase, modules, total, k), patched)(t) <==>
      !IsSliced(t, Targets(modules), patched) || k == BucketOf(hash, BucketKey(t), total)
  {
    assert StartsWith(t.name, "test") ==> t.name != [];
  }

  lemma {:induction false} SelectCount<T>(s: seq<T>, p: T -> bool, x: T)
    ensures multiset(Select(s, p))[x] == if p(x) then multiset(s)[x] else 0
  {
    if s != [] {
      SelectCount(s[1..], p, x);
      TailMultiset(s);
    }
  }

  /** The tests run `k` of a phase keeps. */
  function KeptByRun(hash: Hash, dbBase: string, modules: seq<string>, total: nat,
      patched: Patched): nat -> Test -> bool {
    k => Kept(hash, SlicerOf(dbBase, modules, total, k), patched)
  }

  /** How often each of `n` runs selects a test. */
  function Selections(tests: seq<Test>, kept: nat -> Test -> bool, t: Test, n: nat): seq<nat> {
    seq(n, k requires 0 <= k < n => multiset(Select(tests, kept(k)))[t])
  }

  lemma {:induction false} SumOfOne(counts: seq<nat>, home: nat, c: nat)
    requires forall k :: 0 <= k < |counts| ==> counts[k] == if k == home then c else 0
    ensures Sum(counts) == if home < |counts| then c else 0
  {
    if counts != [] {
      SumOfOne(counts[..|counts| - 1], home, c);
    }
  }

  lemma {:induction false} SumOfSame(counts: seq<nat>, c: nat)
    requires forall k :: 0 <= k < |counts| ==> counts[k] == c
    ensures Sum(counts) == |counts| * c
  {
    if counts != [] {
      SumOfSame(counts[..|counts| - 1], c);
      OneMore(|counts|, c);
    }
  }

  lemma OneMore(n: nat, c: nat)
    requires n > 0
    ensures (n - 1) * c + c == n * c
  {}

  /** All slices of a phase together select every sliced test of a list exactly as often as it is
      there, for any hash, count and list, and every run selects every other test. */
  lemma EverySelectedOnce(hash: Hash, dbBase: string, modules: seq<string>, total: nat, patched: Patched,
                      tests: seq<Test>, t: Test)
    requires 1 <= total
    ensures Sum(Selections(tests, KeptByRun(hash, dbBase, modules, total, patched), t, total)) ==
      if IsSliced(t, Targets(modules), patched) then multiset(tests)[t] else total * multiset(tests)[t]
  {
    var counts := Selections(tests, KeptByRun(hash, dbBase, modules, total, patched), t, total);
    var home, c := BucketOf(hash, BucketKey(t), total), multiset(tests)[t];
    forall k: nat | k < total
      ensures counts[k] == if !IsSliced(t, Targets(modules), patched) || k == home then c else 0
    {
      KeptInOneSlice(hash, dbBase, modules, total, k, patched, t);
      SelectCount(tests, KeptByRun(hash, dbBase, modules, total, patched)(k), t);
    }
    if IsSliced(t, Targets(modules), patched) {
      SumOfOne(counts, home, c);
    } else {
      SumOfSame(counts, c);
    }
  }

  /** Fallbacks aside, a run loads of a class the tests that pass both patches. */
  lemma LoadedOfClass(hash: Hash, s: Slicer, patched: Patched, c: TestClass)
    ensures Select(Offered(hash, s, c), CasePass(hash, s, patched)) ==
      Select(TestsOf(c), Kept(hash, s, patched)) +
      if FallsBack(hash, s, c) then Select([RunTest(c)], CasePass(hash, s, patched)) else []
  {
    SelectTwice(TestsOf(c), NamePass(hash, s), CasePass(hash, s, patched), Kept(hash, s, patched));
  }

  lemma {:induction false} LoadedCount(hash: Hash, s: Slicer, patched: Patched, classes: seq<TestClass>, t: Test)
    requires t.name != "runTest"
    ensures multiset(Loaded(hash, s, patched, classes))[t] ==
      multiset(Select(AllTests(classes), Kept(hash, s, patched)))[t]
  {
    if classes != [] {
      var before, c := classes[..|classes| - 1], classes[|classes| - 1];
      LoadedCount(hash, s, patched, before, t);
      LoadedOfClass(hash, s, patched, c);
      SelectSplit(AllTests(before), TestsOf(c), Kept(hash, s, patched));
      FallbackHasNo(RunTest(c), CasePass(hash, s, patched), t);
    }
  }

  lemma FallbackHasNo(fallback: Test, p: Test -> bool, t: Test)
    requires fallback != t
    ensures multiset(Select([fallback], p))[t] == 0
  {
    assert [fallback][1..] == [];
  }

  /** How often each of `n` runs of a phase loads a test. */
  function Loads(hash: Hash, dbBase: string, modules: seq<string>, total: nat, patched: Patched,
      classes: seq<TestClass>, t: Test, n: nat): seq<nat>
  {
    seq(n, k requires 0 <= k < n =>
      multiset(Loaded(hash, SlicerOf(dbBase, modules, total, k), patched, classes))[t])
  }

  /** All runs of a phase together load every sliced test exactly as often as the unsliced loader
      finds it, for any hash, count and suite, and every run loads every other test. */
  lemma EveryTestOnce(hash: Hash, dbBase: string, modules: seq<string>, total: nat, patched: Patched,
      classes: seq<TestClass>, t: Test)
    requires 1 <= total && t.name != "runTest"
    ensures
      var found := multiset(AllTests(classes))[t];
      Sum(Loads(hash, dbBase, modules, total, patched, classes, t, total)) ==
        if IsSliced(t, Targets(modules), patched) then found else total * found
  {
    EverySelectedOnce(hash, dbBase, modules, total, patched, AllTests(classes), t);
    var loads := Loads(hash, dbBase, modules, total, patched, classes, t, total);
    var counts := Selections(AllTests(classes), KeptByRun(hash, dbBase, modules, total, patched), t, total);
    forall k: nat | k < total ensures loads[k] == counts[k] {
      LoadedCount(hash, SlicerOf(dbBase, modules, total, k), patched, classes, t);
    }
    assert loads == counts;
  }

  // ------------------------------------------------------------ the fallback

  lemma {:induction false} SelectsNothing<T>(s: seq<T>, p: T -> bool)
    ensures Select(s, p) == [] <==> forall i :: 0 <= i < |s| ==> !p(s[i])
  {
    if s != [] {
      SelectsNothing(s[1..], p);
      assert forall i :: 0 < i < |s| ==> s[i] == s[1..][i - 1];
    }
  }

  /** The slice holds none of the class's tests, all of which are sliced. */
  predicate LeftOut(hash: Hash, s: Slicer, c: TestClass)
    requires s.Slice?
  {
    && MatchesTarget(c.pyModule, s.targets)
    && forall i :: 0 <= i < |c.names| ==>
         StartsWith(c.names[i], "test") && !InSlice(hash, s, Test(c.pyModule, c.cls, c.names[i]))
  }

  /** Slicing a class with test names loads its `runTest`, which no unsliced run does, in every
      slice that holds none of its tests; once both patches are in force, only in the one of
      these that is also the `runTest`'s own. */
  lemma SpareRunTestIff(hash: Hash, s: Slicer, patched: Patched, c: TestClass)
    requires s.Slice? && c.names != [] && "runTest" !in c.names
    ensures RunTest(c) in Select(Offered(hash, s, c), CasePass(hash, s, patched)) <==>
      c.runTest && LeftOut(hash, s, c) && (patched.UnittestOnly? || InSlice(hash, s, RunTest(c)))
    ensures RunTest(c) !in Select(Offered(hash, Off, c), CasePass(hash, Off, patched))
  {
    FallbackLoadedIff(hash, s, patched, c);
    FallbackLoadedIff(hash, Off, patched, c);
    assert NamePass(hash, Off)(TestsOf(c)[0]);
    NothingNamedIff(hash, s, c);
  }

  lemma NothingNamedIff(hash: Hash, s: Slicer, c: TestClass)
    requires s.Slice? && c.names != []
    ensures (forall i :: 0 <= i < |c.names| ==> !NamePass(hash, s)(TestsOf(c)[i])) <==> LeftOut(hash, s, c)
  {
    if forall i :: 0 <= i < |c.names| ==> !NamePass(hash, s)(TestsOf(c)[i]) {
      assert !NamePass(hash, s)(TestsOf(c)[0]);
      forall i | 0 <= i < |c.names|
        ensures StartsWith(c.names[i], "test") && !InSlice(hash, s, Test(c.pyModule, c.cls, c.names[i]))
      {
        assert !NamePass(hash, s)(TestsOf(c)[i]);
      }
    }
  }

  lemma FallbackLoadedIff(hash: Hash, s: Slicer, patched: Patched, c: TestClass)
    requires "runTest" !in c.names
    ensures RunTest(c) in Select(Offered(hash, s, c), CasePass(hash, s, patched)) <==>
      && c.runTest && (forall i :: 0 <= i < |c.names| ==> !NamePass(hash, s)(TestsOf(c)[i]))
      && CasePass(hash, s, patched)(RunTest(c))
  {
    var p := CasePass(hash, s, patched);
    SelectsNothing(TestsOf(c), NamePass(hash, s));
    SelectCount(Offered(hash, s, c), p, RunTest(c));
    assert RunTest(c) in Select(Offered(hash, s, c), p) <==> multiset(Select(Offered(hash, s, c), p))[RunTest(c)] > 0;
    if !FallsBack(hash, s, c) {
      SelectCount(TestsOf(c), NamePass(hash, s), RunTest(c));
    }
  }

  /** A targeted class with nothing but a `runTest`: the first slicer leaves it in every slice,
      the second one puts it into one. */
  lemma LoneRunTest(hash: Hash, s: Slicer, patched: Patched, c: TestClass)
    requires s.Slice? && c.names == [] && c.runTest && MatchesTarget(c.pyModule, s.targets)
    ensures RunTest(c) in Select(Offered(hash, s, c), CasePass(hash, s, patched)) <==>
      patched.UnittestOnly? || InSlice(hash, s, RunTest(c))
  {
    FallbackLoadedIff(hash, s, patched, c);
  }

  // ------------------------------------------------------------ the target list

  predicate CleanModule(name: string) {
    name != [] && ',' !in name && Stripped(name)
  }

  ghost predicate CleanModules(modules: seq<string>) {
    forall i :: 0 <= i < |modules| ==> CleanModule(modules[i])
  }

  lemma {:induction false} SplitJoinedModules(modules: seq<string>)
    requires CleanModules(modules) && modules != []
    ensures SplitComma(JoinComma(modules)) == modules
  {
    assert CleanModule(modules[0]);
    if |modules| == 1 {
      assert IndexOf(modules[0], ',') == |modules[0]|;
    } else {
      SplitJoinedModules(modules[1..]);
      SplitFirstModule(modules[0], JoinComma(modules[1..]));
    }
  }

  lemma SplitFirstModule(name: string, rest: string)
    requires ',' !in name
    ensures SplitComma(name + [','] + rest) == [name] + SplitComma(rest)
  {
    IndexAfter(name, ',', rest);
    var text := name + [','] + rest;
    assert text[..|name|] == name && text[|name| + 1..] == rest;
  }

  lemma {:induction false} JoinedIsStripped(modules: seq<string>)
    requires CleanModules(modules) && modules != []
    ensures JoinComma(modules) != [] && Stripped(JoinComma(modules))
  {
    if |modules| > 1 {
      JoinedIsStripped(modules[1..]);
      assert CleanModule(modules[0]);
    }
  }

  /** The run slices exactly the modules the phase asked for. */
  lemma TargetsAreModules(modules: seq<string>)
    requires CleanModules(modules)
    ensures Targets(modules) == Elements(modules)
  {
    if modules == [] {
      assert Strip([]) == [];
    } else {
      JoinedIsStripped(modules);
      StripIsStripped(JoinComma(modules));
      SplitJoinedModules(modules);
      forall i | 0 <= i < |modules| ensures Strip(modules[i]) == modules[i] && modules[i] != [] {
        assert CleanModule(modules[i]);
        StripIsStripped(modules[i]);
      }
    }
  }
}
