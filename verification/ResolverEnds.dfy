/** Exactly the maps on which resolving every variable ends, and what it then gives. */
module ResolverEnds {
  import opened Counting
  import opened Wrappers
  import opened EnvReferences
  import opened ResolverRounds
  import opened ResolverRuns
  import opened ResolverKnots

  // ------------------------------------------------------------ a cycle ties a knot

  ghost predicate ReachesOrIs(values: Values, n: string, m: string) {
    n == m || Reaches(values, n, m)
  }

  ghost function KnotOf(values: Values, a: string): set<string> {
    set n | n in values && ReachesOrIs(values, a, n) && ReachesOrIs(values, n, a)
  }

  ghost function ClearOf(values: Values, a: string): set<string> {
    set n | n in values && !ReachesOrIs(values, n, a)
  }

  lemma StepToward(values: Values, n: string, m: string, a: string)
    requires RefersTo(values, n, m) && ReachesOrIs(values, m, a)
    ensures Reaches(values, n, a)
  {
    ReachesOne(values, n, m);
    if m != a {
      ReachesVia(values, n, m, a);
    }
  }

  lemma StepFrom(values: Values, a: string, n: string, m: string)
    requires ReachesOrIs(values, a, n) && RefersTo(values, n, m)
    ensures Reaches(values, a, m)
  {
    ReachesOne(values, n, m);
    if a != n {
      ReachesVia(values, a, n, m);
    }
  }

  lemma CycleIsKnot(values: Values, a: string, b: string)
    requires a != b && Reaches(values, a, b) && Reaches(values, b, a)
    ensures IsKnot(values, KnotOf(values, a), ClearOf(values, a)) && a in KnotOf(values, a)
  {
    var knot, below := KnotOf(values, a), ClearOf(values, a);
    var first := FirstStep(values, a, b);
    forall n | n in below ensures Over(values, values[n], below) {
      ClearStaysClear(values, a, n);
    }
    forall n | n in knot ensures Over(values, values[n], knot + below) && RefersOn(values, knot, n) {
      KnotStays(values, a, n);
      KnotRefersOn(values, a, b, n);
    }
  }

  lemma ClearStaysClear(values: Values, a: string, n: string)
    requires n in ClearOf(values, a)
    ensures Over(values, values[n], ClearOf(values, a))
  {
    forall m | m in values && Mentions(values[n], m) ensures m in ClearOf(values, a) {
      if ReachesOrIs(values, m, a) {
        StepToward(values, n, m, a);
      }
    }
  }

  lemma KnotStays(values: Values, a: string, n: string)
    requires n in KnotOf(values, a)
    ensures Over(values, values[n], KnotOf(values, a) + ClearOf(values, a))
  {
    forall m | m in values && Mentions(values[n], m) ensures m in KnotOf(values, a) + ClearOf(values, a) {
      StepFrom(values, a, n, m);
    }
  }

  lemma KnotRefersOn(values: Values, a: string, b: string, n: string)
    requires a != b && Reaches(values, a, b) && Reaches(values, b, a) && n in KnotOf(values, a)
    ensures RefersOn(values, KnotOf(values, a), n)
  {
    var goal := if n == a then b else a;
    var path :| Joins(values, path, n, goal);
    var m := LastDeparture(values, path, n, goal, |path| - 1);
    StepFrom(values, a, n, m);
    if goal == b && m != b {
      ReachesVia(values, m, b, a);
    }
  }

  // ------------------------------------------------------------ runs that stay out of a knot

  ghost predicate StaysOut(values: Values, knot: set<string>, below: set<string>, ran: Option<Ran>) {
    ran.Some? ==> Untied(values, knot, below, ran.value.cache)
  }

  lemma {:induction false} ValueStaysOut(values: Values, environ: Environ, knot: set<string>, below: set<string>,
      n: string, seen: set<string>, cache: Cache, fuel: nat)
    requires IsKnot(values, knot, below) && Untied(values, knot, below, cache) && n in values && seen !! knot
    ensures StaysOut(values, knot, below, Value(values, environ, n, seen, cache, fuel))
    ensures n in knot ==> Value(values, environ, n, seen, cache, fuel).None?
    decreases fuel, 0
  {
    if n in knot {
      ValueNeverEnds(values, environ, knot, below, n, seen, cache, fuel);
    } else if n in below {
      ValueBelow(values, environ, knot, below, n, seen, cache, fuel);
    } else if n !in cache && n !in seen && fuel > 0 {
      LoopStaysOut(values, environ, knot, below, Start(values[n]), seen + {n}, cache, fuel - 1);
    }
  }

  lemma {:induction false} LoopStaysOut(values: Values, environ: Environ, knot: set<string>, below: set<string>,
      t: Text, seen: set<string>, cache: Cache, fuel: nat)
    requires IsKnot(values, knot, below) && Untied(values, knot, below, cache) && seen !! knot
    ensures StaysOut(values, knot, below, Loop(values, environ, t, seen, cache, fuel))
    decreases fuel, 0
  {
    if fuel > 0 {
      PassStaysOut(values, environ, knot, below, t, |t|, seen, cache, fuel - 1);
      var ran := Pass(values, environ, t, |t|, seen, cache, fuel - 1);
      if ran.Some? && ran.value.text != t {
        LoopStaysOut(values, environ, knot, below, ran.value.text, seen, ran.value.cache, fuel - 1);
      }
    }
  }

  lemma {:induction false} PassStaysOut(values: Values, environ: Environ, knot: set<string>, below: set<string>,
      t: Text, k: nat, seen: set<string>, cache: Cache, fuel: nat)
    requires IsKnot(values, knot, below) && Untied(values, knot, below, cache) && seen !! knot && k <= |t|
    ensures StaysOut(values, knot, below, Pass(values, environ, t, k, seen, cache, fuel))
    decreases fuel, 2 + k
  {
    if k > 0 {
      PassStaysOut(values, environ, knot, below, t, k - 1, seen, cache, fuel);
      var before := Pass(values, environ, t, k - 1, seen, cache, fuel);
      if before.Some? && t[k - 1].Ref? && t[k - 1].name in values {
        ValueStaysOut(values, environ, knot, below, t[k - 1].name, seen, before.value.cache, fuel);
      }
    }
  }

  lemma {:induction false} EverythingStaysOut(values: Values, environ: Environ, knot: set<string>, below: set<string>,
      names: seq<string>, k: nat, fuel: nat)
    requires IsKnot(values, knot, below) && k <= |names| && forall i :: 0 <= i < |names| ==> names[i] in values
    ensures AllStayOut(values, knot, below, names, k, Everything(values, environ, names, k, fuel))
  {
    if k > 0 {
      EverythingStaysOut(values, environ, knot, below, names, k - 1, fuel);
      var before := Everything(values, environ, names, k - 1, fuel);
      if before.Some? {
        ValueStaysOut(values, environ, knot, below, names[k - 1], {}, before.value.cache, fuel);
        NextStaysOut(values, knot, below, names, k, before.value,
                     Value(values, environ, names[k - 1], {}, before.value.cache, fuel));
      }
    }
  }

  ghost predicate AllStayOut(values: Values, knot: set<string>, below: set<string>, names: seq<string>, k: nat,
      ran: Option<AllRan>)
    requires k <= |names|
  {
    ran.Some? ==> Untied(values, knot, below, ran.value.cache) && forall i :: 0 <= i < k ==> names[i] !in knot
  }

  lemma NextStaysOut(values: Values, knot: set<string>, below: set<string>, names: seq<string>, k: nat,
      before: AllRan, ran: Option<Ran>)
    requires 0 < k <= |names| && AllStayOut(values, knot, below, names, k - 1, Some(before))
    requires StaysOut(values, knot, below, ran) && (names[k - 1] in knot ==> ran.None?)
    ensures AllStayOut(values, knot, below, names, k, Record(before.result, names[k - 1], ran))
  {}

  ghost predicate Lists(values: Values, names: seq<string>) {
    forall n :: n in names <==> n in values
  }

  /** If everything ends, every cycle is a self-reference. */
  lemma EndsHasLoopsOnly(values: Values, environ: Environ, names: seq<string>, fuel: nat)
    requires Lists(values, names) && Everything(values, environ, names, |names|, fuel).Some?
    ensures LoopsOnly(values)
  {
    forall a, b | Reaches(values, a, b) && Reaches(values, b, a) ensures a == b {
      if a != b {
        var knot, below := KnotOf(values, a), ClearOf(values, a);
        CycleIsKnot(values, a, b);
        EverythingStaysOut(values, environ, knot, below, names, |names|, fuel);
      }
    }
  }

  // ------------------------------------------------------------ when every cycle is a self-reference

  lemma RankIsBounded(values: Values, n: string)
    ensures Rank(values, n) <= |values|
  {
    SubsetSize(Below(values, n), values.Keys);
  }

  /** The first `k` variables have what they denote, and are fine. */
  ghost predicate AllDone(values: Values, environ: Environ, names: seq<string>, k: nat, ran: AllRan)
    requires LoopsOnly(values) && k <= |names|
  {
    && CacheSound(values, environ, ran.cache)
    && (forall n :: n in ran.result ==> n in values && ran.result[n] == Denote(values, environ, n))
    && (forall i :: 0 <= i < k ==> names[i] in ran.result && Fine(values, environ, names[i]))
  }

  lemma {:induction false} EverythingRuns(values: Values, environ: Environ, names: seq<string>, k: nat, fuel: nat)
    requires LoopsOnly(values) && k <= |names| && forall i :: 0 <= i < |names| ==> names[i] in values
    ensures Settled(values, environ) && fuel >= Enough(|values| + 1) ==>
      Everything(values, environ, names, k, fuel).Some?
    ensures
      var ran := Everything(values, environ, names, k, fuel);
      ran.Some? ==> AllDone(values, environ, names, k, ran.value)
  {
    if k > 0 {
      EverythingRuns(values, environ, names, k - 1, fuel);
      var before := Everything(values, environ, names, k - 1, fuel);
      if before.Some? {
        var ran := TopRuns(values, environ, names[k - 1], before.value.cache, fuel);
        if ran.Some? {
          NextDone(values, environ, names, k, before.value, ran.value);
        }
      }
    }
  }

  lemma TopRuns(values: Values, environ: Environ, n: string, cache: Cache, fuel: nat) returns (ran: Option<Ran>)
    requires LoopsOnly(values) && n in values && CacheSound(values, environ, cache)
    ensures ran == Value(values, environ, n, {}, cache, fuel)
    ensures Settled(values, environ) && fuel >= Enough(|values| + 1) ==> ran.Some?
    ensures ran.Some? ==>
      && ran.value.text == Denote(values, environ, n) && Fine(values, environ, n)
      && CacheSound(values, environ, ran.value.cache)
  {
    ran := Value(values, environ, n, {}, cache, fuel);
    RankIsBounded(values, n);
    ValueRuns(values, environ, n, {}, cache, fuel);
  }

  lemma NextDone(values: Values, environ: Environ, names: seq<string>, k: nat, before: AllRan, ran: Ran)
    requires LoopsOnly(values) && 0 < k <= |names| && names[k - 1] in values
    requires AllDone(values, environ, names, k - 1, before)
    requires ran.text == Denote(values, environ, names[k - 1]) && Fine(values, environ, names[k - 1])
    requires CacheSound(values, environ, ran.cache)
    ensures AllDone(values, environ, names, k, AllRan(before.result[names[k - 1] := ran.text], ran.cache))
  {}

  lemma AllFine(values: Values, environ: Environ, names: seq<string>, ran: AllRan)
    requires LoopsOnly(values) && Lists(values, names) && AllDone(values, environ, names, |names|, ran)
    ensures Settled(values, environ) && ran.result == DenoteAll(values, environ)
  {
    forall n | n in values ensures Stable(values, environ, n) && n in ran.result {
      var i :| 0 <= i < |names| && names[i] == n;
    }
    assert ran.result.Keys == values.Keys;
  }

  /** In whatever order the variables are visited, resolving them all ends if and only if every
      cycle of references is a variable that refers to itself and that its first round, with the
      other names denoted, leaves as it is. */
  lemma ResolutionEndsIff(values: Values, environ: Environ, names: seq<string>)
    requires Lists(values, names)
    ensures (exists fuel: nat :: Everything(values, environ, names, |names|, fuel).Some?) <==> Settled(values, environ)
  {
    AllAreNames(values, names);
    if fuel: nat :| Everything(values, environ, names, |names|, fuel).Some? {
      ResolutionDenotes(values, environ, names, fuel);
    }
    if Settled(values, environ) {
      EverythingRuns(values, environ, names, |names|, Enough(|values| + 1));
    }
  }

  lemma AllAreNames(values: Values, names: seq<string>)
    requires Lists(values, names)
    ensures forall i :: 0 <= i < |names| ==> names[i] in values
  {
    assert forall i :: 0 <= i < |names| ==> names[i] in names;
  }

  /** When it ends, the map is settled and every variable has what it denotes. */
  lemma ResolutionDenotes(values: Values, environ: Environ, names: seq<string>, fuel: nat)
    requires Lists(values, names) && Everything(values, environ, names, |names|, fuel).Some?
    ensures Settled(values, environ)
    ensures Everything(values, environ, names, |names|, fuel).value.result == DenoteAll(values, environ)
  {
    AllAreNames(values, names);
    EndsHasLoopsOnly(values, environ, names, fuel);
    EverythingRuns(values, environ, names, |names|, fuel);
    AllFine(values, environ, names, Everything(values, environ, names, |names|, fuel).value);
  }

  // ------------------------------------------------------------ examples

  /** `A=${A}` can be resolved and stays as it is; `A=x${A}` cannot. */
  lemma SelfReferences(environ: Environ)
    ensures Settled(map["A" := [Ref("A", "")]], environ)
    ensures !Settled(map["A" := [Ch('x'), Ref("A", "")]], environ)
  {
    StillSettled(map["A" := [Ref("A", "")]], environ, Ref("A", ""));
    PrefixUnsettled(map["A" := [Ch('x'), Ref("A", "")]], environ, Ch('x'), Ref("A", ""));
  }

  lemma StillSettled(values: Values, environ: Environ, self: Token)
    requires self.Ref? && values == map[self.name := [self]]
    ensures Settled(values, environ)
  {
    OnlyOneName(values, self.name);
    OwnWithin(values, self.name);
    SelfImage(values, environ, self.name, self);
    assert Start([self]) == [self];
  }

  lemma PrefixUnsettled(values: Values, environ: Environ, first: Token, self: Token)
    requires self.Ref? && first.Ch? && !IsBlankToken(first) && values == map[self.name := [first, self]]
    ensures !Settled(values, environ)
  {
    var n, raw := self.name, [first, self];
    OnlyOneName(values, n);
    assert raw[1] == self && RefersTo(values, n, n);
    assert Start(raw) == raw;
    WholePlain(values, environ, n, [first]);
    SelfImage(values, environ, n, self);
    WholeConcat(values, environ, n, [first], [self]);
    OwnWithin(values, n);
    assert [first] + [self] == raw;
    assert |FirstRound(values, environ, n)| == 3;
  }

  lemma OnlyOneName(values: Values, a: string)
    requires values.Keys == {a}
    ensures LoopsOnly(values)
  {
    forall n, m | Reaches(values, n, m) && Reaches(values, m, n) ensures n == m {
      var x := FirstStep(values, n, m);
      var y := FirstStep(values, m, n);
    }
  }

  /** A round over one name that is being resolved already. */
  lemma SeenGivesRaw(values: Values, environ: Environ, t: Text, n: string, seen: set<string>, fuel: nat)
    requires n in values && n in seen && t == [Ref(n, "")]
    ensures Pass(values, environ, t, 1, seen, map[], fuel) == Some(Ran(values[n], map[]))
  {
    var none: Cache := map[];
    assert Value(values, environ, n, seen, none, fuel) == Some(Ran(values[n], none));
    assert Expand(values, environ, t[0], seen, none, fuel) == Some(Ran(values[n], none));
    assert Pass(values, environ, t, 0, seen, none, fuel) == Some(Ran([], none));
    assert Pass(values, environ, t, 1, seen, none, fuel) == Join([], Some(Ran(values[n], none)));
    assert [] + values[n] == values[n];
  }

  /** `A=${B}`, `B=${A}`: while both are being resolved a round only swaps the two references,
      so nothing grows and nothing ever settles. */
  lemma SwapNeverEnds(environ: Environ, names: seq<string>, fuel: nat)
    requires Lists(map["A" := [Ref("B", "")], "B" := [Ref("A", "")]], names)
    ensures
      var values: Values := map["A" := [Ref("B", "")], "B" := [Ref("A", "")]];
      && Pass(values, environ, [Ref("B", "")], 1, {"A", "B"}, map[], fuel) == Some(Ran([Ref("A", "")], map[]))
      && Pass(values, environ, [Ref("A", "")], 1, {"A", "B"}, map[], fuel) == Some(Ran([Ref("B", "")], map[]))
      && !Settled(values, environ) && Everything(values, environ, names, |names|, fuel).None?
  {
    var values: Values := map["A" := [Ref("B", "")], "B" := [Ref("A", "")]];
    assert values["A"][0] == Ref("B", "") && values["B"][0] == Ref("A", "");
    assert Mentions(values["A"], "B") && Mentions(values["B"], "A");
    SeenGivesRaw(values, environ, values["A"], "B", {"A", "B"}, fuel);
    SeenGivesRaw(values, environ, values["B"], "A", {"A", "B"}, fuel);
    ReachesOne(values, "A", "B");
    ReachesOne(values, "B", "A");
    ResolutionEndsIff(values, environ, names);
  }
}
