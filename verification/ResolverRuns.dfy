/** What `_resolve_data_workflow_environment` does on any map, counted in steps of `fuel`, and on
    which maps it ends. `None` says that the fuel ran out. */
module ResolverRuns {
  import opened Wrappers
  import opened EnvReferences
  import opened ResolverRounds

  type Cache = map<string, Text>

  datatype Ran = Ran(text: Text, cache: Cache)

  function RawText(values: Values, name: string): Text {
    if name in values then values[name] else []
  }

  /** `_resolve_value`. */
  function Value(values: Values, environ: Environ, name: string, seen: set<string>, cache: Cache,
      fuel: nat): Option<Ran>
    decreases fuel, 0
  {
    if name in cache then Some(Ran(cache[name], cache))
    else if name in seen then Some(Ran(RawText(values, name), cache))
    else if fuel == 0 then None
    else Remember(name, Loop(values, environ, Start(RawText(values, name)), seen + {name}, cache, fuel - 1))
  }

  function Remember(name: string, ran: Option<Ran>): Option<Ran> {
    if ran.None? then None else Some(Ran(ran.value.text, ran.value.cache[name := ran.value.text]))
  }

  /** The fixpoint loop, from a round on `text` that has yet to be made. */
  function Loop(values: Values, environ: Environ, text: Text, seen: set<string>, cache: Cache, fuel: nat): Option<Ran>
    decreases fuel, 0
  {
    if fuel == 0 then None
    else
      var ran := Pass(values, environ, text, |text|, seen, cache, fuel - 1);
      if ran.None? || ran.value.text == text then ran
      else Loop(values, environ, ran.value.text, seen, ran.value.cache, fuel - 1)
  }

  /** The first `k` tokens of one round. */
  function Pass(values: Values, environ: Environ, text: Text, k: nat, seen: set<string>, cache: Cache,
      fuel: nat): Option<Ran>
    requires k <= |text|
    decreases fuel, 2 + k
  {
    if k == 0 then Some(Ran([], cache))
    else
      var before := Pass(values, environ, text, k - 1, seen, cache, fuel);
      if before.None? then None
      else
        Join(before.value.text, Expand(values, environ, text[k - 1], seen, before.value.cache, fuel))
  }

  function Join(before: Text, next: Option<Ran>): Option<Ran> {
    if next.None? then None else Some(Ran(before + next.value.text, next.value.cache))
  }

  /** One token; `_resolve_expr` for a reference. */
  function Expand(values: Values, environ: Environ, token: Token, seen: set<string>, cache: Cache,
      fuel: nat): Option<Ran>
    decreases fuel, 1
  {
    match token
    case Ch(c) => Some(Ran([token], cache))
    case Ref(name, fallback) =>
      if name in cache then Some(Ran(cache[name], cache))
      else if name in values then Value(values, environ, name, seen, cache, fuel)
      else Some(Ran(Plain(Lookup(environ, name, fallback)), cache))
  }

  datatype AllRan = AllRan(result: map<string, Text>, cache: Cache)

  /** The first `k` of all variables, each with a `seen` set of its own. */
  function Everything(values: Values, environ: Environ, names: seq<string>, k: nat, fuel: nat): Option<AllRan>
    requires k <= |names|
  {
    if k == 0 then Some(AllRan(map[], map[]))
    else
      var before := Everything(values, environ, names, k - 1, fuel);
      if before.None? then None
      else
        Record(before.value.result, names[k - 1], Value(values, environ, names[k - 1], {}, before.value.cache, fuel))
  }

  function Record(result: map<string, Text>, name: string, ran: Option<Ran>): Option<AllRan> {
    if ran.None? then None else Some(AllRan(result[name := ran.value.text], ran.value.cache))
  }

  // ------------------------------------------------------------ when every cycle is a self-reference

  /** Every cache entry is already the denoted value of a fine name. */
  ghost predicate CacheSound(values: Values, environ: Environ, cache: Cache)
    requires LoopsOnly(values)
  {
    forall n :: n in cache ==> n in values && cache[n] == Denote(values, environ, n) && Fine(values, environ, n)
  }

  /** The names being resolved all depend on those of rank at most `rank`. */
  ghost predicate SeenAbove(values: Values, seen: set<string>, rank: nat) {
    forall s :: s in seen ==> rank <= Rank(values, s)
  }

  /** Only names below `rank` were added. */
  ghost predicate AddsBelow(values: Values, cache: Cache, larger: Cache, rank: nat) {
    forall n :: n in larger ==> n in cache || Rank(values, n) < rank
  }

  /** The fuel that is enough for names below a rank. */
  function Enough(rank: nat): nat {
    3 * rank
  }

  /** A run for a name gives what it denotes, if it ends; and it ends on a settled map. */
  lemma {:induction false} ValueRuns(values: Values, environ: Environ, n: string, seen: set<string>, cache: Cache,
      fuel: nat)
    requires LoopsOnly(values) && n in values && CacheSound(values, environ, cache)
    requires SeenAbove(values, seen, Rank(values, n) + 1)
    ensures
      var ran := Value(values, environ, n, seen, cache, fuel);
      && (Settled(values, environ) && fuel >= Enough(Rank(values, n) + 1) ==> ran.Some?)
      && (ran.Some? ==>
            && ran.value.text == Denote(values, environ, n) && Fine(values, environ, n)
            && CacheSound(values, environ, ran.value.cache)
            && AddsBelow(values, cache, ran.value.cache, Rank(values, n) + 1))
    decreases fuel, 0
  {
    if n !in cache && fuel > 0 {
      LoopRuns(values, environ, n, seen + {n}, cache, fuel - 1);
    }
  }

  /** One token of a text that is met while `n` is resolved. */
  lemma {:induction false} ExpandRuns(values: Values, environ: Environ, n: string, token: Token, seen: set<string>,
      cache: Cache, fuel: nat)
    requires LoopsOnly(values) && n in values && CacheSound(values, environ, cache) && n !in cache
    requires n in seen && SeenAbove(values, seen, Rank(values, n))
    requires token.Ref? ==> Allowed(values, n, token.name)
    ensures
      var ran := Expand(values, environ, token, seen, cache, fuel);
      && (Settled(values, environ) && fuel >= Enough(Rank(values, n)) ==> ran.Some?)
      && (ran.Some? ==>
            && ran.value.text == Image(values, environ, n, token)
            && (token.Ref? && token.name in values && token.name != n ==> Fine(values, environ, token.name))
            && CacheSound(values, environ, ran.value.cache)
            && AddsBelow(values, cache, ran.value.cache, Rank(values, n)))
    decreases fuel, 1
  {
    if token.Ref? && token.name in values && token.name != n {
      ValueRuns(values, environ, token.name, seen, cache, fuel);
    }
  }

  /** What one round does, if it ends. */
  ghost predicate RoundDone(values: Values, environ: Environ, n: string, t: Text, k: nat, cache: Cache, ran: Ran)
    requires LoopsOnly(values) && n in values && k <= |t| && Within(values, t, n)
  {
    && ran.text == Round(values, environ, n, t, k) && RefsFine(values, environ, t[..k], n)
    && CacheSound(values, environ, ran.cache) && AddsBelow(values, cache, ran.cache, Rank(values, n))
  }

  lemma {:induction false} PassRuns(values: Values, environ: Environ, n: string, t: Text, k: nat, seen: set<string>,
      cache: Cache, fuel: nat)
    requires LoopsOnly(values) && n in values && CacheSound(values, environ, cache) && n !in cache
    requires n in seen && SeenAbove(values, seen, Rank(values, n))
    requires k <= |t| && Within(values, t, n)
    ensures
      var ran := Pass(values, environ, t, k, seen, cache, fuel);
      && (Settled(values, environ) && fuel >= Enough(Rank(values, n)) ==> ran.Some?)
      && (ran.Some? ==> RoundDone(values, environ, n, t, k, cache, ran.value))
    decreases fuel, 2 + k
  {
    if k > 0 {
      PassRuns(values, environ, n, t, k - 1, seen, cache, fuel);
      var before := Pass(values, environ, t, k - 1, seen, cache, fuel);
      if before.Some? {
        ExpandRuns(values, environ, n, t[k - 1], seen, before.value.cache, fuel);
        RefsFineNext(values, environ, t, k, n);
      }
    }
  }

  lemma RefsFineNext(values: Values, environ: Environ, t: Text, k: nat, n: string)
    requires LoopsOnly(values) && 0 < k <= |t| && RefsFine(values, environ, t[..k - 1], n)
    ensures
      (t[k - 1].Ref? && t[k - 1].name in values && t[k - 1].name != n ==> Fine(values, environ, t[k - 1].name)) ==>
      RefsFine(values, environ, t[..k], n)
  {
    assert t[..k] == t[..k - 1] + [t[k - 1]];
    forall m ensures Mentions(t[..k], m) <==> Mentions(t[..k - 1], m) || Mentions([t[k - 1]], m) {
      MentionsEither(t[..k - 1], [t[k - 1]], m);
    }
  }

  /** `n` is being resolved, with a sound cache. */
  ghost predicate Resolving(values: Values, environ: Environ, n: string, seen: set<string>, cache: Cache)
    requires LoopsOnly(values)
  {
    && n in values && n in seen && n !in cache
    && CacheSound(values, environ, cache) && SeenAbove(values, seen, Rank(values, n))
  }

  ghost predicate WholeDone(values: Values, environ: Environ, n: string, t: Text, seen: set<string>, cache: Cache,
      ran: Ran)
    requires LoopsOnly(values) && n in values && Within(values, t, n)
  {
    && ran.text == Whole(values, environ, n, t) && RefsFine(values, environ, t, n)
    && Resolving(values, environ, n, seen, ran.cache) && AddsBelow(values, cache, ran.cache, Rank(values, n))
  }

  lemma WholePassRuns(values: Values, environ: Environ, n: string, t: Text, seen: set<string>, cache: Cache, fuel: nat)
    returns (ran: Option<Ran>)
    requires LoopsOnly(values) && Resolving(values, environ, n, seen, cache) && Within(values, t, n)
    ensures ran == Pass(values, environ, t, |t|, seen, cache, fuel)
    ensures Settled(values, environ) && fuel >= Enough(Rank(values, n)) ==> ran.Some?
    ensures ran.Some? ==> WholeDone(values, environ, n, t, seen, cache, ran.value)
    decreases fuel, 3 + |t|
  {
    ran := Pass(values, environ, t, |t|, seen, cache, fuel);
    PassRuns(values, environ, n, t, |t|, seen, cache, fuel);
    assert t[..|t|] == t;
  }

  /** A loop that ends gives what the name denotes, and with ample fuel it ends. */
  ghost predicate LoopOk(values: Values, environ: Environ, n: string, cache: Cache, ran: Option<Ran>, ample: bool)
    requires LoopsOnly(values) && n in values
  {
    (ample && Settled(values, environ) ==> ran.Some?) && (ran.Some? ==> LoopDone(values, environ, n, cache, ran.value))
  }

  ghost predicate LoopDone(values: Values, environ: Environ, n: string, cache: Cache, ran: Ran)
    requires LoopsOnly(values) && n in values
  {
    && ran.text == Denote(values, environ, n) && Fine(values, environ, n)
    && CacheSound(values, environ, ran.cache) && AddsBelow(values, cache, ran.cache, Rank(values, n))
  }

  lemma {:induction false} LoopRuns(values: Values, environ: Environ, n: string, seen: set<string>, cache: Cache,
      fuel: nat)
    requires LoopsOnly(values) && Resolving(values, environ, n, seen, cache)
    ensures LoopOk(values, environ, n, cache, Loop(values, environ, Start(values[n]), seen, cache, fuel),
                   fuel >= Enough(Rank(values, n)) + 2)
    decreases fuel, 0
  {
    var start := Start(values[n]);
    OwnWithin(values, n);
    if fuel > 0 {
      var first := WholePassRuns(values, environ, n, start, seen, cache, fuel - 1);
      if first.Some? {
        if first.value.text == start {
          UnchangedRuns(values, environ, n, seen, cache, first.value);
        } else {
          ChangedRuns(values, environ, n, seen, first.value.cache, fuel - 1);
          var rest := Loop(values, environ, first.value.text, seen, first.value.cache, fuel - 1);
          AddsOn(values, environ, n, cache, first.value.cache, rest, fuel >= Enough(Rank(values, n)) + 2);
        }
      }
    }
  }

  lemma AddsOn(values: Values, environ: Environ, n: string, cache: Cache, larger: Cache, ran: Option<Ran>, ample: bool)
    requires LoopsOnly(values) && n in values && AddsBelow(values, cache, larger, Rank(values, n))
    requires LoopOk(values, environ, n, larger, ran, ample)
    ensures LoopOk(values, environ, n, cache, ran, ample)
  {}

  lemma UnchangedRuns(values: Values, environ: Environ, n: string, seen: set<string>, cache: Cache, ran: Ran)
    requires LoopsOnly(values) && n in values && Within(values, Start(values[n]), n)
    requires WholeDone(values, environ, n, Start(values[n]), seen, cache, ran) && ran.text == Start(values[n])
    ensures LoopDone(values, environ, n, cache, ran)
  {
    NamesFine(values, environ, n);
  }

  /** With the names it mentions fine, a name is fine unless it refers to itself and changes. */
  lemma NamesFine(values: Values, environ: Environ, n: string)
    requires LoopsOnly(values) && n in values
    ensures RefsFine(values, environ, Start(values[n]), n) && Stable(values, environ, n) ==> Fine(values, environ, n)
  {
    if RefsFine(values, environ, Start(values[n]), n) && Stable(values, environ, n) {
      forall m | RefersTo(values, n, m) && m != n ensures Fine(values, environ, m) {
        StartMentions(values[n], m);
      }
      FineAbove(values, environ, n);
    }
  }

  /** The loop after a first round that changed something. */
  lemma ChangedRuns(values: Values, environ: Environ, n: string, seen: set<string>, cache: Cache, fuel: nat)
    requires LoopsOnly(values) && Resolving(values, environ, n, seen, cache)
    requires FirstRound(values, environ, n) != Start(values[n]) && RefsFine(values, environ, Start(values[n]), n)
    ensures LoopOk(values, environ, n, cache, Loop(values, environ, FirstRound(values, environ, n), seen, cache, fuel),
                   fuel >= Enough(Rank(values, n)) + 1)
    decreases fuel, 1
  {
    NamesFine(values, environ, n);
    if RefersTo(values, n, n) {
      OwnWithin(values, n);
      StartMentions(values[n], n);
      WholeGrows(values, environ, n, Start(values[n]));
      Diverges(values, environ, n, FirstRound(values, environ, n), seen, cache, fuel);
    } else {
      SecondRound(values, environ, n, seen, cache, fuel);
    }
  }

  /** A text that each further round makes longer. */
  ghost predicate Growing(values: Values, environ: Environ, n: string, t: Text)
    requires LoopsOnly(values) && n in values
  {
    Within(values, t, n) && Mentions(t, n) && |Whole(values, environ, n, t)| > |t|
  }

  lemma GrowsOn(values: Values, environ: Environ, n: string, t: Text)
    requires LoopsOnly(values) && RefersTo(values, n, n) && !Stable(values, environ, n)
    requires Growing(values, environ, n, t) && RefsFine(values, environ, t, n)
    ensures Growing(values, environ, n, Whole(values, environ, n, t)) && Whole(values, environ, n, t) != t
  {
    WholeGrows(values, environ, n, t);
  }

  /** A changing self-reference: every round is longer than the one before. */
  lemma {:induction false} Diverges(values: Values, environ: Environ, n: string, t: Text, seen: set<string>,
      cache: Cache, fuel: nat)
    requires LoopsOnly(values) && RefersTo(values, n, n) && !Stable(values, environ, n)
    requires Resolving(values, environ, n, seen, cache) && Growing(values, environ, n, t)
    ensures Loop(values, environ, t, seen, cache, fuel).None?
    decreases fuel, 0
  {
    if fuel > 0 {
      var ran := WholePassRuns(values, environ, n, t, seen, cache, fuel - 1);
      if ran.Some? {
        GrowsOn(values, environ, n, t);
        Diverges(values, environ, n, ran.value.text, seen, ran.value.cache, fuel - 1);
      }
    }
  }

  /** Without a self-reference the second round changes nothing. */
  lemma {:induction false} SecondRound(values: Values, environ: Environ, n: string, seen: set<string>, cache: Cache,
      fuel: nat)
    requires LoopsOnly(values) && !RefersTo(values, n, n) && Resolving(values, environ, n, seen, cache)
    requires Fine(values, environ, n)
    ensures LoopOk(values, environ, n, cache, Loop(values, environ, Denote(values, environ, n), seen, cache, fuel),
                   fuel >= Enough(Rank(values, n)) + 1)
    decreases fuel, 0
  {
    DenoteIsFixed(values, environ, n);
    if fuel > 0 {
      var ran := WholePassRuns(values, environ, n, Denote(values, environ, n), seen, cache, fuel - 1);
    }
  }

  lemma DenoteIsFixed(values: Values, environ: Environ, n: string)
    requires LoopsOnly(values) && n in values && !RefersTo(values, n, n) && Fine(values, environ, n)
    ensures Within(values, Denote(values, environ, n), n)
    ensures Whole(values, environ, n, Denote(values, environ, n)) == Denote(values, environ, n)
  {
    var start := Start(values[n]);
    OwnWithin(values, n);
    NoOwnMention(values, n);
    FineRefs(values, environ, n);
    FineRoundIsFixed(values, environ, n, n, start, |start|);
  }
}
