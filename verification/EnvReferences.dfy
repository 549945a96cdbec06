/** What the `${NAME:-default}` values of a data workflow's environment mean.

    A value is its text cut into plain characters and `${...}` references, so equal token
    sequences are equal texts. `Denote` is the memo-free recursive substitution. It is defined
    on every map whose reference graph has no cycle but self-references. */
module EnvReferences {
  import opened Counting
  import opened PyStrings

  datatype Token = Ch(c: char) | Ref(name: string, fallback: string)

  type Text = seq<Token>
  type Values = map<string, Text>
  type Environ = map<string, string>

  function Plain(s: string): (t: Text)
    ensures |t| == |s| && IsPlain(t)
  {
    seq(|s|, i requires 0 <= i < |s| => Ch(s[i]))
  }

  predicate IsPlain(t: Text) {
    forall i :: 0 <= i < |t| ==> t[i].Ch?
  }

  // ------------------------------------------------------------ where resolution starts

  predicate IsBlankToken(token: Token) {
    token.Ch? && IsBlank(token.c)
  }

  predicate IsQuoted(t: Text) {
    2 <= |t| && t[0] == t[|t| - 1] && (t[0] == Ch('"') || t[0] == Ch('\''))
  }

  /** The text the substitution begins with: no outer blanks, then no matching outer quotes. */
  function Start(raw: Text): Text {
    if raw == [] then []
    else if IsBlankToken(raw[0]) then Start(raw[1..])
    else if IsBlankToken(raw[|raw| - 1]) then Start(raw[..|raw| - 1])
    else if IsQuoted(raw) then raw[1..|raw| - 1]
    else raw
  }

  /** Only plain characters are taken off the ends. */
  lemma {:induction false} StartIsInside(raw: Text) returns (before: Text, after: Text)
    ensures raw == before + Start(raw) + after && IsPlain(before) && IsPlain(after)
  {
    before, after := [], [];
    if raw != [] && IsBlankToken(raw[0]) {
      before, after := StartIsInside(raw[1..]);
      before := [raw[0]] + before;
    } else if raw != [] && IsBlankToken(raw[|raw| - 1]) {
      before, after := StartIsInside(raw[..|raw| - 1]);
      after := after + [raw[|raw| - 1]];
    } else if IsQuoted(raw) {
      before, after := [raw[0]], [raw[|raw| - 1]];
    }
  }

  // ------------------------------------------------------------ the reference graph

  predicate Mentions(t: Text, m: string) {
    exists i :: 0 <= i < |t| && t[i].Ref? && t[i].name == m
  }

  ghost predicate RefersTo(values: Values, n: string, m: string) {
    n in values && m in values && Mentions(values[n], m)
  }

  ghost predicate IsPath(values: Values, path: seq<string>) {
    |path| >= 2 && forall i :: 0 <= i < |path| - 1 ==> RefersTo(values, path[i], path[i + 1])
  }

  ghost predicate Joins(values: Values, path: seq<string>, n: string, m: string) {
    IsPath(values, path) && path[0] == n && path[|path| - 1] == m
  }

  ghost predicate Reaches(values: Values, n: string, m: string) {
    exists path :: Joins(values, path, n, m)
  }

  lemma ReachesOne(values: Values, n: string, m: string)
    requires RefersTo(values, n, m)
    ensures Reaches(values, n, m)
  {
    assert Joins(values, [n, m], n, m);
  }

  lemma ReachesFrom(values: Values, n: string, m: string, k: string)
    requires RefersTo(values, n, m) && Reaches(values, m, k)
    ensures Reaches(values, n, k)
  {
    var path :| Joins(values, path, m, k);
    assert Joins(values, [n] + path, n, k);
  }

  lemma ReachesVia(values: Values, n: string, m: string, k: string)
    requires Reaches(values, n, m) && Reaches(values, m, k)
    ensures Reaches(values, n, k)
  {
    var path, rest :| Joins(values, path, n, m) && Joins(values, rest, m, k);
    var whole := path + rest[1..];
    forall i | 0 <= i < |whole| - 1 ensures RefersTo(values, whole[i], whole[i + 1]) {
      if i >= |path| - 1 {
        assert whole[i] == rest[i - |path| + 1] && whole[i + 1] == rest[i - |path| + 2];
      }
    }
    assert Joins(values, whole, n, k);
  }

  /** The first step of a path. */
  lemma FirstStep(values: Values, n: string, k: string) returns (m: string)
    requires Reaches(values, n, k)
    ensures RefersTo(values, n, m) && (m == k || Reaches(values, m, k))
  {
    var path :| Joins(values, path, n, k);
    m := path[1];
    assert RefersTo(values, path[0], path[0 + 1]);
    if |path| > 2 {
      var rest := path[1..];
      forall i | 0 <= i < |rest| - 1 ensures RefersTo(values, rest[i], rest[i + 1]) {
        assert RefersTo(values, path[i + 1], path[i + 1 + 1]);
      }
      assert Joins(values, rest, m, k);
    }
  }

  ghost predicate Acyclic(values: Values) {
    forall n :: n in values ==> !Reaches(values, n, n)
  }

  /** Every cycle is a variable that refers to itself. */
  ghost predicate LoopsOnly(values: Values) {
    forall n, m :: Reaches(values, n, m) && Reaches(values, m, n) ==> n == m
  }

  lemma AcyclicHasNoLoops(values: Values)
    requires Acyclic(values)
    ensures LoopsOnly(values) && forall n :: !RefersTo(values, n, n)
  {
    forall n, m ensures !(Reaches(values, n, m) && Reaches(values, m, n)) {
      NoReturn(values, n, m);
    }
    forall n ensures !RefersTo(values, n, n) {
      if RefersTo(values, n, n) {
        ReachesOne(values, n, n);
      }
    }
  }

  lemma NoReturn(values: Values, n: string, m: string)
    requires Acyclic(values)
    ensures !(Reaches(values, n, m) && Reaches(values, m, n))
  {
    if Reaches(values, n, m) && Reaches(values, m, n) {
      ReachesVia(values, n, m, n);
      var k := FirstStep(values, n, n);
    }
  }

  ghost function Below(values: Values, n: string): set<string> {
    set m | m in values && m != n && Reaches(values, n, m)
  }

  /** How many other variables a variable depends on: the termination measure. */
  ghost function Rank(values: Values, n: string): nat {
    |Below(values, n)|
  }

  lemma RankDecreases(values: Values, n: string, m: string)
    requires LoopsOnly(values) && RefersTo(values, n, m) && n != m
    ensures Rank(values, m) < Rank(values, n)
  {
    ReachesOne(values, n, m);
    forall k | k in Below(values, m) ensures k in Below(values, n) {
      ReachesFrom(values, n, m, k);
    }
    assert m in Below(values, n) && m !in Below(values, m);
    SmallerSet(Below(values, m), Below(values, n), m);
  }

  lemma SmallerSet(a: set<string>, b: set<string>, x: string)
    requires a <= b && x in b && x !in a
    ensures |a| < |b|
  {
    assert a <= b - {x};
    SubsetSize(a, b - {x});
  }

  ghost predicate Ranks(values: Values, rank: map<string, nat>) {
    rank.Keys == values.Keys && forall n, m :: RefersTo(values, n, m) ==> rank[m] < rank[n]
  }

  /** The measure is not a restriction: exactly the acyclic graphs have one on every reference. */
  lemma AcyclicIffRanked(values: Values)
    ensures Acyclic(values) <==> exists rank: map<string, nat> :: Ranks(values, rank)
  {
    if Acyclic(values) {
      AcyclicHasNoLoops(values);
      var rank := map n | n in values :: Rank(values, n);
      forall n, m | RefersTo(values, n, m) ensures rank[m] < rank[n] {
        RankDecreases(values, n, m);
      }
      assert Ranks(values, rank);
    }
    if rank: map<string, nat> :| Ranks(values, rank) {
      forall n | n in values && Reaches(values, n, n) ensures false {
        var path :| Joins(values, path, n, n);
        PathDescends(values, rank, path, |path| - 1);
      }
    }
  }

  lemma {:induction false} PathDescends(values: Values, rank: map<string, nat>, path: seq<string>, k: nat)
    requires Ranks(values, rank)
    requires IsPath(values, path) && 1 <= k < |path|
    ensures path[0] in rank && path[k] in rank && rank[path[k]] < rank[path[0]]
  {
    assert RefersTo(values, path[k - 1], path[k - 1 + 1]);
    if k > 1 {
      PathDescends(values, rank, path, k - 1);
    }
  }

  // ------------------------------------------------------------ what a value means

  /** A name that may appear while `n` is resolved: itself, or of lower rank. */
  ghost predicate Allowed(values: Values, n: string, m: string) {
    m in values ==> m == n || Rank(values, m) < Rank(values, n)
  }

  ghost predicate Within(values: Values, t: Text, n: string) {
    forall i :: 0 <= i < |t| && t[i].Ref? ==> Allowed(values, n, t[i].name)
  }

  lemma MentionsEither(t: Text, u: Text, m: string)
    ensures Mentions(t + u, m) <==> Mentions(t, m) || Mentions(u, m)
  {
    if Mentions(t, m) {
      var i :| 0 <= i < |t| && t[i].Ref? && t[i].name == m;
      assert (t + u)[i] == t[i];
    }
    if Mentions(u, m) {
      var i :| 0 <= i < |u| && u[i].Ref? && u[i].name == m;
      assert (t + u)[|t| + i] == u[i];
    }
  }

  lemma StartMentions(raw: Text, m: string)
    ensures Mentions(Start(raw), m) <==> Mentions(raw, m)
  {
    var before, after := StartIsInside(raw);
    MentionsEither(before + Start(raw), after, m);
    MentionsEither(before, Start(raw), m);
  }

  lemma OwnWithin(values: Values, n: string)
    requires LoopsOnly(values) && n in values
    ensures Within(values, values[n], n) && Within(values, Start(values[n]), n)
  {
    forall m | m in values && Mentions(values[n], m) ensures Allowed(values, n, m) {
      assert RefersTo(values, n, m);
      if m != n {
        RankDecreases(values, n, m);
      }
    }
    var start := Start(values[n]);
    forall i | 0 <= i < |start| && start[i].Ref? ensures Allowed(values, n, start[i].name) {
      StartMentions(values[n], start[i].name);
    }
  }

  function Lookup(environ: Environ, name: string, fallback: string): string {
    if name in environ then environ[name] else fallback
  }

  ghost function Denote(values: Values, environ: Environ, n: string): Text
    requires LoopsOnly(values) && n in values
    decreases Rank(values, n), |Start(values[n])| + 1
  {
    OwnWithin(values, n);
    if RefersTo(values, n, n) then Start(values[n])
    else Round(values, environ, n, Start(values[n]), |Start(values[n])|)
  }

  /** What a token becomes while `n` is resolved: a reference to `n` itself gives its raw text. */
  ghost function Image(values: Values, environ: Environ, n: string, token: Token): Text
    requires LoopsOnly(values) && n in values && (token.Ref? ==> Allowed(values, n, token.name))
    decreases Rank(values, n), 0
  {
    match token
    case Ch(c) => [token]
    case Ref(m, fallback) =>
      if m == n then values[n]
      else if m in values then Denote(values, environ, m)
      else Plain(Lookup(environ, m, fallback))
  }

  /** The first `k` tokens of `t` after one round of the substitution for `n`. */
  ghost function Round(values: Values, environ: Environ, n: string, t: Text, k: nat): Text
    requires LoopsOnly(values) && n in values && k <= |t| && Within(values, t, n)
    decreases Rank(values, n), k
  {
    if k == 0 then []
    else Round(values, environ, n, t, k - 1) + Image(values, environ, n, t[k - 1])
  }

  ghost function FirstRound(values: Values, environ: Environ, n: string): Text
    requires LoopsOnly(values) && n in values
  {
    OwnWithin(values, n);
    Round(values, environ, n, Start(values[n]), |Start(values[n])|)
  }

  /** A variable that refers to itself must be left as it is by its first round. */
  ghost predicate Stable(values: Values, environ: Environ, n: string)
    requires LoopsOnly(values) && n in values
  {
    RefersTo(values, n, n) ==> FirstRound(values, environ, n) == Start(values[n])
  }

  /** The maps that can be resolved. */
  ghost predicate Settled(values: Values, environ: Environ) {
    LoopsOnly(values) && forall n :: n in values ==> Stable(values, environ, n)
  }

  lemma AcyclicIsSettled(values: Values, environ: Environ)
    requires Acyclic(values)
    ensures Settled(values, environ)
  {
    AcyclicHasNoLoops(values);
  }

  ghost function DenoteAll(values: Values, environ: Environ): map<string, Text>
    requires LoopsOnly(values)
  {
    map n | n in values :: Denote(values, environ, n)
  }

  // ------------------------------------------------------------ the only solution

  /** The first `k` tokens substituted with the values of `answer`, no recursion into them. */
  ghost function Substituted(values: Values, environ: Environ, answer: map<string, Text>, t: Text, k: nat): Text
    requires values.Keys <= answer.Keys && k <= |t|
  {
    if k == 0 then []
    else
      Substituted(values, environ, answer, t, k - 1) + TokenAnswer(values, environ, answer, t[k - 1])
  }

  ghost function TokenAnswer(values: Values, environ: Environ, answer: map<string, Text>, token: Token): Text
    requires values.Keys <= answer.Keys
  {
    match token
    case Ch(c) => [token]
    case Ref(m, fallback) => if m in values then answer[m] else Plain(Lookup(environ, m, fallback))
  }

  ghost predicate SolvesAll(values: Values, environ: Environ, answer: map<string, Text>) {
    answer.Keys == values.Keys &&
    forall n :: n in values ==>
      answer[n] == Substituted(values, environ, answer, Start(values[n]), |Start(values[n])|)
  }

  lemma {:induction false} RoundIsSubstitution(values: Values, environ: Environ, answer: map<string, Text>,
      n: string, t: Text, k: nat)
    requires LoopsOnly(values) && n in values && Within(values, t, n) && k <= |t| && answer.Keys == values.Keys
    requires !Mentions(t, n)
    requires forall m :: m in values && Rank(values, m) < Rank(values, n) ==> answer[m] == Denote(values, environ, m)
    ensures Round(values, environ, n, t, k) == Substituted(values, environ, answer, t, k)
  {
    if k > 0 {
      RoundIsSubstitution(values, environ, answer, n, t, k - 1);
      assert t[k - 1].Ref? ==> Allowed(values, n, t[k - 1].name) && t[k - 1].name != n;
      ImageIsSubstitution(values, environ, answer, n, t[k - 1]);
    }
  }

  lemma ImageIsSubstitution(values: Values, environ: Environ, answer: map<string, Text>, n: string, token: Token)
    requires LoopsOnly(values) && n in values && answer.Keys == values.Keys
    requires token.Ref? ==> Allowed(values, n, token.name) && token.name != n
    requires forall m :: m in values && Rank(values, m) < Rank(values, n) ==> answer[m] == Denote(values, environ, m)
    ensures Image(values, environ, n, token) == TokenAnswer(values, environ, answer, token)
  {}

  /** On an acyclic graph `Denote` solves all the definitions at once, and nothing else does. */
  lemma DenoteIsTheSolution(values: Values, environ: Environ, answer: map<string, Text>)
    requires Acyclic(values)
    ensures LoopsOnly(values)
    ensures SolvesAll(values, environ, answer) <==> answer == DenoteAll(values, environ)
  {
    AcyclicHasNoLoops(values);
    DenoteSolves(values, environ);
    if SolvesAll(values, environ, answer) {
      forall n | n in values ensures answer[n] == Denote(values, environ, n) {
        SolutionIsDenote(values, environ, answer, n);
      }
    }
  }

  lemma NoOwnMention(values: Values, n: string)
    requires n in values && !RefersTo(values, n, n)
    ensures !Mentions(Start(values[n]), n)
  {
    StartMentions(values[n], n);
  }

  lemma DenoteSolves(values: Values, environ: Environ)
    requires LoopsOnly(values) && forall n :: !RefersTo(values, n, n)
    ensures SolvesAll(values, environ, DenoteAll(values, environ))
  {
    var all := DenoteAll(values, environ);
    forall n | n in values
      ensures all[n] == Substituted(values, environ, all, Start(values[n]), |Start(values[n])|)
    {
      OwnWithin(values, n);
      NoOwnMention(values, n);
      RoundIsSubstitution(values, environ, all, n, Start(values[n]), |Start(values[n])|);
    }
  }

  lemma {:induction false} SolutionIsDenote(values: Values, environ: Environ, answer: map<string, Text>, n: string)
    requires LoopsOnly(values) && (forall m :: !RefersTo(values, m, m))
    requires SolvesAll(values, environ, answer) && n in values
    ensures answer[n] == Denote(values, environ, n)
    decreases Rank(values, n)
  {
    forall m | m in values && Rank(values, m) < Rank(values, n) ensures answer[m] == Denote(values, environ, m) {
      SolutionIsDenote(values, environ, answer, m);
    }
    OwnWithin(values, n);
    NoOwnMention(values, n);
    RoundIsSubstitution(values, environ, answer, n, Start(values[n]), |Start(values[n])|);
  }
}
