/** A cycle through two variables or more: no run that enters it ends. */
module ResolverKnots {
  import opened Wrappers
  import opened EnvReferences
  import opened ResolverRuns

  /** Every variable a text mentions is one of `names`. */
  ghost predicate Over(values: Values, t: Text, names: set<string>) {
    forall m {:trigger Mentions(t, m)} :: m in values && Mentions(t, m) ==> m in names
  }

  lemma OverParts(values: Values, t: Text, u: Text, names: set<string>)
    ensures Over(values, t + u, names) <==> Over(values, t, names) && Over(values, u, names)
  {
    forall m ensures Mentions(t + u, m) <==> Mentions(t, m) || Mentions(u, m) {
      MentionsEither(t, u, m);
    }
  }

  lemma TokenOver(values: Values, t: Text, i: nat, names: set<string>)
    requires Over(values, t, names) && i < |t|
    ensures t[i].Ref? && t[i].name in values ==> t[i].name in names
  {
    assert t[i].Ref? ==> Mentions(t, t[i].name);
  }

  /** Nothing in `below` refers out of it. */
  ghost predicate Closed(values: Values, below: set<string>) {
    below <= values.Keys && forall n :: n in below ==> Over(values, values[n], below)
  }

  /** The variables that depend on one another, each on another one than itself, and what is below them. */
  ghost predicate IsKnot(values: Values, knot: set<string>, below: set<string>) {
    && knot <= values.Keys && knot !! below && Closed(values, below)
    && (forall n :: n in knot ==> Over(values, values[n], knot + below) && RefersOn(values, knot, n))
  }

  ghost predicate RefersOn(values: Values, knot: set<string>, n: string) {
    exists m :: m in knot && m != n && RefersTo(values, n, m)
  }

  /** The cache has nothing of the knot, and below it only texts from below. */
  ghost predicate Untied(values: Values, knot: set<string>, below: set<string>, cache: Cache) {
    && cache.Keys <= values.Keys && knot !! cache.Keys
    && forall n :: n in cache && n in below ==> Over(values, cache[n], below)
  }

  // ------------------------------------------------------------ below the knot

  ghost predicate StaysBelow(values: Values, knot: set<string>, below: set<string>, ran: Option<Ran>) {
    ran.Some? ==> Over(values, ran.value.text, below) && Untied(values, knot, below, ran.value.cache)
  }

  lemma {:induction false} ValueBelow(values: Values, environ: Environ, knot: set<string>, below: set<string>,
      n: string, seen: set<string>, cache: Cache, fuel: nat)
    requires IsKnot(values, knot, below) && Untied(values, knot, below, cache) && n in below
    ensures StaysBelow(values, knot, below, Value(values, environ, n, seen, cache, fuel))
    decreases fuel, 0
  {
    if n !in cache && n !in seen && fuel > 0 {
      StartOver(values, n, below);
      LoopBelow(values, environ, knot, below, Start(values[n]), seen + {n}, cache, fuel - 1);
    }
  }

  lemma StartOver(values: Values, n: string, names: set<string>)
    requires n in values && Over(values, values[n], names)
    ensures Over(values, Start(values[n]), names)
  {
    forall m ensures Mentions(Start(values[n]), m) <==> Mentions(values[n], m) {
      StartMentions(values[n], m);
    }
  }

  lemma {:induction false} LoopBelow(values: Values, environ: Environ, knot: set<string>, below: set<string>,
      t: Text, seen: set<string>, cache: Cache, fuel: nat)
    requires IsKnot(values, knot, below) && Untied(values, knot, below, cache) && Over(values, t, below)
    ensures StaysBelow(values, knot, below, Loop(values, environ, t, seen, cache, fuel))
    decreases fuel, 0
  {
    if fuel > 0 {
      PassBelow(values, environ, knot, below, t, |t|, seen, cache, fuel - 1);
      var ran := Pass(values, environ, t, |t|, seen, cache, fuel - 1);
      if ran.Some? && ran.value.text != t {
        LoopBelow(values, environ, knot, below, ran.value.text, seen, ran.value.cache, fuel - 1);
      }
    }
  }

  lemma {:induction false} PassBelow(values: Values, environ: Environ, knot: set<string>, below: set<string>,
      t: Text, k: nat, seen: set<string>, cache: Cache, fuel: nat)
    requires IsKnot(values, knot, below) && Untied(values, knot, below, cache) && Over(values, t, below)
    requires k <= |t|
    ensures StaysBelow(values, knot, below, Pass(values, environ, t, k, seen, cache, fuel))
    decreases fuel, 2 + k
  {
    if k > 0 {
      PassBelow(values, environ, knot, below, t, k - 1, seen, cache, fuel);
      var before := Pass(values, environ, t, k - 1, seen, cache, fuel);
      if before.Some? {
        TokenOver(values, t, k - 1, below);
        ExpandBelow(values, environ, knot, below, t[k - 1], seen, before.value.cache, fuel);
        var next := Expand(values, environ, t[k - 1], seen, before.value.cache, fuel);
        if next.Some? {
          OverParts(values, before.value.text, next.value.text, below);
        }
      }
    }
  }

  lemma {:induction false} ExpandBelow(values: Values, environ: Environ, knot: set<string>, below: set<string>,
      token: Token, seen: set<string>, cache: Cache, fuel: nat)
    requires IsKnot(values, knot, below) && Untied(values, knot, below, cache)
    requires token.Ref? && token.name in values ==> token.name in below
    ensures StaysBelow(values, knot, below, Expand(values, environ, token, seen, cache, fuel))
    decreases fuel, 1
  {
    if token.Ref? && token.name in values {
      ValueBelow(values, environ, knot, below, token.name, seen, cache, fuel);
    }
  }

  // ------------------------------------------------------------ the names of the knot in a text

  /** The mentions of names of the knot, in order. */
  function Letters(t: Text, knot: set<string>): seq<string> {
    if t == [] then [] else Letters(t[..|t| - 1], knot) + Letter(t[|t| - 1], knot)
  }

  function Letter(token: Token, knot: set<string>): seq<string> {
    if token.Ref? && token.name in knot then [token.name] else []
  }

  lemma {:induction false} LettersConcat(t: Text, u: Text, knot: set<string>)
    ensures Letters(t + u, knot) == Letters(t, knot) + Letters(u, knot)
  {
    if u == [] {
      assert t + u == t;
    } else {
      LettersConcat(t, u[..|u| - 1], knot);
      assert (t + u)[..|t + u| - 1] == t + u[..|u| - 1];
    }
  }

  lemma {:induction false} LettersMention(t: Text, knot: set<string>, m: string)
    ensures m in Letters(t, knot) <==> m in knot && Mentions(t, m)
  {
    if t != [] {
      var front, last := t[..|t| - 1], t[|t| - 1];
      LettersMention(front, knot, m);
      assert t == front + [last];
      MentionsEither(front, [last], m);
      assert Mentions([last], m) <==> last.Ref? && last.name == m;
    }
  }

  lemma NoLetters(values: Values, t: Text, knot: set<string>, below: set<string>)
    requires knot <= values.Keys && knot !! below && Over(values, t, below)
    ensures Letters(t, knot) == []
  {
    if Letters(t, knot) != [] {
      LettersMention(t, knot, Letters(t, knot)[0]);
    }
  }

  /** Every letter replaced by those of its raw text. */
  function Unfolded(values: Values, w: seq<string>, knot: set<string>): seq<string>
    requires knot <= values.Keys && forall i :: 0 <= i < |w| ==> w[i] in knot
  {
    if w == [] then [] else Letters(values[w[0]], knot) + Unfolded(values, w[1..], knot)
  }

  lemma {:induction false} UnfoldedConcat(values: Values, w: seq<string>, v: seq<string>, knot: set<string>)
    requires knot <= values.Keys
    requires (forall i :: 0 <= i < |w| ==> w[i] in knot) && forall i :: 0 <= i < |v| ==> v[i] in knot
    ensures Unfolded(values, w + v, knot) == Unfolded(values, w, knot) + Unfolded(values, v, knot)
  {
    if w == [] {
      assert w + v == v;
    } else {
      UnfoldedConcat(values, w[1..], v, knot);
      assert (w + v)[1..] == w[1..] + v;
    }
  }

  lemma {:induction false} UnfoldedLonger(values: Values, w: seq<string>, knot: set<string>, below: set<string>)
    requires IsKnot(values, knot, below) && forall i :: 0 <= i < |w| ==> w[i] in knot
    ensures |Unfolded(values, w, knot)| >= |w|
  {
    if w != [] {
      UnfoldedLonger(values, w[1..], knot, below);
      var m := OtherLetter(values, w[0], knot, below);
    }
  }

  /** A variable of the knot has a letter other than itself. */
  lemma OtherLetter(values: Values, n: string, knot: set<string>, below: set<string>) returns (m: string)
    requires IsKnot(values, knot, below) && n in knot
    ensures m in Letters(values[n], knot) && m != n
  {
    assert RefersOn(values, knot, n);
    m :| m in knot && m != n && RefersTo(values, n, m);
    LettersMention(values[n], knot, m);
  }

  /** A word with letters of the knot never unfolds to itself. */
  lemma NeverItself(values: Values, w: seq<string>, knot: set<string>, below: set<string>)
    requires IsKnot(values, knot, below) && w != [] && forall i :: 0 <= i < |w| ==> w[i] in knot
    ensures Unfolded(values, w, knot) != w
  {
    UnfoldedLonger(values, w[1..], knot, below);
    var m := OtherLetter(values, w[0], knot, below);
    HeadDiffers(Letters(values[w[0]], knot), Unfolded(values, w[1..], knot), w, m);
  }

  lemma HeadDiffers(first: seq<string>, rest: seq<string>, w: seq<string>, m: string)
    requires w != [] && m in first && m != w[0] && |rest| >= |w| - 1
    ensures first + rest != w
  {
    if |first| == 1 {
      assert (first + rest)[0] == m;
    } else {
      assert |first + rest| > |w|;
    }
  }

  // ------------------------------------------------------------ inside the knot

  lemma {:induction false} LettersInKnot(t: Text, knot: set<string>)
    ensures forall i :: 0 <= i < |Letters(t, knot)| ==> Letters(t, knot)[i] in knot
  {
    if t != [] {
      LettersInKnot(t[..|t| - 1], knot);
    }
  }

  /** What a round inside the knot makes of the first `k` tokens, if it ends. */
  ghost predicate Turned(values: Values, knot: set<string>, below: set<string>, t: Text, ran: Option<Ran>)
    requires knot <= values.Keys
  {
    LettersInKnot(t, knot);
    ran.Some? ==>
      && Letters(ran.value.text, knot) == Unfolded(values, Letters(t, knot), knot)
      && Over(values, ran.value.text, knot + below) && Untied(values, knot, below, ran.value.cache)
  }

  /** No run for a variable of the knot ends, unless it is being resolved already. */
  lemma {:induction false} ValueNeverEnds(values: Values, environ: Environ, knot: set<string>, below: set<string>,
      n: string, seen: set<string>, cache: Cache, fuel: nat)
    requires IsKnot(values, knot, below) && Untied(values, knot, below, cache) && n in knot && n !in seen
    ensures Value(values, environ, n, seen, cache, fuel).None?
    decreases fuel, 0
  {
    if fuel > 0 {
      StartIsTied(values, n, knot, below);
      LoopNeverEnds(values, environ, knot, below, Start(values[n]), seen + {n}, cache, fuel - 1);
    }
  }

  /** A text of the knot: it mentions the knot, and nothing but the knot and what is below. */
  ghost predicate Tied(values: Values, knot: set<string>, below: set<string>, t: Text) {
    Over(values, t, knot + below) && Touches(t, knot)
  }

  ghost predicate Touches(t: Text, knot: set<string>) {
    exists m :: m in knot && Mentions(t, m)
  }

  lemma TouchesIffLetters(t: Text, knot: set<string>)
    ensures Touches(t, knot) <==> Letters(t, knot) != []
  {
    if Letters(t, knot) != [] {
      LettersMention(t, knot, Letters(t, knot)[0]);
    }
    if Touches(t, knot) {
      var m :| m in knot && Mentions(t, m);
      LettersMention(t, knot, m);
    }
  }

  lemma StartIsTied(values: Values, n: string, knot: set<string>, below: set<string>)
    requires IsKnot(values, knot, below) && n in knot
    ensures n in values && Tied(values, knot, below, Start(values[n]))
  {
    StartOver(values, n, knot + below);
    assert RefersOn(values, knot, n);
    var m :| m in knot && m != n && RefersTo(values, n, m);
    StartMentions(values[n], m);
  }

  lemma {:induction false} LoopNeverEnds(values: Values, environ: Environ, knot: set<string>, below: set<string>,
      t: Text, seen: set<string>, cache: Cache, fuel: nat)
    requires IsKnot(values, knot, below) && Untied(values, knot, below, cache)
    requires Tied(values, knot, below, t)
    ensures Loop(values, environ, t, seen, cache, fuel).None?
    decreases fuel, 0
  {
    if fuel > 0 {
      var ran := RoundStaysTied(values, environ, knot, below, t, seen, cache, fuel - 1);
      if ran.Some? {
        LoopNeverEnds(values, environ, knot, below, ran.value.text, seen, ran.value.cache, fuel - 1);
      }
    }
  }

  /** A round inside the knot that ends changes the text, and leaves it in the knot. */
  lemma RoundStaysTied(values: Values, environ: Environ, knot: set<string>, below: set<string>,
      t: Text, seen: set<string>, cache: Cache, fuel: nat) returns (ran: Option<Ran>)
    requires IsKnot(values, knot, below) && Untied(values, knot, below, cache) && Tied(values, knot, below, t)
    ensures ran == Pass(values, environ, t, |t|, seen, cache, fuel)
    ensures ran.Some? ==>
      ran.value.text != t && Tied(values, knot, below, ran.value.text) && Untied(values, knot, below, ran.value.cache)
    decreases fuel, 3 + |t|
  {
    ran := Pass(values, environ, t, |t|, seen, cache, fuel);
    PassTurned(values, environ, knot, below, t, |t|, seen, cache, fuel);
    assert t[..|t|] == t;
    if ran.Some? {
      TurnedChanges(values, knot, below, t, ran.value);
    }
  }

  lemma TurnedChanges(values: Values, knot: set<string>, below: set<string>, t: Text, ran: Ran)
    requires IsKnot(values, knot, below) && Turned(values, knot, below, t, Some(ran)) && Touches(t, knot)
    ensures ran.text != t && Tied(values, knot, below, ran.text) && Untied(values, knot, below, ran.cache)
  {
    TouchesIffLetters(t, knot);
    TouchesIffLetters(ran.text, knot);
    LettersInKnot(t, knot);
    NeverItself(values, Letters(t, knot), knot, below);
    UnfoldedLonger(values, Letters(t, knot), knot, below);
  }

  lemma {:induction false} PassTurned(values: Values, environ: Environ, knot: set<string>, below: set<string>,
      t: Text, k: nat, seen: set<string>, cache: Cache, fuel: nat)
    requires IsKnot(values, knot, below) && Untied(values, knot, below, cache) && Over(values, t, knot + below)
    requires k <= |t|
    ensures Turned(values, knot, below, t[..k], Pass(values, environ, t, k, seen, cache, fuel))
    decreases fuel, 2 + k
  {
    if k > 0 {
      PassTurned(values, environ, knot, below, t, k - 1, seen, cache, fuel);
      var before := Pass(values, environ, t, k - 1, seen, cache, fuel);
      if before.Some? {
        TokenOver(values, t, k - 1, knot + below);
        ExpandTurned(values, environ, knot, below, t[k - 1], seen, before.value.cache, fuel);
        var next := Expand(values, environ, t[k - 1], seen, before.value.cache, fuel);
        TurnedNext(values, knot, below, t, k, before.value, next);
      }
    }
  }

  lemma TurnedNext(values: Values, knot: set<string>, below: set<string>, t: Text, k: nat, before: Ran,
      next: Option<Ran>)
    requires IsKnot(values, knot, below) && 0 < k <= |t|
    requires Turned(values, knot, below, t[..k - 1], Some(before)) && Turned(values, knot, below, [t[k - 1]], next)
    ensures Turned(values, knot, below, t[..k], Join(before.text, next))
  {
    assert t[..k] == t[..k - 1] + [t[k - 1]];
    if next.Some? {
      TurnedBoth(values, knot, below, t[..k - 1], t[k - 1], before, next.value);
    }
  }

  lemma TurnedBoth(values: Values, knot: set<string>, below: set<string>, t: Text, token: Token, before: Ran, next: Ran)
    requires IsKnot(values, knot, below)
    requires Turned(values, knot, below, t, Some(before)) && Turned(values, knot, below, [token], Some(next))
    ensures Turned(values, knot, below, t + [token], Some(Ran(before.text + next.text, next.cache)))
  {
    LettersConcat(t, [token], knot);
    LettersInKnot(t, knot);
    LettersInKnot([token], knot);
    LettersConcat(before.text, next.text, knot);
    UnfoldedConcat(values, Letters(t, knot), Letters([token], knot), knot);
    OverParts(values, before.text, next.text, knot + below);
  }

  lemma {:induction false} ExpandTurned(values: Values, environ: Environ, knot: set<string>, below: set<string>,
      token: Token, seen: set<string>, cache: Cache, fuel: nat)
    requires IsKnot(values, knot, below) && Untied(values, knot, below, cache)
    requires token.Ref? && token.name in values ==> token.name in knot + below
    ensures Turned(values, knot, below, [token], Expand(values, environ, token, seen, cache, fuel))
    decreases fuel, 1
  {
    assert Letters([token], knot) == Letter(token, knot);
    if token.Ref? && token.name in knot {
      assert Unfolded(values, [token.name], knot) == Letters(values[token.name], knot);
      if token.name !in seen {
        ValueNeverEnds(values, environ, knot, below, token.name, seen, cache, fuel);
      }
    } else {
      ExpandBelow(values, environ, knot, below, token, seen, cache, fuel);
      var ran := Expand(values, environ, token, seen, cache, fuel);
      if ran.Some? {
        NoLetters(values, ran.value.text, knot, below);
      }
    }
  }
}
