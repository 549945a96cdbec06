/** The resolved values read off the map and the environment directly: which source each
    reference takes its text from, and when its default plays no part. */
module EnvMeaning {
  import opened PyStrings
  import opened EnvReferences

  // ------------------------------------------------------------ where substitution begins

  predicate Blank(token: Token) {
    token.Ch? && IsBlank(token.c)
  }

  ghost predicate AllBlank(t: Text) {
    forall i :: 0 <= i < |t| ==> Blank(t[i])
  }

  /** What is left of `core`: without a pair of the same quotes around it, if it has one. */
  predicate Inside(core: Text, start: Text) {
    if 2 <= |core| && core[0] == core[|core| - 1] && (core[0] == Ch('"') || core[0] == Ch('\''))
    then start == core[1..|core| - 1]
    else start == core
  }

  /** `core` is the text between the outer blanks. */
  ghost predicate Between(raw: Text, before: Text, core: Text, after: Text) {
    && raw == before + core + after && AllBlank(before) && AllBlank(after)
    && (core != [] ==> !Blank(core[0]) && !Blank(core[|core| - 1]))
  }

  lemma BetweenFront(raw: Text, before: Text, core: Text, after: Text)
    requires raw != [] && Blank(raw[0]) && Between(raw[1..], before, core, after)
    ensures Between(raw, [raw[0]] + before, core, after)
  {
    assert raw == [raw[0]] + raw[1..];
  }

  lemma BetweenBack(raw: Text, before: Text, core: Text, after: Text)
    requires raw != [] && Blank(raw[|raw| - 1]) && Between(raw[..|raw| - 1], before, core, after)
    ensures Between(raw, before, core, after + [raw[|raw| - 1]])
  {
    assert raw == raw[..|raw| - 1] + [raw[|raw| - 1]];
  }

  /** The substitution begins with the text between the outer blanks, and if that stands in a pair
      of the same quotes, with what is between them; one pair only, and no blanks inside it. */
  lemma {:induction false} StartShape(raw: Text) returns (before: Text, core: Text, after: Text)
    ensures Between(raw, before, core, after) && Inside(core, Start(raw))
    decreases |raw|
  {
    if raw == [] {
      before, core, after := [], [], [];
    } else if Blank(raw[0]) {
      before, core, after := StartShape(raw[1..]);
      BetweenFront(raw, before, core, after);
      before := [raw[0]] + before;
    } else if Blank(raw[|raw| - 1]) {
      before, core, after := StartShape(raw[..|raw| - 1]);
      BetweenBack(raw, before, core, after);
      after := after + [raw[|raw| - 1]];
    } else {
      before, core, after := [], raw, [];
    }
  }

  // ------------------------------------------------------------ the source of each reference

  predicate Spells(text: Text, s: string) {
    |text| == |s| && forall i :: 0 <= i < |s| ==> text[i] == Ch(s[i])
  }

  /** A character stands for itself; a reference for the variable of that name, else for the
      process environment's, else for its default. */
  ghost predicate Means(values: Values, environ: Environ, answer: map<string, Text>, token: Token, text: Text)
    requires values.Keys <= answer.Keys
  {
    match token
    case Ch(c) => text == [Ch(c)]
    case Ref(m, fallback) =>
      && (m in values ==> text == answer[m])
      && (m !in values && m in environ ==> Spells(text, environ[m]))
      && (m !in values && m !in environ ==> Spells(text, fallback))
  }

  ghost predicate AllMean(values: Values, environ: Environ, answer: map<string, Text>, t: Text, pieces: seq<Text>)
    requires values.Keys <= answer.Keys
  {
    |pieces| == |t| && forall i :: 0 <= i < |t| ==> Means(values, environ, answer, t[i], pieces[i])
  }

  function Flat(pieces: seq<Text>): Text {
    if pieces == [] then [] else Flat(pieces[..|pieces| - 1]) + pieces[|pieces| - 1]
  }

  /** The answer for `n` is its text with each token replaced by what it means; a variable that
      refers to itself is left as it is. */
  ghost predicate Reads(values: Values, environ: Environ, answer: map<string, Text>, n: string)
    requires values.Keys <= answer.Keys && n in values
  {
    if RefersTo(values, n, n) then answer[n] == Start(values[n])
    else exists pieces :: AllMean(values, environ, answer, Start(values[n]), pieces) && answer[n] == Flat(pieces)
  }

  lemma ImageMeans(values: Values, environ: Environ, n: string, token: Token)
    requires LoopsOnly(values) && n in values && (token.Ref? ==> Allowed(values, n, token.name) && token.name != n)
    ensures Means(values, environ, DenoteAll(values, environ), token, Image(values, environ, n, token))
  {}

  lemma {:induction false} RoundMeans(values: Values, environ: Environ, n: string, t: Text, k: nat)
    returns (pieces: seq<Text>)
    requires LoopsOnly(values) && n in values && Within(values, t, n) && k <= |t| && !Mentions(t, n)
    ensures AllMean(values, environ, DenoteAll(values, environ), t[..k], pieces)
    ensures Round(values, environ, n, t, k) == Flat(pieces)
  {
    if k == 0 {
      pieces := [];
    } else {
      var before := RoundMeans(values, environ, n, t, k - 1);
      assert t[k - 1].Ref? ==> Allowed(values, n, t[k - 1].name) && t[k - 1].name != n;
      ImageMeans(values, environ, n, t[k - 1]);
      pieces := before + [Image(values, environ, n, t[k - 1])];
      assert pieces[..k - 1] == before;
      forall i | 0 <= i < k ensures Means(values, environ, DenoteAll(values, environ), t[..k][i], pieces[i]) {
        assert i < k - 1 ==> t[..k - 1][i] == t[i];
      }
    }
  }

  /** On every map without longer cycles what is denoted reads like this. */
  lemma DenoteReads(values: Values, environ: Environ, n: string)
    requires LoopsOnly(values) && n in values
    ensures Reads(values, environ, DenoteAll(values, environ), n)
  {
    if !RefersTo(values, n, n) {
      var t := Start(values[n]);
      OwnWithin(values, n);
      NoOwnMention(values, n);
      var pieces := RoundMeans(values, environ, n, t, |t|);
      assert t[..|t|] == t;
    }
  }

  /** An answer for every variable, each of which reads like this. */
  ghost predicate Answers(values: Values, environ: Environ, answer: map<string, Text>) {
    answer.Keys == values.Keys && forall n :: n in values ==> Reads(values, environ, answer, n)
  }

  lemma DenoteAnswers(values: Values, environ: Environ)
    requires LoopsOnly(values)
    ensures Answers(values, environ, DenoteAll(values, environ))
  {
    forall n | n in values ensures Reads(values, environ, DenoteAll(values, environ), n) {
      DenoteReads(values, environ, n);
    }
  }

  // ------------------------------------------------------------ defaults that play no part

  /** The same text but for defaults of the given names. */
  ghost predicate Similar(t: Text, u: Text, names: set<string>) {
    |t| == |u| && forall i :: 0 <= i < |t| ==> SimilarToken(t[i], u[i], names)
  }

  ghost predicate SimilarToken(a: Token, b: Token, names: set<string>) {
    a == b || (a.Ref? && b.Ref? && a.name == b.name && a.name in names)
  }

  /** The same map but for defaults of names in the map or in the environment, in variables that
      do not refer to themselves. */
  ghost predicate SameButDefaults(values: Values, other: Values, environ: Environ) {
    && values.Keys == other.Keys
    && (forall n :: n in values ==> Similar(values[n], other[n], values.Keys + environ.Keys))
    && (forall n :: n in values && Mentions(values[n], n) ==> values[n] == other[n])
  }

  lemma SimilarMentions(t: Text, u: Text, names: set<string>, m: string)
    requires Similar(t, u, names)
    ensures Mentions(t, m) <==> Mentions(u, m)
  {
    if Mentions(t, m) {
      var i :| 0 <= i < |t| && t[i].Ref? && t[i].name == m;
      assert SimilarToken(t[i], u[i], names);
    }
    if Mentions(u, m) {
      var i :| 0 <= i < |u| && u[i].Ref? && u[i].name == m;
      assert SimilarToken(t[i], u[i], names);
    }
  }

  lemma SameReferences(values: Values, other: Values, environ: Environ, n: string, m: string)
    requires SameButDefaults(values, other, environ)
    ensures RefersTo(values, n, m) <==> RefersTo(other, n, m)
  {
    if n in values {
      SimilarMentions(values[n], other[n], values.Keys + environ.Keys, m);
    }
  }

  lemma SamePaths(values: Values, other: Values, environ: Environ, n: string, m: string)
    requires SameButDefaults(values, other, environ)
    ensures Reaches(values, n, m) <==> Reaches(other, n, m)
  {
    forall path: seq<string> ensures Joins(values, path, n, m) <==> Joins(other, path, n, m) {
      forall i | 0 <= i < |path| - 1
        ensures RefersTo(values, path[i], path[i + 1]) <==> RefersTo(other, path[i], path[i + 1])
      {
        SameReferences(values, other, environ, path[i], path[i + 1]);
      }
    }
  }

  lemma SameGraph(values: Values, other: Values, environ: Environ)
    requires SameButDefaults(values, other, environ)
    ensures LoopsOnly(values) <==> LoopsOnly(other)
    ensures forall n :: Rank(values, n) == Rank(other, n)
  {
    forall n, m ensures Reaches(values, n, m) <==> Reaches(other, n, m) {
      SamePaths(values, other, environ, n, m);
    }
    forall n ensures Rank(values, n) == Rank(other, n) {
      assert Below(values, n) == Below(other, n);
    }
  }

  lemma {:induction false} StartSimilar(t: Text, u: Text, names: set<string>)
    requires Similar(t, u, names)
    ensures Similar(Start(t), Start(u), names)
    decreases |t|
  {
    if t != [] {
      assert SimilarToken(t[0], u[0], names) && SimilarToken(t[|t| - 1], u[|u| - 1], names);
      if IsBlankToken(t[0]) {
        StartSimilar(t[1..], u[1..], names);
      } else if IsBlankToken(t[|t| - 1]) {
        StartSimilar(t[..|t| - 1], u[..|u| - 1], names);
      }
    }
  }

  /** Names of lower rank denote the same on both maps. */
  ghost predicate LowerSame(values: Values, other: Values, environ: Environ, n: string)
    requires LoopsOnly(values) && LoopsOnly(other) && values.Keys == other.Keys
  {
    forall m :: m in values && Rank(values, m) < Rank(values, n) ==>
      Denote(values, environ, m) == Denote(other, environ, m)
  }

  lemma ImageSame(values: Values, other: Values, environ: Environ, n: string, a: Token, b: Token)
    requires LoopsOnly(values) && LoopsOnly(other) && values.Keys == other.Keys && n in values
    requires LowerSame(values, other, environ, n) && SimilarToken(a, b, values.Keys + environ.Keys)
    requires a.Ref? ==> Allowed(values, n, a.name) && Allowed(other, n, a.name)
    requires a.Ref? && a.name == n ==> values[n] == other[n]
    ensures Image(values, environ, n, a) == Image(other, environ, n, b)
  {}

  lemma {:induction false} RoundSame(values: Values, other: Values, environ: Environ, n: string, t: Text, u: Text,
      k: nat)
    requires LoopsOnly(values) && LoopsOnly(other) && values.Keys == other.Keys && n in values
    requires LowerSame(values, other, environ, n) && Within(values, t, n) && Within(other, u, n) && k <= |t|
    requires Similar(t, u, values.Keys + environ.Keys) && (Mentions(t, n) ==> values[n] == other[n])
    ensures Round(values, environ, n, t, k) == Round(other, environ, n, u, k)
  {
    if k > 0 {
      RoundSame(values, other, environ, n, t, u, k - 1);
      var a, b := t[k - 1], u[k - 1];
      assert SimilarToken(a, b, values.Keys + environ.Keys);
      assert a.Ref? ==> Allowed(values, n, a.name) && Allowed(other, n, b.name);
      ImageSame(values, other, environ, n, a, b);
    }
  }

  lemma {:induction false} DenoteSame(values: Values, other: Values, environ: Environ, n: string)
    requires SameButDefaults(values, other, environ) && LoopsOnly(values) && LoopsOnly(other) && n in values
    ensures Denote(values, environ, n) == Denote(other, environ, n)
    ensures Stable(values, environ, n) <==> Stable(other, environ, n)
    decreases Rank(values, n)
  {
    forall m | m in values && Rank(values, m) < Rank(values, n)
      ensures Denote(values, environ, m) == Denote(other, environ, m)
    {
      DenoteSame(values, other, environ, m);
    }
    OwnWithin(values, n);
    OwnWithin(other, n);
    SameReferences(values, other, environ, n, n);
    StartSimilar(values[n], other[n], values.Keys + environ.Keys);
    StartMentions(values[n], n);
    RoundSame(values, other, environ, n, Start(values[n]), Start(other[n]), |Start(values[n])|);
  }

  /** The default of a name that the map or the environment has changes no result, nor whether
      there is one. */
  lemma DefaultsOfKnownNames(values: Values, other: Values, environ: Environ)
    requires SameButDefaults(values, other, environ)
    ensures Settled(values, environ) <==> Settled(other, environ)
    ensures Settled(values, environ) ==> DenoteAll(values, environ) == DenoteAll(other, environ)
  {
    SameGraph(values, other, environ);
    if LoopsOnly(values) {
      forall n | n in values
        ensures Denote(values, environ, n) == Denote(other, environ, n)
        ensures Stable(values, environ, n) <==> Stable(other, environ, n)
      {
        DenoteSame(values, other, environ, n);
      }
    }
  }
}
