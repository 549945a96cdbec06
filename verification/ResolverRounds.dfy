/** Rounds of the substitution on maps whose cycles are all self-references: where a round
    changes nothing, and why a changed self-reference grows for ever. */
module ResolverRounds {
  import opened EnvReferences

  // ------------------------------------------------------------ rounds and concatenation

  lemma WithinParts(values: Values, t: Text, u: Text, n: string)
    ensures Within(values, t + u, n) <==> Within(values, t, n) && Within(values, u, n)
  {
    var both := t + u;
    if Within(values, both, n) {
      forall i | 0 <= i < |t| && t[i].Ref? ensures Allowed(values, n, t[i].name) {
        assert both[i] == t[i];
      }
      forall i | 0 <= i < |u| && u[i].Ref? ensures Allowed(values, n, u[i].name) {
        assert both[|t| + i] == u[i];
      }
    }
  }

  lemma {:induction false} RoundPrefix(values: Values, environ: Environ, n: string, t: Text, u: Text, k: nat)
    requires LoopsOnly(values) && n in values && Within(values, t, n) && Within(values, u, n)
    requires k <= |t| && k <= |u| && t[..k] == u[..k]
    ensures Round(values, environ, n, t, k) == Round(values, environ, n, u, k)
  {
    if k > 0 {
      assert t[k - 1] == t[..k][k - 1] && u[k - 1] == u[..k][k - 1];
      assert t[..k - 1] == t[..k][..k - 1] && u[..k - 1] == u[..k][..k - 1];
      RoundPrefix(values, environ, n, t, u, k - 1);
    }
  }

  /** A whole text after one round. */
  ghost function Whole(values: Values, environ: Environ, n: string, t: Text): Text
    requires LoopsOnly(values) && n in values && Within(values, t, n)
  {
    Round(values, environ, n, t, |t|)
  }

  lemma {:induction false} WholeConcat(values: Values, environ: Environ, n: string, t: Text, u: Text)
    requires LoopsOnly(values) && n in values && Within(values, t, n) && Within(values, u, n)
    ensures Within(values, t + u, n)
    ensures Whole(values, environ, n, t + u) == Whole(values, environ, n, t) + Whole(values, environ, n, u)
  {
    WithinParts(values, t, u, n);
    if u == [] {
      assert t + u == t;
    } else {
      var last := |u| - 1;
      var front, both := u[..last], t + u;
      assert u == front + [u[last]];
      WithinParts(values, front, [u[last]], n);
      WholeConcat(values, environ, n, t, front);
      assert both[..|both| - 1] == (t + front)[..|both| - 1];
      RoundPrefix(values, environ, n, both, t + front, |both| - 1);
      RoundPrefix(values, environ, n, u, front, last);
    }
  }

  lemma {:induction false} PlainRound(values: Values, environ: Environ, n: string, t: Text, k: nat)
    requires LoopsOnly(values) && n in values && IsPlain(t) && k <= |t|
    ensures Within(values, t, n) && Round(values, environ, n, t, k) == t[..k]
  {
    if k > 0 {
      PlainRound(values, environ, n, t, k - 1);
    }
  }

  lemma WholePlain(values: Values, environ: Environ, n: string, t: Text)
    requires LoopsOnly(values) && n in values && IsPlain(t)
    ensures Within(values, t, n) && Whole(values, environ, n, t) == t
  {
    PlainRound(values, environ, n, t, |t|);
  }

  // ------------------------------------------------------------ one round and the raw text

  /** A self-reference in the start text: what stands before and after it. */
  lemma SelfPosition(values: Values, n: string) returns (left: Text, self: Token, right: Text)
    requires LoopsOnly(values) && RefersTo(values, n, n)
    ensures Start(values[n]) == left + [self] + right && self.Ref? && self.name == n
    ensures Within(values, left, n) && Within(values, [self], n) && Within(values, right, n)
  {
    var start := Start(values[n]);
    StartMentions(values[n], n);
    var i :| 0 <= i < |start| && start[i].Ref? && start[i].name == n;
    left, self, right := start[..i], start[i], start[i + 1..];
    assert start == left + [self] + right;
    OwnWithin(values, n);
    WithinParts(values, left + [self], right, n);
    WithinParts(values, left, [self], n);
  }

  /** The round puts the raw text in the place of a self-reference. */
  lemma FirstRoundHoldsRaw(values: Values, environ: Environ, n: string) returns (left: Text, right: Text)
    requires LoopsOnly(values) && RefersTo(values, n, n)
    ensures FirstRound(values, environ, n) == left + values[n] + right
  {
    var a, self, b := SelfPosition(values, n);
    left, right := Whole(values, environ, n, a), Whole(values, environ, n, b);
    SelfImage(values, environ, n, self);
    OwnWithin(values, n);
    WholeConcat(values, environ, n, a, [self]);
    WholeConcat(values, environ, n, a + [self], b);
  }

  lemma SelfImage(values: Values, environ: Environ, n: string, self: Token)
    requires LoopsOnly(values) && n in values && self.Ref? && self.name == n
    ensures Within(values, [self], n) && Whole(values, environ, n, [self]) == values[n]
  {
    assert Round(values, environ, n, [self], 1) == Round(values, environ, n, [self], 0) + values[n];
  }

  /** A stable self-reference has nothing stripped off its ends. */
  lemma StableIsRaw(values: Values, environ: Environ, n: string)
    requires LoopsOnly(values) && RefersTo(values, n, n) && Stable(values, environ, n)
    ensures values[n] == Start(values[n])
  {
    var left, right := FirstRoundHoldsRaw(values, environ, n);
    var before, after := StartIsInside(values[n]);
    assert |before| == 0 && |after| == 0;
  }

  lemma WholeOfRaw(values: Values, environ: Environ, n: string) returns (before: Text, after: Text)
    requires LoopsOnly(values) && n in values
    ensures values[n] == before + Start(values[n]) + after && Within(values, values[n], n)
    ensures Whole(values, environ, n, values[n]) == before + FirstRound(values, environ, n) + after
  {
    var raw, start := values[n], Start(values[n]);
    OwnWithin(values, n);
    before, after := StartIsInside(raw);
    WholePlain(values, environ, n, before);
    WholePlain(values, environ, n, after);
    WholeConcat(values, environ, n, before, start);
    WholeConcat(values, environ, n, before + start, after);
  }

  /** One that changes in its first round has a raw text that a round makes longer. */
  lemma UnstableGrows(values: Values, environ: Environ, n: string)
    requires LoopsOnly(values) && RefersTo(values, n, n) && !Stable(values, environ, n)
    ensures Within(values, values[n], n) && |Whole(values, environ, n, values[n])| > |values[n]|
  {
    var before, after := WholeOfRaw(values, environ, n);
    var left, right := FirstRoundHoldsRaw(values, environ, n);
    Squeezed(before, left, values[n], right, after, Start(values[n]));
  }

  lemma Squeezed(before: Text, left: Text, raw: Text, right: Text, after: Text, start: Text)
    requires raw == before + start + after && left + raw + right != start
    ensures |before + (left + raw + right) + after| > |raw|
  {
    assert |before| + |left| + |right| + |after| == 0 ==> raw == start && left + raw + right == raw;
  }

  // ------------------------------------------------------------ where rounds change nothing

  /** A name whose whole dependency tree is stable. */
  ghost predicate Fine(values: Values, environ: Environ, n: string)
    requires LoopsOnly(values)
  {
    n in values && Stable(values, environ, n) &&
    forall m :: m in values && Reaches(values, n, m) ==> Stable(values, environ, m)
  }

  lemma FineBelow(values: Values, environ: Environ, n: string, m: string)
    requires LoopsOnly(values) && Fine(values, environ, n) && RefersTo(values, n, m)
    ensures Fine(values, environ, m)
  {
    ReachesOne(values, n, m);
    forall k | k in values && Reaches(values, m, k) ensures Stable(values, environ, k) {
      ReachesFrom(values, n, m, k);
    }
  }

  lemma FineAbove(values: Values, environ: Environ, n: string)
    requires LoopsOnly(values) && n in values && Stable(values, environ, n)
    requires forall m :: RefersTo(values, n, m) && m != n ==> Fine(values, environ, m)
    ensures Fine(values, environ, n)
  {
    forall k | k in values && Reaches(values, n, k) ensures Stable(values, environ, k) {
      if k != n {
        LeavesLoop(values, environ, n, k);
      }
    }
  }

  lemma LeavesLoop(values: Values, environ: Environ, n: string, k: string)
    requires LoopsOnly(values) && Reaches(values, n, k) && k != n && k in values
    requires forall m :: RefersTo(values, n, m) && m != n ==> Fine(values, environ, m)
    ensures Stable(values, environ, k)
  {
    var path :| Joins(values, path, n, k);
    var m := LastDeparture(values, path, n, k, |path| - 1);
  }

  /** The step by which a path finally leaves its first name. */
  lemma {:induction false} LastDeparture(values: Values, path: seq<string>, n: string, k: string, i: nat)
    returns (m: string)
    requires Joins(values, path, n, k) && k != n && i < |path| && path[i] != n
    ensures RefersTo(values, n, m) && m != n && (m == path[i] || Reaches(values, m, path[i]))
  {
    assert RefersTo(values, path[i - 1], path[i - 1 + 1]);
    if path[i - 1] == n {
      m := path[i];
    } else {
      m := LastDeparture(values, path, n, k, i - 1);
      ReachesOne(values, path[i - 1], path[i]);
      if m != path[i - 1] {
        ReachesVia(values, m, path[i - 1], path[i]);
      }
    }
  }

  /** What a name denotes mentions only the name itself and names below it. */
  lemma {:induction false} DenoteWithin(values: Values, environ: Environ, n: string)
    requires LoopsOnly(values) && n in values
    ensures Within(values, Denote(values, environ, n), n)
    decreases Rank(values, n), |Start(values[n])| + 1
  {
    OwnWithin(values, n);
    if !RefersTo(values, n, n) {
      RoundWithin(values, environ, n, Start(values[n]), |Start(values[n])|);
    }
  }

  lemma {:induction false} RoundWithin(values: Values, environ: Environ, n: string, t: Text, k: nat)
    requires LoopsOnly(values) && n in values && Within(values, t, n) && k <= |t|
    ensures Within(values, Round(values, environ, n, t, k), n)
    decreases Rank(values, n), k
  {
    if k > 0 {
      RoundWithin(values, environ, n, t, k - 1);
      ImageWithin(values, environ, n, t[k - 1]);
      WithinParts(values, Round(values, environ, n, t, k - 1), Image(values, environ, n, t[k - 1]), n);
    }
  }

  lemma {:induction false} ImageWithin(values: Values, environ: Environ, n: string, token: Token)
    requires LoopsOnly(values) && n in values && (token.Ref? ==> Allowed(values, n, token.name))
    ensures Within(values, Image(values, environ, n, token), n)
    decreases Rank(values, n), 0
  {
    if token.Ref? && token.name == n {
      OwnWithin(values, n);
    } else if token.Ref? && token.name in values {
      DenoteWithin(values, environ, token.name);
      WithinAbove(values, Denote(values, environ, token.name), token.name, n);
    }
  }

  lemma WithinAbove(values: Values, t: Text, m: string, n: string)
    requires Within(values, t, m) && Rank(values, m) < Rank(values, n)
    ensures Within(values, t, n) && (n in values ==> !Mentions(t, n))
  {
    forall i | 0 <= i < |t| && t[i].Ref? ensures Allowed(values, n, t[i].name) && (n in values ==> t[i].name != n) {
      assert Allowed(values, m, t[i].name);
    }
  }

  /** A round leaves what a fine name below denotes as it is. */
  lemma {:induction false} FineIsFixed(values: Values, environ: Environ, m: string, n: string)
    requires LoopsOnly(values) && n in values && Fine(values, environ, m) && Rank(values, m) < Rank(values, n)
    ensures Within(values, Denote(values, environ, m), n)
    ensures Whole(values, environ, n, Denote(values, environ, m)) == Denote(values, environ, m)
    decreases Rank(values, m), |Start(values[m])| + 1
  {
    if RefersTo(values, m, m) {
      StableIsFixed(values, environ, m, n);
    } else {
      OwnWithin(values, m);
      NoOwnMention(values, m);
      FineRefs(values, environ, m);
      FineRoundIsFixed(values, environ, m, n, Start(values[m]), |Start(values[m])|);
    }
  }

  lemma StableIsFixed(values: Values, environ: Environ, m: string, n: string)
    requires LoopsOnly(values) && n in values && RefersTo(values, m, m) && Stable(values, environ, m)
    requires Rank(values, m) < Rank(values, n)
    ensures Within(values, Denote(values, environ, m), n)
    ensures Whole(values, environ, n, Denote(values, environ, m)) == Denote(values, environ, m)
  {
    var start := Start(values[m]);
    OwnWithin(values, m);
    WithinAbove(values, start, m, n);
    StableIsRaw(values, environ, m);
    SameRound(values, environ, m, n, start, |start|);
  }

  lemma FineRefs(values: Values, environ: Environ, n: string)
    requires LoopsOnly(values) && Fine(values, environ, n)
    ensures RefsFine(values, environ, Start(values[n]), n)
  {
    forall m | m in values && m != n && Mentions(Start(values[n]), m) ensures Fine(values, environ, m) {
      StartMentions(values[n], m);
      FineBelow(values, environ, n, m);
    }
  }

  /** The round for a stable name and the round for a name above it do the same below. */
  lemma {:induction false} SameRound(values: Values, environ: Environ, m: string, n: string, t: Text, k: nat)
    requires LoopsOnly(values) && n in values && m in values && Rank(values, m) < Rank(values, n)
    requires k <= |t| && Within(values, t, m) && Within(values, t, n) && !Mentions(t, n)
    requires Denote(values, environ, m) == values[m]
    ensures Round(values, environ, n, t, k) == Round(values, environ, m, t, k)
  {
    if k > 0 {
      SameRound(values, environ, m, n, t, k - 1);
      assert t[k - 1].Ref? ==>
        t[k - 1].name != n && Allowed(values, m, t[k - 1].name) && Allowed(values, n, t[k - 1].name);
    }
  }

  lemma {:induction false} FineRoundIsFixed(values: Values, environ: Environ, m: string, n: string, t: Text, k: nat)
    requires LoopsOnly(values) && n in values && m in values && Rank(values, m) <= Rank(values, n)
    requires k <= |t| && Within(values, t, m) && !Mentions(t, m) && RefsFine(values, environ, t, m)
    ensures Within(values, Round(values, environ, m, t, k), n)
    ensures Whole(values, environ, n, Round(values, environ, m, t, k)) == Round(values, environ, m, t, k)
    decreases Rank(values, m), k
  {
    if k > 0 {
      FineRoundIsFixed(values, environ, m, n, t, k - 1);
      assert t[k - 1].Ref? ==> t[k - 1].name != m && Allowed(values, m, t[k - 1].name) && Mentions(t, t[k - 1].name);
      FineImageIsFixed(values, environ, m, n, t[k - 1]);
      WholeConcat(values, environ, n, Round(values, environ, m, t, k - 1), Image(values, environ, m, t[k - 1]));
    }
  }

  /** The names a text mentions, `n` itself excepted, are fine. */
  ghost predicate RefsFine(values: Values, environ: Environ, t: Text, n: string)
    requires LoopsOnly(values)
  {
    forall m {:trigger Mentions(t, m)} :: m in values && m != n && Mentions(t, m) ==> Fine(values, environ, m)
  }

  lemma {:induction false} FineImageIsFixed(values: Values, environ: Environ, m: string, n: string, token: Token)
    requires LoopsOnly(values) && n in values && m in values && Rank(values, m) <= Rank(values, n)
    requires token.Ref? ==> Allowed(values, m, token.name) && token.name != m
    requires token.Ref? && token.name in values ==> Fine(values, environ, token.name)
    ensures Within(values, Image(values, environ, m, token), n)
    ensures Whole(values, environ, n, Image(values, environ, m, token)) == Image(values, environ, m, token)
    decreases Rank(values, m), 0
  {
    if token.Ref? && token.name in values {
      FineIsFixed(values, environ, token.name, n);
    } else {
      WholePlain(values, environ, n, Image(values, environ, m, token));
    }
  }

  // ------------------------------------------------------------ where rounds never stop changing

  /** After one round every mention of a growing name makes the next round longer. */
  lemma {:induction false} NextRoundGrows(values: Values, environ: Environ, n: string, t: Text, k: nat)
    requires LoopsOnly(values) && RefersTo(values, n, n) && !Stable(values, environ, n)
    requires k <= |t| && Within(values, t, n) && RefsFine(values, environ, t, n)
    ensures
      var round := Round(values, environ, n, t, k);
      && Within(values, round, n)
      && |Whole(values, environ, n, round)| >= |round| + if Mentions(t[..k], n) then 1 else 0
    ensures Mentions(t[..k], n) ==> Mentions(Round(values, environ, n, t, k), n)
  {
    if k > 0 {
      var token := t[k - 1];
      assert t[..k] == t[..k - 1] + [token];
      MentionsEither(t[..k - 1], [token], n);
      NextRoundGrows(values, environ, n, t, k - 1);
      NextImageGrows(values, environ, n, token, t);
      var before, image := Round(values, environ, n, t, k - 1), Image(values, environ, n, token);
      WholeConcat(values, environ, n, before, image);
      MentionsEither(before, image, n);
    }
  }

  lemma NextImageGrows(values: Values, environ: Environ, n: string, token: Token, t: Text)
    requires LoopsOnly(values) && RefersTo(values, n, n) && !Stable(values, environ, n)
    requires token in t && Within(values, t, n) && RefsFine(values, environ, t, n)
    ensures token.Ref? ==> Allowed(values, n, token.name)
    ensures
      var image := Image(values, environ, n, token);
      && Within(values, image, n)
      && |Whole(values, environ, n, image)| >= |image| + (if Mentions([token], n) then 1 else 0)
      && (Mentions([token], n) ==> Mentions(image, n))
  {
    var i :| 0 <= i < |t| && t[i] == token;
    if Mentions([token], n) {
      UnstableGrows(values, environ, n);
    } else {
      assert token.Ref? ==> [token][0].name != n && Mentions(t, token.name);
      FineImageIsFixed(values, environ, n, n, token);
    }
  }

  lemma WholeGrows(values: Values, environ: Environ, n: string, t: Text)
    requires LoopsOnly(values) && RefersTo(values, n, n) && !Stable(values, environ, n)
    requires Within(values, t, n) && RefsFine(values, environ, t, n) && Mentions(t, n)
    ensures
      var round := Whole(values, environ, n, t);
      Within(values, round, n) && Mentions(round, n) && |Whole(values, environ, n, round)| > |round|
  {
    NextRoundGrows(values, environ, n, t, |t|);
    assert t[..|t|] == t;
  }
}
