/** Reconciling again and again: how many applied runs it takes until one finds nothing to do. */
module RepeatedRuns {
  import opened Wrappers
  import opened EnvMaps
  import opened PyStrings
  import opened EnvText
  import opened Reconcile
  import opened Convergence

  /** One applied run. */
  predicate Next(before: string, after: string, desired: seq<Entry>, prune: bool) {
    after == NextText(before, desired, prune)
  }

  /** The target's env text before and after each of a number of applied runs. */
  ghost predicate AppliedRuns(texts: seq<string>, desired: seq<Entry>, prune: bool) {
    texts != [] && forall i :: 0 <= i < |texts| - 1 ==> Next(texts[i], texts[i + 1], desired, prune)
  }

  /** How many `export ` a name begins with, blanks between them aside. */
  function Depth(key: string): nat
    decreases |key|
  {
    if Exported(key) then
      UnnestedIsShorter(key);
      1 + Depth(Unnested(key))
    else 0
  }

  lemma UnnestedIsShorter(key: string)
    requires Exported(key)
    ensures |Unnested(key)| < |key|
  {}

  ghost predicate DepthsAtMost(m: seq<Entry>, d: nat) {
    forall i :: 0 <= i < |m| ==> Depth(m[i].key) <= d
  }

  /** The most deeply nested name. */
  function MaxDepth(m: seq<Entry>): (d: nat)
    ensures DepthsAtMost(m, d)
  {
    if m == [] then 0
    else
      var last, before := Depth(m[|m| - 1].key), MaxDepth(m[..|m| - 1]);
      assert forall i :: 0 <= i < |m| - 1 ==> m[..|m| - 1][i] == m[i];
      if last < before then before else last
  }

  /** Each `export ` in front counts one, and a name without it none. */
  lemma DepthCounts(key: string)
    requires Stripped(key) && key != []
    ensures Depth("export " + key) == Depth(key) + 1
    ensures |key| < 7 || key[..7] != "export " ==> Depth(key) == 0
  {
    var longer := "export " + key;
    assert longer[..7] == "export " && longer[7..] == key;
    StripIsStripped(key);
  }

  /** No name is nested more deeply, and some name is as deeply, unless there is none. */
  lemma {:induction false} MaxDepthReached(m: seq<Entry>)
    ensures DepthsAtMost(m, MaxDepth(m)) && (m == [] ==> MaxDepth(m) == 0)
    ensures m != [] ==> exists i :: 0 <= i < |m| && Depth(m[i].key) == MaxDepth(m)
  {
    if m != [] {
      var before := m[..|m| - 1];
      MaxDepthReached(before);
      if before != [] {
        var i :| 0 <= i < |before| && Depth(before[i].key) == MaxDepth(before);
        assert m[i] == before[i];
      }
    }
  }

  /** Without nested names nothing comes back under another name. */
  lemma UnnestedSettles(m: seq<Entry>, desired: seq<Entry>, prune: bool)
    requires AllClean(desired) && DepthsAtMost(m, 0)
    ensures Settles(m, desired, prune)
  {
    forall i | 0 <= i < |m| ensures !Exported(m[i].key) {
      assert Depth(m[i].key) <= 0;
    }
    forall k | 0 <= k < |desired| ensures OwnLastWord(m, desired[k]) {
      UnnestedHasLastWord(m, desired[k]);
    }
  }

  lemma UnnestedHasLastWord(m: seq<Entry>, e: Entry)
    requires Clean(e) && forall i :: 0 <= i < |m| ==> !Exported(m[i].key)
    ensures OwnLastWord(m, e)
  {
    if Has(m, e.key) {
      var at := Find(m, e.key);
      CleanEchoes(m[at], e.key);
      LastWordThere(m, e.key, at);
      var i := LastWordFrom(m, e.key);
    }
  }

  /** A run leaves no name more deeply nested than it found it. */
  lemma ReconciledDepth(m: seq<Entry>, desired: seq<Entry>, prune: bool, j: nat, d: nat)
    requires AllClean(desired) && DepthsAtMost(m, d) && j < |Reconciled(m, desired, prune)|
    ensures Depth(Reconciled(m, desired, prune)[j].key) <= d
  {
    var e := Reconciled(m, desired, prune)[j];
    ReconciledFrom(m, desired, prune, j);
    if e !in desired {
      var i :| 0 <= i < |m| && e == Override(m[i], desired);
      assert Depth(m[i].key) <= d;
    }
  }

  /** Printing and reading back takes one `export ` off every nested name. */
  lemma PrintedDepth(m: seq<Entry>, d: nat)
    requires AllTidy(m) && DepthsAtMost(m, d)
    ensures DepthsAtMost(Parse(Print(m)), if d == 0 then 0 else d - 1)
  {
    PrintSplits(m);
    var back := Parse(Print(m));
    forall i | 0 <= i < |back| ensures Depth(back[i].key) <= if d == 0 then 0 else d - 1 {
      var k := CollectSource(ParseLine, Rendered(m), i);
      RenderReadsAsEcho(m[k]);
      assert Depth(m[k].key) <= d;
    }
  }

  lemma NextDepth(text: string, desired: seq<Entry>, prune: bool, d: nat)
    requires AllClean(desired) && DepthsAtMost(Parse(text), d) && !Quiet(text, desired, prune)
    ensures DepthsAtMost(Parse(NextText(text, desired, prune)), if d == 0 then 0 else d - 1)
  {
    var m := Parse(text);
    var r := Reconciled(m, desired, prune);
    ParseIsTidy(text);
    ReconciledIsTidy(m, desired, prune);
    forall j | 0 <= j < |r| ensures Depth(r[j].key) <= d {
      ReconciledDepth(m, desired, prune, j, d);
    }
    PrintedDepth(r, d);
  }

  /** What one run makes of the depth left: nothing more to do, or one less. */
  ghost predicate Left(text: string, desired: seq<Entry>, prune: bool, d: int) {
    Quiet(text, desired, prune) || (d >= 0 && DepthsAtMost(Parse(text), d))
  }

  lemma LeftStep(before: string, after: string, desired: seq<Entry>, prune: bool, d: int)
    requires Distinct(desired) && AllClean(desired) && Next(before, after, desired, prune)
    requires Left(before, desired, prune, d)
    ensures Left(after, desired, prune, d - 1)
  {
    if !Quiet(before, desired, prune) {
      if d == 0 {
        UnnestedSettles(Parse(before), desired, prune);
        ConvergesIff(before, desired, prune);
      } else {
        NextDepth(before, desired, prune, d);
      }
    }
  }

  lemma {:induction false} LeftAfter(texts: seq<string>, desired: seq<Entry>, prune: bool, d: nat, i: nat)
    requires Distinct(desired) && AllClean(desired) && AppliedRuns(texts, desired, prune) && i < |texts|
    requires DepthsAtMost(Parse(texts[0]), d)
    ensures Left(texts[i], desired, prune, d - i)
  {
    if i > 0 {
      LeftAfter(texts, desired, prune, d, i - 1);
      assert Next(texts[i - 1], texts[i - 1 + 1], desired, prune);
      LeftStep(texts[i - 1], texts[i], desired, prune, d - (i - 1));
    }
  }

  /** Once a run finds nothing the text stays. */
  lemma {:induction false} QuietStays(texts: seq<string>, desired: seq<Entry>, prune: bool, i: nat, j: nat)
    requires AppliedRuns(texts, desired, prune) && i <= j < |texts| && Quiet(texts[i], desired, prune)
    ensures texts[j] == texts[i]
  {
    if i < j {
      QuietStays(texts, desired, prune, i, j - 1);
      assert Next(texts[j - 1], texts[j - 1 + 1], desired, prune);
    }
  }

  /** Repeated runs end, whatever the text: once there were more of them than the most deeply
      nested name has `export `, a run finds nothing to update and nothing to prune, every
      desired variable has its value, and the text does not change any more. */
  lemma ReconcileEnds(texts: seq<string>, desired: seq<Entry>, prune: bool, i: nat)
    requires Distinct(desired) && AllClean(desired) && AppliedRuns(texts, desired, prune)
    requires MaxDepth(Parse(texts[0])) < i < |texts|
    ensures Quiet(texts[i], desired, prune)
    ensures forall k :: 0 <= k < |desired| ==> Get(Parse(texts[i]), desired[k].key) == Some(desired[k].value)
    ensures texts[i] == texts[MaxDepth(Parse(texts[0])) + 1]
  {
    var d := MaxDepth(Parse(texts[0]));
    LeftAfter(texts, desired, prune, d, d + 1);
    LeftAfter(texts, desired, prune, d, i);
    QuietStays(texts, desired, prune, d + 1, i);
    UpToDateIff(Parse(texts[i]), desired);
  }

  /** A desired entry that no text can hold, such as one with a blank at the end of its value, is
      written again by every run. */
  lemma UntidyNeverEnds(text: string, desired: seq<Entry>, prune: bool, k: nat)
    requires k < |desired| && !Tidy(desired[k])
    ensures !Quiet(text, desired, prune)
  {
    var m := Parse(text);
    ParseIsTidy(text);
    UpToDateIff(m, desired);
    UntidyIsAbsent(m, desired[k]);
  }

  lemma UntidyIsAbsent(m: seq<Entry>, e: Entry)
    requires AllTidy(m) && !Tidy(e)
    ensures Get(m, e.key) != Some(e.value)
  {
    var i := Find(m, e.key);
    if i < |m| {
      assert Tidy(m[i]) && m[i].key == e.key;
    }
  }
}
