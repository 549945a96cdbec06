/** What a second reconcile finds in the text the first one wrote. */
module Convergence {
  import opened Wrappers
  import opened PyStrings
  import opened EnvMaps
  import opened EnvText
  import opened Reconcile

  // ------------------------------------------------------------ one run

  lemma {:induction false} WithoutGet(m: seq<Entry>, choose: string -> bool, key: string)
    requires Distinct(m)
    ensures Get(Without(m, choose), key) == if choose(key) then None else Get(m, key)
  {
    var r, at := Without(m, choose), Find(Without(m, choose), key);
    if at < |r| {
      var i := WithoutFrom(m, choose, at);
      FindOwn(m, i);
    } else if Has(m, key) && !choose(key) {
      var j := WithoutKeeps(m, choose, Find(m, key));
      HasElement(r, j);
    }
  }

  lemma {:induction false} WithoutKeeps(m: seq<Entry>, choose: string -> bool, i: nat) returns (j: nat)
    requires i < |m| && !choose(m[i].key)
    ensures j < |Without(m, choose)| && Without(m, choose)[j] == m[i]
  {
    var last := |m| - 1;
    if i < last {
      j := WithoutKeeps(m[..last], choose, i);
    } else {
      j := |Without(m[..last], choose)|;
    }
  }

  lemma {:induction false} AddedKeeps(m: seq<Entry>, desired: seq<Entry>, k: nat) returns (j: nat)
    requires k < |desired| && !Has(m, desired[k].key)
    ensures j < |Added(m, desired)| && Added(m, desired)[j] == desired[k]
  {
    var last := |desired| - 1;
    if k < last {
      j := AddedKeeps(m, desired[..last], k);
    } else {
      j := |Added(m, desired[..last])|;
    }
  }

  lemma {:induction false} UpdatedDistinct(m: seq<Entry>, desired: seq<Entry>, i: nat)
    requires Distinct(m) && Distinct(desired) && i <= |desired|
    ensures Distinct(Updated(m, desired[..i]))
  {
    if i == 0 {
      assert Updated(m, []) == m;
    } else {
      UpdatedDistinct(m, desired, i - 1);
      PutDistinct(Updated(m, desired[..i - 1]), desired[i - 1]);
      PutInUpdated(m, desired, i - 1);
    }
  }

  lemma UpdatedIsDistinct(m: seq<Entry>, desired: seq<Entry>)
    requires Distinct(m) && Distinct(desired)
    ensures Distinct(Updated(m, desired))
  {
    UpdatedDistinct(m, desired, |desired|);
    assert desired[..|desired|] == desired;
  }

  lemma UpdatedGet(m: seq<Entry>, desired: seq<Entry>, key: string)
    requires Distinct(m) && Distinct(desired)
    ensures Get(Updated(m, desired), key) == if Has(desired, key) then Get(desired, key) else Get(m, key)
  {
    var u, k := Updated(m, desired), Find(desired, key);
    UpdatedIsDistinct(m, desired);
    if Has(m, key) {
      FindOwn(u, Find(m, key));
    } else if Has(desired, key) {
      var j := AddedKeeps(m, desired, k);
      assert u[|m| + j] == desired[k];
      FindOwn(u, |m| + j);
    } else {
      FindInUpdated(m, desired, key);
    }
  }

  /** One run leaves the desired variables and those of the target it does not prune, in the
      target's order with the new ones last. */
  lemma OneRun(m: seq<Entry>, desired: seq<Entry>, prune: bool, key: string)
    requires Distinct(m) && Distinct(desired)
    ensures Get(Reconciled(m, desired, prune), key) ==
      if Has(desired, key) then Get(desired, key) else if prune && Prunable(key) then None else Get(m, key)
  {
    UpdatedGet(m, desired, key);
    UpdatedIsDistinct(m, desired);
    WithoutGet(Updated(m, desired), Unwanted(desired), key);
  }

  // ------------------------------------------------------------ the second look

  /** The last entry whose printed line is read back under the name `key`. */
  function LastWord(m: seq<Entry>, key: string): Option<Entry> {
    if m == [] then None
    else if EchoesAs(m[|m| - 1], key) then Some(m[|m| - 1])
    else LastWord(m[..|m| - 1], key)
  }

  predicate EchoesAs(e: Entry, key: string) {
    Echo(e).Some? && Echo(e).value.key == key
  }

  function ValueOf(e: Option<Entry>): Option<string> {
    if e.Some? then Some(e.value.value) else None
  }

  lemma {:induction false} LastWordReads(m: seq<Entry>, key: string)
    requires AllTidy(m)
    ensures LastValue(ParseLine, Rendered(m), key) == ValueOf(LastWord(m, key))
  {
    if m != [] {
      var last := |m| - 1;
      assert Rendered(m)[..last] == Rendered(m[..last]);
      RenderReadsAsEcho(m[last]);
      LastWordReads(m[..last], key);
    }
  }

  /** What is read back from a printed dictionary. */
  lemma SecondLook(m: seq<Entry>, key: string)
    requires AllTidy(m)
    ensures Get(Parse(Print(m)), key) == ValueOf(LastWord(m, key))
  {
    PrintSplits(m);
    LastLineWins(ParseLine, Rendered(m), key);
    LastWordReads(m, key);
  }

  lemma {:induction false} LastWordFrom(m: seq<Entry>, key: string) returns (i: nat)
    requires LastWord(m, key).Some?
    ensures i < |m| && LastWord(m, key) == Some(m[i]) && EchoesAs(m[i], key)
  {
    var last := |m| - 1;
    if EchoesAs(m[last], key) {
      i := last;
    } else {
      i := LastWordFrom(m[..last], key);
    }
  }

  lemma {:induction false} LastWordThere(m: seq<Entry>, key: string, i: nat)
    requires i < |m| && EchoesAs(m[i], key)
    ensures LastWord(m, key).Some?
  {
    if i < |m| - 1 {
      LastWordThere(m[..|m| - 1], key, i);
    }
  }

  lemma {:induction false} LastWordSplit(a: seq<Entry>, b: seq<Entry>, key: string)
    ensures LastWord(a + b, key) == if LastWord(b, key).Some? then LastWord(b, key) else LastWord(a, key)
  {
    if b == [] {
      assert a + b == a;
    } else {
      var last := |b| - 1;
      LastWordSplit(a, b[..last], key);
      assert (a + b)[..|a + b| - 1] == a + b[..last];
    }
  }

  lemma LastWordPush(m: seq<Entry>, e: Entry, key: string)
    ensures LastWord(m + [e], key) == if EchoesAs(e, key) then Some(e) else LastWord(m, key)
  {
    assert (m + [e])[..|m|] == m;
  }

  lemma {:induction false} LastWordWithout(m: seq<Entry>, choose: string -> bool, key: string)
    requires forall i :: 0 <= i < |m| && choose(m[i].key) ==> !EchoesAs(m[i], key)
    ensures LastWord(Without(m, choose), key) == LastWord(m, key)
  {
    if m != [] {
      var last := |m| - 1;
      assert forall i :: 0 <= i < last ==> m[..last][i] == m[i];
      LastWordWithout(m[..last], choose, key);
      if choose(m[last].key) {
        assert Without(m, choose) == Without(m[..last], choose);
      } else {
        LastWordPush(Without(m[..last], choose), m[last], key);
      }
    }
  }

  /** An entry with the desired value, when there is one. */
  function Override(e: Entry, desired: seq<Entry>): Entry {
    if Has(desired, e.key) then Entry(e.key, Get(desired, e.key).value) else e
  }

  lemma {:induction false} LastWordOverridden(m: seq<Entry>, desired: seq<Entry>, key: string)
    ensures LastWord(Overridden(m, desired), key) ==
      if LastWord(m, key).Some? then Some(Override(LastWord(m, key).value, desired)) else None
  {
    if m != [] {
      var last := |m| - 1;
      assert Overridden(m, desired)[..last] == Overridden(m[..last], desired);
      LastWordOverridden(m[..last], desired, key);
    }
  }

  lemma CleanEchoes(e: Entry, key: string)
    requires !Shadowed(e.key)
    ensures EchoesAs(e, key) <==> key == e.key
  {}

  /** A name no line is shadowed under: what it echoes as is itself. */
  lemma PrunableIsPlain(key: string)
    requires Prunable(key)
    ensures !Shadowed(key)
  {
    assert key[0] == 'O' || key[0] == 'E';
    if 7 <= |key| {
      assert key[..7][0] == key[0] && EXPORT[0] == 'e';
    }
  }

  lemma DesiredIsClean(desired: seq<Entry>, key: string)
    requires AllClean(desired) && Has(desired, key)
    ensures !Shadowed(key)
  {
    assert desired[Find(desired, key)].key == key;
  }

  lemma LastWordAdded(m: seq<Entry>, desired: seq<Entry>, k: nat)
    requires Distinct(desired) && AllClean(desired) && k < |desired|
    ensures LastWord(Added(m, desired), desired[k].key) == if Has(m, desired[k].key) then None else Some(desired[k])
  {
    var added, key := Added(m, desired), desired[k].key;
    if LastWord(added, key).Some? {
      var i := LastWordFrom(added, key);
      var j := AddedFrom(m, desired, i);
      CleanEchoes(desired[j], key);
    } else if !Has(m, key) {
      var j := AddedKeeps(m, desired, k);
      CleanEchoes(desired[k], key);
      LastWordThere(added, key, j);
    }
  }

  /** Pruning takes away no line that reads back as a desired name. */
  lemma LastWordPruned(m: seq<Entry>, desired: seq<Entry>, key: string)
    requires Has(desired, key)
    ensures LastWord(Without(m, Unwanted(desired)), key) == LastWord(m, key)
  {
    forall i | 0 <= i < |m| && Unwanted(desired)(m[i].key) ensures !EchoesAs(m[i], key) {
      PrunableIsPlain(m[i].key);
      CleanEchoes(m[i], key);
    }
    LastWordWithout(m, Unwanted(desired), key);
  }

  /** The line that decides a desired variable after a run. */
  lemma LastWordReconciled(m: seq<Entry>, desired: seq<Entry>, prune: bool, k: nat)
    requires Distinct(desired) && AllClean(desired) && k < |desired|
    ensures
      var key := desired[k].key;
      LastWord(Reconciled(m, desired, prune), key) ==
        if !Has(m, key) then Some(desired[k])
        else if LastWord(m, key).Some? then Some(Override(LastWord(m, key).value, desired))
        else None
  {
    var key := desired[k].key;
    HasElement(desired, k);
    LastWordPruned(Updated(m, desired), desired, key);
    LastWordSplit(Overridden(m, desired), Added(m, desired), key);
    LastWordAdded(m, desired, k);
    LastWordOverridden(m, desired, key);
  }

  // ------------------------------------------------------------ when one run is enough

  /** No line but the variable's own, or one with the desired value, has the last word on it. */
  predicate OwnLastWord(m: seq<Entry>, e: Entry) {
    Has(m, e.key) ==>
      var w := LastWord(m, e.key);
      w.Some? && (w.value.key == e.key || w.value.value == e.value)
  }

  /** The name a nested `export NAME` line leaves once printed. */
  function Unnested(key: string): string
    requires Exported(key)
  {
    Strip(key[7..])
  }

  predicate NestedIsWanted(e: Entry, desired: seq<Entry>) {
    Exported(e.key) ==> !Unwanted(desired)(Unnested(e.key))
  }

  /** Nothing in the target's text comes back to life under another name. */
  predicate Settles(m: seq<Entry>, desired: seq<Entry>, prune: bool) {
    && (forall k :: 0 <= k < |desired| ==> OwnLastWord(m, desired[k]))
    && (prune ==> forall i :: 0 <= i < |m| ==> NestedIsWanted(m[i], desired))
  }

  lemma {:induction false} UpToDateIff(m: seq<Entry>, desired: seq<Entry>)
    ensures ToUpdate(m, desired) == [] <==>
      forall k :: 0 <= k < |desired| ==> Get(m, desired[k].key) == Some(desired[k].value)
  {
    if desired != [] {
      var last := |desired| - 1;
      UpToDateIff(m, desired[..last]);
      assert forall k :: 0 <= k < last ==> desired[..last][k] == desired[k];
    }
  }

  lemma {:induction false} NothingChosenIff(m: seq<Entry>, choose: string -> bool)
    ensures Chosen(m, choose) == [] <==> forall i :: 0 <= i < |m| ==> !choose(m[i].key)
  {
    if m != [] {
      var last := |m| - 1;
      NothingChosenIff(m[..last], choose);
      assert forall k :: 0 <= k < last ==> m[..last][k] == m[k];
    }
  }

  /** A desired variable is found as desired after a run if and only if it has its own last word. */
  lemma StaysUpToDate(m: seq<Entry>, desired: seq<Entry>, prune: bool, k: nat)
    requires Distinct(m) && Distinct(desired) && AllClean(desired) && k < |desired|
    ensures ValueOf(LastWord(Reconciled(m, desired, prune), desired[k].key)) == Some(desired[k].value) <==>
      OwnLastWord(m, desired[k])
  {
    var key := desired[k].key;
    LastWordReconciled(m, desired, prune, k);
    if Has(m, key) && LastWord(m, key).Some? {
      var i := LastWordFrom(m, key);
      OverrideKeeps(m[i], desired, k);
    }
  }

  lemma OverrideKeeps(e: Entry, desired: seq<Entry>, k: nat)
    requires Distinct(desired) && AllClean(desired) && k < |desired| && EchoesAs(e, desired[k].key)
    ensures Override(e, desired).value == if e.key == desired[k].key then desired[k].value else e.value
  {
    FindOwn(desired, k);
    if Has(desired, e.key) {
      DesiredIsClean(desired, e.key);
      CleanEchoes(e, desired[k].key);
    }
  }

  /** An entry a run leaves is a desired one, or one of the target's, overridden or not. */
  ghost predicate ComesFrom(m: seq<Entry>, desired: seq<Entry>, e: Entry) {
    e in desired || exists i :: 0 <= i < |m| && e == Override(m[i], desired)
  }

  lemma UpdatedFrom(m: seq<Entry>, desired: seq<Entry>, j: nat)
    requires j < |Updated(m, desired)|
    ensures ComesFrom(m, desired, Updated(m, desired)[j])
  {
    if j < |m| {
      assert Updated(m, desired)[j] == Override(m[j], desired);
    } else {
      var k := AddedFrom(m, desired, j - |m|);
      assert Updated(m, desired)[j] == desired[k];
    }
  }

  lemma ReconciledFrom(m: seq<Entry>, desired: seq<Entry>, prune: bool, j: nat)
    requires j < |Reconciled(m, desired, prune)|
    ensures
      var e := Reconciled(m, desired, prune)[j];
      && (prune ==> !Unwanted(desired)(e.key))
      && ComesFrom(m, desired, e)
  {
    if prune {
      var i := WithoutFrom(Updated(m, desired), Unwanted(desired), j);
      UpdatedFrom(m, desired, i);
    } else {
      UpdatedFrom(m, desired, j);
    }
  }

  lemma ReconciledIsTidy(m: seq<Entry>, desired: seq<Entry>, prune: bool)
    requires AllTidy(m) && AllTidy(desired)
    ensures AllTidy(Reconciled(m, desired, prune))
  {
    var r := Reconciled(m, desired, prune);
    forall j | 0 <= j < |r| ensures Tidy(r[j]) {
      ReconciledFrom(m, desired, prune, j);
      if r[j] !in desired {
        var i :| 0 <= i < |m| && r[j] == Override(m[i], desired);
      }
    }
  }

  /** No line of a dictionary reads back as a name to prune. */
  ghost predicate EchoesNothing(m: seq<Entry>, choose: string -> bool) {
    forall j :: 0 <= j < |m| ==> Echo(m[j]).Some? ==> !choose(Echo(m[j]).value.key)
  }

  lemma SecondPruneIff(m: seq<Entry>, choose: string -> bool)
    requires AllTidy(m)
    ensures Chosen(Parse(Print(m)), choose) == [] <==> EchoesNothing(m, choose)
  {
    var back := Parse(Print(m));
    NothingChosenIff(back, choose);
    if EchoesNothing(m, choose) {
      forall i | 0 <= i < |back| ensures !choose(back[i].key) {
        HasElement(back, i);
        SecondLook(m, back[i].key);
        var j := LastWordFrom(m, back[i].key);
      }
    }
    if Chosen(back, choose) == [] {
      forall j | 0 <= j < |m| && Echo(m[j]).Some? ensures !choose(Echo(m[j]).value.key) {
        var key := Echo(m[j]).value.key;
        LastWordThere(m, key, j);
        SecondLook(m, key);
        assert back[Find(back, key)].key == key;
      }
    }
  }

  lemma NestedStays(m: seq<Entry>, desired: seq<Entry>, i: nat) returns (j: nat)
    requires i < |m| && Exported(m[i].key)
    ensures j < |Reconciled(m, desired, true)| && Reconciled(m, desired, true)[j].key == m[i].key
  {
    if Prunable(m[i].key) {
      PrunableIsPlain(m[i].key);
    }
    assert Updated(m, desired)[i].key == m[i].key;
    j := WithoutKeeps(Updated(m, desired), Unwanted(desired), i);
  }

  lemma StaysPruned(m: seq<Entry>, desired: seq<Entry>)
    requires AllTidy(m) && AllClean(desired)
    ensures EchoesNothing(Reconciled(m, desired, true), Unwanted(desired)) <==>
      forall i :: 0 <= i < |m| ==> NestedIsWanted(m[i], desired)
  {
    var r := Reconciled(m, desired, true);
    if EchoesNothing(r, Unwanted(desired)) {
      forall i | 0 <= i < |m| && Exported(m[i].key) ensures NestedIsWanted(m[i], desired) {
        var j := NestedStays(m, desired, i);
        ExportedIsNotCommented(m[i].key);
        assert Echo(r[j]).value.key == Unnested(m[i].key);
      }
    }
    if forall i :: 0 <= i < |m| ==> NestedIsWanted(m[i], desired) {
      forall j | 0 <= j < |r| && Echo(r[j]).Some? ensures !Unwanted(desired)(Echo(r[j]).value.key) {
        ReconciledFrom(m, desired, true, j);
        if Exported(r[j].key) {
          NestedComesFrom(m, desired, r[j]);
        }
      }
    }
  }

  lemma ExportedIsNotCommented(key: string)
    requires Exported(key)
    ensures !Commented(key)
  {
    assert key[..7][0] == EXPORT[0];
  }

  lemma NestedComesFrom(m: seq<Entry>, desired: seq<Entry>, e: Entry)
    requires AllClean(desired) && Exported(e.key)
    requires forall i :: 0 <= i < |m| ==> NestedIsWanted(m[i], desired)
    requires ComesFrom(m, desired, e)
    ensures !Unwanted(desired)(Unnested(e.key))
  {
    if e !in desired {
      var i :| 0 <= i < |m| && e == Override(m[i], desired);
      assert NestedIsWanted(m[i], desired);
    }
  }

  lemma SecondRun(m: seq<Entry>, desired: seq<Entry>, prune: bool)
    requires Distinct(m) && AllTidy(m) && Distinct(desired) && AllClean(desired)
    ensures Quiet(Print(Reconciled(m, desired, prune)), desired, prune) <==> Settles(m, desired, prune)
  {
    var r := Reconciled(m, desired, prune);
    var back := Parse(Print(r));
    ReconciledIsTidy(m, desired, prune);
    UpToDateIff(back, desired);
    forall k | 0 <= k < |desired|
      ensures Get(back, desired[k].key) == Some(desired[k].value) <==> OwnLastWord(m, desired[k])
    {
      SecondLook(r, desired[k].key);
      StaysUpToDate(m, desired, prune, k);
    }
    if prune {
      SecondPruneIff(r, Unwanted(desired));
      StaysPruned(m, desired);
    }
  }

  /** A second run over what the first left finds nothing to do if and only if the first found
      nothing either, or no nested `export` line of the text comes back as a desired name with
      another value or as a name to prune. */
  lemma ConvergesIff(text: string, desired: seq<Entry>, prune: bool)
    requires Distinct(desired) && AllClean(desired)
    ensures Quiet(NextText(text, desired, prune), desired, prune) <==>
      Quiet(text, desired, prune) || Settles(Parse(text), desired, prune)
  {
    ParseIsTidy(text);
    if !Quiet(text, desired, prune) {
      SecondRun(Parse(text), desired, prune);
    }
  }

  /** With nothing to do, there is nothing to change. */
  lemma QuietChangesNothing(m: seq<Entry>, desired: seq<Entry>, prune: bool)
    requires Distinct(m) && Distinct(desired)
    requires ToUpdate(m, desired) == [] && PruneList(m, desired, prune) == []
    ensures Reconciled(m, desired, prune) == m
  {
    UpToDateChangesNothing(m, desired);
    if prune {
      WithoutNothing(m, Unwanted(desired));
    }
  }

  lemma UpToDateChangesNothing(m: seq<Entry>, desired: seq<Entry>)
    requires Distinct(m) && ToUpdate(m, desired) == []
    ensures Updated(m, desired) == m
  {
    UpToDateIff(m, desired);
    UpToDateAddsNothing(m, desired, |desired|);
    assert desired[..|desired|] == desired;
    UpToDateOverridesNothing(m, desired);
  }

  lemma UpToDateOverridesNothing(m: seq<Entry>, desired: seq<Entry>)
    requires Distinct(m)
    requires forall k :: 0 <= k < |desired| ==> Get(m, desired[k].key) == Some(desired[k].value)
    ensures Overridden(m, desired) == m
  {
    forall i | 0 <= i < |m| ensures Overridden(m, desired)[i] == m[i] {
      FindOwn(m, i);
      if Has(desired, m[i].key) {
        assert desired[Find(desired, m[i].key)].key == m[i].key;
      }
    }
  }

  lemma {:induction false} UpToDateAddsNothing(m: seq<Entry>, desired: seq<Entry>, n: nat)
    requires n <= |desired|
    requires forall k :: 0 <= k < |desired| ==> Get(m, desired[k].key) == Some(desired[k].value)
    ensures Added(m, desired[..n]) == []
  {
    if n > 0 {
      UpToDateAddsNothing(m, desired, n - 1);
      AddedUpTo(m, desired, n - 1);
    }
  }

  lemma {:induction false} WithoutNothing(m: seq<Entry>, choose: string -> bool)
    requires Chosen(m, choose) == []
    ensures Without(m, choose) == m
  {
    if m != [] {
      var last := |m| - 1;
      assert |Chosen(m, choose)| == |Chosen(m[..last], choose)| + if choose(m[last].key) then 1 else 0;
      WithoutNothing(m[..last], choose);
      assert Without(m, choose) == Without(m[..last], choose) + [m[last]];
    }
  }

  /** On a text without shadowed names an applied run is read back as what it should leave, and
      a second run finds nothing. */
  lemma CleanRun(text: string, desired: seq<Entry>, prune: bool)
    requires Distinct(desired) && AllClean(desired) && AllClean(Parse(text))
    ensures Parse(NextText(text, desired, prune)) == Reconciled(Parse(text), desired, prune)
    ensures Quiet(NextText(text, desired, prune), desired, prune)
  {
    var m := Parse(text);
    ParseIsTidy(text);
    ConvergesIff(text, desired, prune);
    CleanSettles(m, desired, prune);
    if Quiet(text, desired, prune) {
      QuietChangesNothing(m, desired, prune);
    } else {
      ReconciledIsClean(m, desired, prune);
      ReconciledIsDistinct(m, desired, prune);
      RoundTrip(Reconciled(m, desired, prune));
    }
  }

  lemma CleanSettles(m: seq<Entry>, desired: seq<Entry>, prune: bool)
    requires Distinct(m) && AllClean(m)
    ensures Settles(m, desired, prune)
  {
    forall k | 0 <= k < |desired| ensures OwnLastWord(m, desired[k]) {
      var key := desired[k].key;
      if Has(m, key) {
        var at := Find(m, key);
        CleanEchoes(m[at], key);
        LastWordThere(m, key, at);
        var i := LastWordFrom(m, key);
        CleanEchoes(m[i], key);
      }
    }
  }

  lemma ReconciledIsClean(m: seq<Entry>, desired: seq<Entry>, prune: bool)
    requires AllClean(m) && AllClean(desired)
    ensures AllClean(Reconciled(m, desired, prune))
  {
    var r := Reconciled(m, desired, prune);
    ReconciledIsTidy(m, desired, prune);
    forall j | 0 <= j < |r| ensures Clean(r[j]) {
      ReconciledFrom(m, desired, prune, j);
      assert r[j] in desired || exists i :: 0 <= i < |m| && r[j] == Override(m[i], desired);
    }
  }

  lemma ReconciledIsDistinct(m: seq<Entry>, desired: seq<Entry>, prune: bool)
    requires Distinct(m) && Distinct(desired)
    ensures Distinct(Reconciled(m, desired, prune))
  {
    UpdatedIsDistinct(m, desired);
    WithoutIsDistinct(Updated(m, desired), Unwanted(desired));
  }

  lemma {:induction false} WithoutIsDistinct(m: seq<Entry>, choose: string -> bool)
    requires Distinct(m)
    ensures Distinct(Without(m, choose))
  {
    if m != [] {
      var last := |m| - 1;
      WithoutIsDistinct(m[..last], choose);
      forall j | 0 <= j < |Without(m[..last], choose)| ensures Without(m[..last], choose)[j].key != m[last].key {
        var i := WithoutFrom(m[..last], choose, j);
      }
    }
  }

  // ------------------------------------------------------------ two texts for which one run is not enough

  /** `export NAME` as a name, for a name the parser reads back. */
  lemma NestedIsTidy(e: Entry)
    requires Clean(e) && e.key != []
    ensures Tidy(Entry(EXPORT + e.key, e.value)) && Exported(EXPORT + e.key) && Unnested(EXPORT + e.key) == e.key
    ensures Echo(Entry(EXPORT + e.key, e.value)) == Some(e)
  {
    var key := EXPORT + e.key;
    ExportIsPlain(e.key);
    assert '=' !in EXPORT;
    assert key[7..] == e.key;
    StripIsStripped(e.key);
  }

  /** Every dictionary a text can hold that leaves the first run something to do and does not
      settle makes one run that is not enough. */
  lemma RelapseHappens(m: seq<Entry>, desired: seq<Entry>, prune: bool) returns (text: string)
    requires Distinct(m) && AllTidy(m) && Distinct(desired) && AllClean(desired)
    requires ToUpdate(m, desired) != [] || PruneList(m, desired, prune) != []
    requires !Settles(m, desired, prune)
    ensures Parse(text) == m && !Quiet(NextText(text, desired, prune), desired, prune)
  {
    text := ParsedExactlyTidy(m);
    ConvergesIff(text, desired, prune);
  }

  /** A desired name that is absent leaves the first run something to do. */
  lemma AbsentIsToUpdate(m: seq<Entry>, desired: seq<Entry>, k: nat)
    requires k < |desired| && !Has(m, desired[k].key)
    ensures ToUpdate(m, desired) != []
  {
    UpToDateIff(m, desired);
    assert Get(m, desired[k].key) == None;
  }

  function Nested(e: Entry): Entry {
    Entry(EXPORT + e.key, e.value)
  }

  /** A desired variable that the text also sets otherwise by a nested `export`: the run that
      adds another variable loses it. */
  lemma NestedExportReverts(own: Entry, stale: Entry, other: Entry) returns (text: string)
    requires Clean(own) && Clean(stale) && Clean(other)
    requires own.key != [] && stale.key == own.key && stale.value != own.value && other.key != own.key
    ensures Parse(text) == [own, Nested(stale)]
    ensures !Quiet(NextText(text, [own, other], false), [own, other], false)
  {
    var m, desired := [own, Nested(stale)], [own, other];
    NestedIsTidy(stale);
    FindIs(m, other.key, 2);
    NestedHasLastWord(m, own, m[1]);
    assert !OwnLastWord(m, desired[0]);
    AbsentIsToUpdate(m, desired, 1);
    text := RelapseHappens(m, desired, false);
  }

  lemma NestedHasLastWord(m: seq<Entry>, own: Entry, nested: Entry)
    requires m == [own, nested] && EchoesAs(nested, own.key) && nested.key != own.key && nested.value != own.value
    ensures !OwnLastWord(m, own)
  {
    HasElement(m, 0);
  }

  /** A prunable name hidden behind a nested `export` is pruned only by the second run. */
  lemma NestedExportIsPrunedLate(name: Entry, wanted: Entry) returns (text: string)
    requires Clean(name) && Clean(wanted) && Prunable(name.key) && wanted.key != name.key
    ensures Parse(text) == [Nested(name)]
    ensures !Quiet(NextText(text, [wanted], true), [wanted], true)
  {
    NestedPrunable(name, wanted);
    NestedIsNew(name, wanted);
    text := UnwantedRelapses(Nested(name), wanted);
  }

  lemma UnwantedRelapses(e: Entry, wanted: Entry) returns (text: string)
    requires Tidy(e) && Clean(wanted) && !Has([e], wanted.key) && !NestedIsWanted(e, [wanted])
    ensures Parse(text) == [e] && !Quiet(NextText(text, [wanted], true), [wanted], true)
  {
    OneEntry(e);
    OneEntry(wanted);
    UnwantedUnsettles([e], [wanted]);
    AbsentIsToUpdate([e], [wanted], 0);
    text := RelapseHappens([e], [wanted], true);
  }

  lemma OneEntry(e: Entry)
    ensures Distinct([e]) && (Tidy(e) ==> AllTidy([e])) && (Clean(e) ==> AllClean([e]))
  {}

  lemma UnwantedUnsettles(m: seq<Entry>, desired: seq<Entry>)
    requires m != [] && !NestedIsWanted(m[0], desired)
    ensures !Settles(m, desired, true)
  {}

  lemma NestedPrunable(name: Entry, wanted: Entry)
    requires Clean(name) && Prunable(name.key) && wanted.key != name.key
    ensures Tidy(Nested(name)) && !NestedIsWanted(Nested(name), [wanted])
  {
    assert name.key != [];
    NestedIsTidy(name);
    FindIs([wanted], name.key, 1);
    assert Unnested(Nested(name).key) == name.key;
  }

  /** A clean name is not the nested one. */
  lemma NestedIsNew(name: Entry, wanted: Entry)
    requires Clean(wanted)
    ensures !Has([Nested(name)], wanted.key)
  {
    assert (EXPORT + name.key)[..7] == EXPORT;
    FindIs([Nested(name)], wanted.key, 1);
  }
}
