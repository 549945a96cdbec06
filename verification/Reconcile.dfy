/** The env part of `execute_reconcile` in tools/platform/commands_dokploy.py. */
module Reconcile {
  import opened Wrappers
  import opened PyStrings
  import opened EnvMaps
  import opened EnvText

  const WEB_COMMAND: string := "ODOO_WEB_COMMAND"
  const OVERRIDE_PREFIX: string := "ENV_OVERRIDE_"

  /** `_is_reconcile_prunable_env_key`. */
  predicate Prunable(key: string) {
    key == WEB_COMMAND || StartsWith(key, OVERRIDE_PREFIX)
  }

  /** The prunable names, spelled out. */
  lemma PrunableIff(key: string)
    ensures Prunable(key) <==> key == "ODOO_WEB_COMMAND" || (13 <= |key| && key[..13] == "ENV_OVERRIDE_")
  {
    StartsWithIff(key, OVERRIDE_PREFIX);
    assert OccursAt(key, OVERRIDE_PREFIX, 0) ==> key[0..13] == key[..13];
  }

  /** A target's own variables: those with a name. */
  function Named(env: seq<Entry>): seq<Entry> {
    if env == [] then []
    else Named(env[..|env| - 1]) + if env[|env| - 1].key == [] then [] else [env[|env| - 1]]
  }

  // ------------------------------------------------------------ what a run should do

  /** The desired variables the target does not have as desired. */
  function ToUpdate(m: seq<Entry>, desired: seq<Entry>): seq<string> {
    if desired == [] then []
    else
      var e := desired[|desired| - 1];
      ToUpdate(m, desired[..|desired| - 1]) + if Get(m, e.key) == Some(e.value) then [] else [e.key]
  }

  /** What pruning takes away: it is prunable and not desired. */
  function Unwanted(desired: seq<Entry>): string -> bool {
    key => Prunable(key) && !Has(desired, key)
  }

  function Chosen(m: seq<Entry>, choose: string -> bool): seq<string> {
    if m == [] then []
    else Chosen(m[..|m| - 1], choose) + if choose(m[|m| - 1].key) then [m[|m| - 1].key] else []
  }

  function Without(m: seq<Entry>, choose: string -> bool): seq<Entry> {
    if m == [] then []
    else Without(m[..|m| - 1], choose) + if choose(m[|m| - 1].key) then [] else [m[|m| - 1]]
  }

  /** The target's variables, with the desired values where there are any. */
  function Overridden(m: seq<Entry>, desired: seq<Entry>): seq<Entry> {
    seq(|m|, i requires 0 <= i < |m| =>
      if Has(desired, m[i].key) then Entry(m[i].key, Get(desired, m[i].key).value) else m[i])
  }

  /** The desired variables the target does not have at all. */
  function Added(m: seq<Entry>, desired: seq<Entry>): seq<Entry> {
    if desired == [] then []
    else
      var e := desired[|desired| - 1];
      Added(m, desired[..|desired| - 1]) + if Has(m, e.key) then [] else [e]
  }

  function Updated(m: seq<Entry>, desired: seq<Entry>): seq<Entry> {
    Overridden(m, desired) + Added(m, desired)
  }

  /** What a run leaves of the variables `m`. */
  function Reconciled(m: seq<Entry>, desired: seq<Entry>, prune: bool): seq<Entry> {
    if prune then Without(Updated(m, desired), Unwanted(desired)) else Updated(m, desired)
  }

  /** The keys a run reports, and whether it has anything to write. */
  function PruneList(m: seq<Entry>, desired: seq<Entry>, prune: bool): seq<string> {
    if prune then Chosen(m, Unwanted(desired)) else []
  }

  predicate Quiet(text: string, desired: seq<Entry>, prune: bool) {
    ToUpdate(Parse(text), desired) == [] && PruneList(Parse(text), desired, prune) == []
  }

  /** The target's env text after an applied run. */
  function NextText(text: string, desired: seq<Entry>, prune: bool): string {
    if Quiet(text, desired, prune) then text else Print(Reconciled(Parse(text), desired, prune))
  }

  // ------------------------------------------------------------ the loops

  class Target {
    var env: string

    constructor (text: string)
      ensures env == text
    {
      env := text;
    }

    /** One pass over the target: update, prune, and write back when applying changed something. */
    method Reconcile(wanted: seq<Entry>, apply: bool, prune: bool)
      returns (updatedKeys: seq<string>, prunedKeys: seq<string>, written: bool)
      requires Distinct(wanted)
      modifies this
      ensures updatedKeys == ToUpdate(Parse(old(env)), Named(wanted))
      ensures prunedKeys == PruneList(Parse(old(env)), Named(wanted), prune)
      ensures written <==> apply && !Quiet(old(env), Named(wanted), prune)
      ensures env == if apply then NextText(old(env), Named(wanted), prune) else old(env)
    {
      var envMap := ParseText(env);
      var desired := Named(wanted);
      NamedIsDistinct(wanted);
      ParseIsTidy(env);
      envMap, updatedKeys := Update(envMap, desired);
      prunedKeys := [];
      if prune {
        envMap, prunedKeys := Prune(envMap, desired);
      }
      written := (updatedKeys != [] || prunedKeys != []) && apply;
      if written {
        env := Print(envMap);
      }
    }
  }

  method Update(before: seq<Entry>, desired: seq<Entry>) returns (envMap: seq<Entry>, keys: seq<string>)
    requires Distinct(before) && Distinct(desired)
    ensures envMap == Updated(before, desired) && Distinct(envMap) && keys == ToUpdate(before, desired)
    ensures Chosen(envMap, Unwanted(desired)) == Chosen(before, Unwanted(desired))
  {
    envMap, keys := before, [];
    assert Updated(before, []) == before;
    var i := 0;
    while i < |desired|
      invariant i <= |desired| && Distinct(envMap)
      invariant envMap == Updated(before, desired[..i]) && keys == ToUpdate(before, desired[..i])
    {
      UpdateStep(before, desired, i);
      PutDistinct(envMap, desired[i]);
      if Get(envMap, desired[i].key) != Some(desired[i].value) {
        keys := keys + [desired[i].key];
        envMap := Put(envMap, desired[i]);
      }
      i := i + 1;
    }
    assert desired[..i] == desired;
    UpdatedPrunesTheSame(before, desired);
  }

  method Prune(before: seq<Entry>, desired: seq<Entry>) returns (envMap: seq<Entry>, keys: seq<string>)
    requires Distinct(before)
    ensures envMap == Without(before, Unwanted(desired)) && keys == Chosen(before, Unwanted(desired))
  {
    envMap, keys := before, [];
    ghost var unwanted := Unwanted(desired);
    var i := 0;
    while i < |before|
      invariant i <= |before|
      invariant envMap == Without(before[..i], unwanted) + before[i..] && keys == Chosen(before[..i], unwanted)
    {
      PruneStep(before, unwanted, i);
      envMap, keys := PruneOne(envMap, keys, desired, before[i].key);
      i := i + 1;
    }
    assert before[..i] == before;
  }

  method PruneOne(before: seq<Entry>, pruned: seq<string>, desired: seq<Entry>, key: string)
    returns (envMap: seq<Entry>, keys: seq<string>)
    ensures envMap == if Unwanted(desired)(key) then Remove(before, key) else before
    ensures keys == pruned + if Unwanted(desired)(key) then [key] else []
  {
    envMap, keys := before, pruned;
    if Has(desired, key) {
      return;
    }
    if !Prunable(key) {
      return;
    }
    envMap := Remove(envMap, key);
    keys := keys + [key];
  }

  lemma {:induction false} NamedFrom(env: seq<Entry>, k: nat)
    requires k < |Named(env)|
    ensures Named(env)[k] in env && Named(env)[k].key != []
  {
    var last := |env| - 1;
    if k < |Named(env[..last])| {
      NamedFrom(env[..last], k);
    }
  }

  lemma {:induction false} NamedIsDistinct(env: seq<Entry>)
    requires Distinct(env)
    ensures Distinct(Named(env))
  {
    if env != [] {
      var last := |env| - 1;
      NamedIsDistinct(env[..last]);
      forall k | 0 <= k < |Named(env[..last])| ensures Named(env[..last])[k].key != env[last].key {
        NamedFrom(env[..last], k);
      }
    }
  }

  lemma {:induction false} AddedFrom(m: seq<Entry>, desired: seq<Entry>, j: nat) returns (k: nat)
    requires j < |Added(m, desired)|
    ensures k < |desired| && Added(m, desired)[j] == desired[k] && !Has(m, desired[k].key)
  {
    var last := |desired| - 1;
    if j < |Added(m, desired[..last])| {
      k := AddedFrom(m, desired[..last], j);
    } else {
      k := last;
    }
  }

  lemma AddedIsDesired(m: seq<Entry>, desired: seq<Entry>, j: nat)
    requires j < |Added(m, desired)|
    ensures Has(desired, Added(m, desired)[j].key) && !Has(m, Added(m, desired)[j].key)
  {
    var k := AddedFrom(m, desired, j);
    HasElement(desired, k);
  }

  lemma FindInUpdated(m: seq<Entry>, desired: seq<Entry>, key: string)
    requires !Has(desired, key)
    ensures Find(Updated(m, desired), key) == if Has(m, key) then Find(m, key) else |Updated(m, desired)|
  {
    var u, at := Updated(m, desired), Find(m, key);
    forall j | 0 <= j < at ensures u[j].key != key {
      FoundFirst(m, key, 0, j);
    }
    if at < |m| {
      FindIs(u, key, at);
    } else {
      forall j | |m| <= j < |u| ensures u[j].key != key {
        AddedIsDesired(m, desired, j - |m|);
      }
      FindIs(u, key, |u|);
    }
  }

  lemma NewToPrefix(desired: seq<Entry>, i: nat)
    requires Distinct(desired) && i < |desired|
    ensures !Has(desired[..i], desired[i].key)
  {
    FindIs(desired[..i], desired[i].key, i);
  }

  lemma GetUpTo(desired: seq<Entry>, i: nat, key: string)
    requires Distinct(desired) && i < |desired|
    ensures Get(desired[..i + 1], key) ==
      if key == desired[i].key then Some(desired[i].value) else Get(desired[..i], key)
  {
    NewToPrefix(desired, i);
    assert desired[..i + 1] == Put(desired[..i], desired[i]);
    GetPut(desired[..i], desired[i], key);
  }

  lemma AddedUpTo(m: seq<Entry>, desired: seq<Entry>, i: nat)
    requires i < |desired|
    ensures Added(m, desired[..i + 1]) == Added(m, desired[..i]) + if Has(m, desired[i].key) then [] else [desired[i]]
    ensures ToUpdate(m, desired[..i + 1]) ==
      ToUpdate(m, desired[..i]) + if Get(m, desired[i].key) == Some(desired[i].value) then [] else [desired[i].key]
  {
    assert desired[..i + 1][..i] == desired[..i];
  }

  lemma OverriddenUpTo(m: seq<Entry>, desired: seq<Entry>, i: nat)
    requires Distinct(m) && Distinct(desired) && i < |desired|
    ensures
      var at := Find(m, desired[i].key);
      var before := Overridden(m, desired[..i]);
      Overridden(m, desired[..i + 1]) == if at < |m| then before[at := desired[i]] else before
  {
    var before, after, at := Overridden(m, desired[..i]), Overridden(m, desired[..i + 1]), Find(m, desired[i].key);
    forall j | 0 <= j < |m| ensures after[j] == if j == at then desired[i] else before[j] {
      GetUpTo(desired, i, m[j].key);
      FindOwn(m, j);
    }
  }

  lemma PutInUpdated(m: seq<Entry>, desired: seq<Entry>, i: nat)
    requires Distinct(m) && Distinct(desired) && i < |desired|
    ensures Put(Updated(m, desired[..i]), desired[i]) == Updated(m, desired[..i + 1])
  {
    NewToPrefix(desired, i);
    FindInUpdated(m, desired[..i], desired[i].key);
    AddedUpTo(m, desired, i);
    OverriddenUpTo(m, desired, i);
    var kept, added, at := Overridden(m, desired[..i]), Added(m, desired[..i]), Find(m, desired[i].key);
    PutAt(kept, added, desired[i], at);
  }

  lemma PutAt(a: seq<Entry>, b: seq<Entry>, e: Entry, at: nat)
    requires at <= |a| && Find(a + b, e.key) == if at < |a| then at else |a + b|
    ensures Put(a + b, e) == if at < |a| then a[at := e] + b else a + (b + [e])
  {
    assert a + b + [e] == a + (b + [e]);
    if at < |a| {
      assert (a + b)[at := e] == a[at := e] + b;
    }
  }

  lemma GetInUpdated(m: seq<Entry>, desired: seq<Entry>, e: Entry)
    requires !Has(desired, e.key)
    ensures Get(Updated(m, desired), e.key) == Get(m, e.key)
    ensures Get(m, e.key) == Some(e.value) ==> Put(Updated(m, desired), e) == Updated(m, desired)
  {
    FindInUpdated(m, desired, e.key);
    var at := Find(m, e.key);
    if at < |m| {
      assert Updated(m, desired)[at] == m[at];
    }
  }

  /** One turn of the update loop. */
  lemma UpdateStep(m: seq<Entry>, desired: seq<Entry>, i: nat)
    requires Distinct(m) && Distinct(desired) && i < |desired|
    ensures
      var u, e := Updated(m, desired[..i]), desired[i];
      && Put(u, e) == Updated(m, desired[..i + 1]) && Get(u, e.key) == Get(m, e.key)
      && (Get(u, e.key) == Some(e.value) ==> Put(u, e) == u)
    ensures ToUpdate(m, desired[..i + 1]) ==
      ToUpdate(m, desired[..i]) + if Get(m, desired[i].key) == Some(desired[i].value) then [] else [desired[i].key]
  {
    NewToPrefix(desired, i);
    AddedUpTo(m, desired, i);
    PutInUpdated(m, desired, i);
    GetInUpdated(m, desired[..i], desired[i]);
  }

  lemma {:induction false} ChosenSplit(a: seq<Entry>, b: seq<Entry>, choose: string -> bool)
    ensures Chosen(a + b, choose) == Chosen(a, choose) + Chosen(b, choose)
  {
    if b == [] {
      assert a + b == a;
    } else {
      var last := |b| - 1;
      ChosenSplit(a, b[..last], choose);
      assert (a + b)[..|a + b| - 1] == a + b[..last];
    }
  }

  lemma {:induction false} ChoosesNothing(m: seq<Entry>, choose: string -> bool)
    requires forall i :: 0 <= i < |m| ==> !choose(m[i].key)
    ensures Chosen(m, choose) == []
  {
    if m != [] {
      ChoosesNothing(m[..|m| - 1], choose);
    }
  }

  lemma {:induction false} SameKeysSameChoice(m: seq<Entry>, n: seq<Entry>, choose: string -> bool)
    requires |m| == |n| && forall i :: 0 <= i < |m| ==> m[i].key == n[i].key
    ensures Chosen(m, choose) == Chosen(n, choose)
  {
    if m != [] {
      SameKeysSameChoice(m[..|m| - 1], n[..|n| - 1], choose);
    }
  }

  lemma AddedIsWanted(m: seq<Entry>, desired: seq<Entry>, j: nat)
    requires j < |Added(m, desired)|
    ensures !Unwanted(desired)(Added(m, desired)[j].key)
  {
    AddedIsDesired(m, desired, j);
  }

  /** Updating neither adds nor removes anything to prune. */
  lemma UpdatedChoosesTheSame(m: seq<Entry>, desired: seq<Entry>, choose: string -> bool)
    requires forall j :: 0 <= j < |Added(m, desired)| ==> !choose(Added(m, desired)[j].key)
    ensures Chosen(Updated(m, desired), choose) == Chosen(m, choose)
  {
    ChosenSplit(Overridden(m, desired), Added(m, desired), choose);
    SameKeysSameChoice(Overridden(m, desired), m, choose);
    ChoosesNothing(Added(m, desired), choose);
  }

  lemma UpdatedPrunesTheSame(m: seq<Entry>, desired: seq<Entry>)
    ensures Chosen(Updated(m, desired), Unwanted(desired)) == Chosen(m, Unwanted(desired))
  {
    forall j | 0 <= j < |Added(m, desired)| ensures !Unwanted(desired)(Added(m, desired)[j].key) {
      AddedIsWanted(m, desired, j);
    }
    UpdatedChoosesTheSame(m, desired, Unwanted(desired));
  }

  lemma {:induction false} WithoutFrom(m: seq<Entry>, choose: string -> bool, j: nat) returns (i: nat)
    requires j < |Without(m, choose)|
    ensures i < |m| && m[i] == Without(m, choose)[j] && !choose(m[i].key)
  {
    var last := |m| - 1;
    if j < |Without(m[..last], choose)| {
      i := WithoutFrom(m[..last], choose, j);
    } else {
      i := last;
    }
  }

  lemma WithoutUpTo(m: seq<Entry>, choose: string -> bool, i: nat)
    requires i < |m|
    ensures Without(m[..i + 1], choose) == Without(m[..i], choose) + if choose(m[i].key) then [] else [m[i]]
    ensures Chosen(m[..i + 1], choose) == Chosen(m[..i], choose) + if choose(m[i].key) then [m[i].key] else []
  {
    assert m[..i + 1][..i] == m[..i];
  }

  /** One turn of the prune loop. */
  lemma PruneStep(m: seq<Entry>, choose: string -> bool, i: nat)
    requires Distinct(m) && i < |m|
    ensures
      var before, after := Without(m[..i], choose) + m[i..], Without(m[..i + 1], choose) + m[i + 1..];
      after == if choose(m[i].key) then Remove(before, m[i].key) else before
    ensures Chosen(m[..i + 1], choose) == Chosen(m[..i], choose) + if choose(m[i].key) then [m[i].key] else []
  {
    var kept := Without(m[..i], choose);
    assert kept + m[i..] == kept + [m[i]] + m[i + 1..];
    WithoutUpTo(m, choose, i);
    if choose(m[i].key) {
      KeptIsOther(m, choose, i);
      RemoveAt(kept, m[i], m[i + 1..]);
    }
  }

  lemma KeptIsOther(m: seq<Entry>, choose: string -> bool, i: nat)
    requires Distinct(m) && i < |m|
    ensures
      var kept := Without(m[..i], choose);
      forall j :: 0 <= j < |kept| ==> kept[j].key != m[i].key
  {
    var kept := Without(m[..i], choose);
    forall j | 0 <= j < |kept| ensures kept[j].key != m[i].key {
      var k := WithoutFrom(m[..i], choose, j);
    }
  }

  lemma RemoveAt(a: seq<Entry>, e: Entry, b: seq<Entry>)
    requires forall j :: 0 <= j < |a| ==> a[j].key != e.key
    ensures Remove(a + [e] + b, e.key) == a + b
  {
    var m := a + [e] + b;
    assert m[|a|] == e;
    FindIs(m, e.key, |a|);
  }
}
