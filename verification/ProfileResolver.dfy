/** The resolver with its shared memo, and the loop over all targets. */
module ProfileResolver {
  import opened Wrappers
  import opened DokployProfiles
  import opened ProfileChains

  class Resolver {
    const profiles: Named
    const projects: Named
    var resolved: map<string, Settings>

    constructor (profiles: Named, projects: Named)
      ensures this.profiles == profiles && this.projects == projects && resolved == map[]
    {
      this.profiles, this.projects := profiles, projects;
      resolved := map[];
    }

    /** Whatever the memo holds is what the profile resolves to on its own. */
    ghost predicate MemoSound()
      reads this
    {
      forall name :: name in resolved ==> Resolve(profiles, projects, name, []) == Success(resolved[name])
    }

    method ResolveProfile(name: string, active: seq<string>) returns (result: Result<Settings, Error>)
      requires MemoSound() && OnPath(profiles, active, name)
      modifies this`resolved
      ensures MemoSound()
      ensures result == Resolve(profiles, projects, name, active)
      ensures result.Success? ==> name in resolved
      decreases |Unvisited(profiles, active)|, 1
    {
      ActiveIrrelevant(profiles, projects, active, name);
      if name in resolved {
        return Success(resolved[name]);
      }
      if name in active {
        return Failure(Cycle(active + [name]));
      }
      if name !in profiles || profiles[name].Null? {
        return Failure(UnknownProfile(name));
      }
      if !profiles[name].Table? {
        return Failure(ProfileNotATable(name));
      }
      result := ResolveTable(name, active);
      if result.Success? {
        resolved := resolved[name := result.value];
      }
    }

    /** The part after the guards: what it inherits, then its own settings on top. */
    method ResolveTable(name: string, active: seq<string>) returns (result: Result<Settings, Error>)
      requires MemoSound() && OnPath(profiles, active, name)
      requires name !in active && IsProfile(profiles, name)
      modifies this`resolved
      ensures MemoSound()
      ensures result == Resolve(profiles, projects, name, active)
      decreases |Unvisited(profiles, active)|, 0
    {
      var parent := Parent(profiles, name);
      var merged: Settings := map[];
      if parent != "" {
        UnvisitedShrinks(profiles, active, name);
        OnPathStep(profiles, active, name);
        var inherited := ResolveProfile(parent, active + [name]);
        if inherited.Failure? {
          return inherited;
        }
        merged := inherited.value;
      }
      merged := MergeSettings(merged, Payload(profiles, name));
      result := ResolveProject(merged, projects, InProfile(name));
      ResolveStep(profiles, projects, name, active);
    }
  }

  lemma OnPathStep(profiles: Named, active: seq<string>, name: string)
    requires OnPath(profiles, active, name) && name !in active && IsProfile(profiles, name)
    requires Parent(profiles, name) != ""
    ensures OnPath(profiles, active + [name], Parent(profiles, name))
  {
    LinkedAppend(profiles, name, active, name);
  }

  // ------------------------------------------------------------ targets

  /** One entry of `targets`; anything but a table is passed through. */
  function ResolveTarget(profiles: Named, projects: Named, defaults: Settings, target: Value,
      index: nat): Result<Value, Error> {
    if !target.Table? then Success(target)
    else
      var profile := NameAt(target.entries, Profile);
      var inherited :- if profile == "" then Success(map[]) else Resolve(profiles, projects, profile, []);
      var merged := Merge(Merge(defaults, inherited), target.entries - {Profile});
      var settings :- ResolveProject(merged, projects, InTarget(index));
      Success(Table(settings))
  }

  /** All targets, each on its own, or the first error. */
  function ResolveTargets(profiles: Named, projects: Named, defaults: Settings,
      targets: seq<Value>): Result<seq<Value>, Error> {
    if targets == [] then Success([])
    else
      var last := |targets| - 1;
      var before :- ResolveTargets(profiles, projects, defaults, targets[..last]);
      var target :- ResolveTarget(profiles, projects, defaults, targets[last], |targets|);
      Success(before + [target])
  }

  method NormalizeTargets(profiles: Named, projects: Named, defaults: Settings, targets: seq<Value>)
    returns (result: Result<seq<Value>, Error>)
    ensures result == ResolveTargets(profiles, projects, defaults, targets)
  {
    var resolver := new Resolver(profiles, projects);
    var done: seq<Value> := [];
    for i := 0 to |targets|
      invariant resolver.MemoSound() && resolver.profiles == profiles && resolver.projects == projects
      invariant ResolveTargets(profiles, projects, defaults, targets[..i]) == Success(done)
    {
      assert targets[..i + 1][..i] == targets[..i];
      var one := NormalizeTarget(resolver, defaults, targets[i], i + 1);
      if one.Failure? {
        FirstErrorStays(profiles, projects, defaults, targets, i + 1);
        return Failure(one.error);
      }
      done := done + [one.value];
    }
    assert targets[..|targets|] == targets;
    result := Success(done);
  }

  method NormalizeTarget(resolver: Resolver, defaults: Settings, target: Value, index: nat)
    returns (result: Result<Value, Error>)
    requires resolver.MemoSound()
    modifies resolver`resolved
    ensures resolver.MemoSound()
    ensures result == ResolveTarget(resolver.profiles, resolver.projects, defaults, target, index)
  {
    if !target.Table? {
      return Success(target);
    }
    var profile := NameAt(target.entries, Profile);
    var merged := defaults;
    if profile != "" {
      var inherited := resolver.ResolveProfile(profile, []);
      if inherited.Failure? {
        return Failure(inherited.error);
      }
      merged := MergeSettings(merged, inherited.value);
    } else {
      MergeIdentity(defaults);
    }
    merged := MergeSettings(merged, target.entries - {Profile});
    var settings := ResolveProject(merged, resolver.projects, InTarget(index));
    result := if settings.Success? then Success(Table(settings.value)) else Failure(settings.error);
  }

  lemma {:induction false} FirstErrorStays(profiles: Named, projects: Named, defaults: Settings, targets: seq<Value>,
      k: nat)
    requires k <= |targets| && ResolveTargets(profiles, projects, defaults, targets[..k]).Failure?
    ensures ResolveTargets(profiles, projects, defaults, targets) ==
      ResolveTargets(profiles, projects, defaults, targets[..k])
  {
    if k < |targets| {
      assert targets[..|targets| - 1][..k] == targets[..k];
      FirstErrorStays(profiles, projects, defaults, targets[..|targets| - 1], k);
    } else {
      assert targets[..k] == targets;
    }
  }

  /** No target depends on the ones before it: each gets what it resolves to alone. */
  lemma {:induction false} TargetsAreIndependent(profiles: Named, projects: Named, defaults: Settings,
      targets: seq<Value>, i: nat)
    requires i < |targets| && ResolveTargets(profiles, projects, defaults, targets).Success?
    ensures |ResolveTargets(profiles, projects, defaults, targets).value| == |targets|
    ensures Success(ResolveTargets(profiles, projects, defaults, targets).value[i])
      == ResolveTarget(profiles, projects, defaults, targets[i], i + 1)
  {
    var last := |targets| - 1;
    TargetsLength(profiles, projects, defaults, targets);
    TargetsLength(profiles, projects, defaults, targets[..last]);
    if i < last {
      TargetsAreIndependent(profiles, projects, defaults, targets[..last], i);
    }
  }

  lemma {:induction false} TargetsLength(profiles: Named, projects: Named, defaults: Settings, targets: seq<Value>)
    requires ResolveTargets(profiles, projects, defaults, targets).Success?
    ensures |ResolveTargets(profiles, projects, defaults, targets).value| == |targets|
  {
    if targets != [] {
      TargetsLength(profiles, projects, defaults, targets[..|targets| - 1]);
    }
  }

  // ------------------------------------------------------------ the nearest definition wins

  /** The definition of `key` in the first layer that has one. */
  function Nearest(layers: seq<Settings>, key: Key): Option<Value> {
    if layers == [] then None
    else if key in layers[0] then Some(layers[0][key])
    else Nearest(layers[1..], key)
  }

  /** The profiles of a chain, nearest first, with nothing below. */
  function Payloads(profiles: Named, path: seq<string>, k: nat): seq<Settings>
    requires k <= |path| && forall i :: 0 <= i < |path| ==> IsProfile(profiles, path[i])
    decreases |path| - k
  {
    if k == |path| then [] else [Payload(profiles, path[k])] + Payloads(profiles, path, k + 1)
  }

  predicate Plain(key: Key) {
    key != Env && key != Project && key != ProjectName
  }

  lemma {:induction false} FoldNearest(profiles: Named, projects: Named, path: seq<string>, k: nat, key: Key)
    requires k <= |path| && forall i :: 0 <= i < |path| ==> IsProfile(profiles, path[i])
    requires Fold(profiles, projects, path, k).Success? && Plain(key)
    ensures Lookup(Fold(profiles, projects, path, k).value, key) == Nearest(Payloads(profiles, path, k), key)
    decreases |path| - k
  {
    if k < |path| {
      FoldNearest(profiles, projects, path, k + 1, key);
      var base := Fold(profiles, projects, path, k + 1).value;
      ResolveProjectTouches(Merge(base, Payload(profiles, path[k])), projects, InProfile(path[k]), key);
    }
  }

  lemma {:induction false} NearestAppend(layers: seq<Settings>, last: Settings, key: Key)
    ensures Nearest(layers + [last], key) ==
      if Nearest(layers, key).Some? then Nearest(layers, key) else Lookup(last, key)
  {
    if layers == [] {
      assert [last][1..] == [];
    } else {
      NearestAppend(layers[1..], last, key);
      assert (layers + [last])[1..] == layers[1..] + [last];
    }
  }

  /** `path` is the whole inheritance chain of a target, empty when it names no profile. */
  ghost predicate ChainOf(profiles: Named, target: Settings, path: seq<string>) {
    if NameAt(target, Profile) == "" then path == [] else IsTrace(profiles, NameAt(target, Profile), path, Root)
  }

  /** What a resolved target is made of. */
  lemma TargetParts(profiles: Named, projects: Named, defaults: Settings, target: Settings, index: nat,
      path: seq<string>)
    returns (inherited: Settings)
    requires ChainOf(profiles, target, path)
    requires ResolveTarget(profiles, projects, defaults, Table(target), index).Success?
    ensures forall i :: 0 <= i < |path| ==> IsProfile(profiles, path[i])
    ensures Fold(profiles, projects, path, 0) == Success(inherited)
    ensures
      var merged := Merge(Merge(defaults, inherited), target - {Profile});
      var settings := ResolveProject(merged, projects, InTarget(index));
      && settings.Success?
      && ResolveTarget(profiles, projects, defaults, Table(target), index).value == Table(settings.value)
  {
    if path != [] {
      ResolveOutcome(profiles, projects, NameAt(target, Profile), path, Root);
    }
    inherited := Fold(profiles, projects, path, 0).value;
  }

  /** A plain key of a target comes from the nearest of target, chain and defaults. */
  lemma TargetNearest(profiles: Named, projects: Named, defaults: Settings, target: Settings, index: nat,
      path: seq<string>, key: Key)
    requires ChainOf(profiles, target, path) && Plain(key)
    requires ResolveTarget(profiles, projects, defaults, Table(target), index).Success?
    ensures
      var result := ResolveTarget(profiles, projects, defaults, Table(target), index).value;
      && (forall i :: 0 <= i < |path| ==> IsProfile(profiles, path[i]))
      && result.Table?
      && Lookup(result.entries, key) ==
         Nearest([target - {Profile}] + (Payloads(profiles, path, 0) + [defaults]), key)
  {
    var inherited := TargetParts(profiles, projects, defaults, target, index, path);
    FoldNearest(profiles, projects, path, 0, key);
    var own, layers := target - {Profile}, Payloads(profiles, path, 0);
    ResolveProjectTouches(Merge(Merge(defaults, inherited), own), projects, InTarget(index), key);
    NearestAppend(layers, defaults, key);
    NearestCons(own, layers + [defaults], key);
  }

  lemma NearestCons(own: Settings, layers: seq<Settings>, key: Key)
    ensures Nearest([own] + layers, key) == if key in own then Some(own[key]) else Nearest(layers, key)
  {
    assert ([own] + layers)[1..] == layers;
  }

  // ------------------------------------------------------------ and per variable inside `env`

  predicate EnvAbsentOrTable(settings: Settings) {
    Env in settings ==> settings[Env].Table?
  }

  /** The variables of a layer. */
  function EnvOf(settings: Settings): Settings {
    if EnvIsTable(settings) then settings[Env].entries else map[]
  }

  function NearestVariable(layers: seq<Settings>, variable: Key): Option<Value> {
    if layers == [] then None
    else if variable in EnvOf(layers[0]) then Some(EnvOf(layers[0])[variable])
    else NearestVariable(layers[1..], variable)
  }

  lemma MergeEnvs(base: Settings, overlay: Settings)
    requires EnvAbsentOrTable(base) && EnvAbsentOrTable(overlay)
    ensures EnvAbsentOrTable(Merge(base, overlay))
    ensures EnvOf(Merge(base, overlay)) == EnvOf(base) + EnvOf(overlay)
  {
  }

  lemma {:induction false} FoldNearestVariable(profiles: Named, projects: Named, path: seq<string>, k: nat,
      variable: Key)
    requires k <= |path| && forall i :: 0 <= i < |path| ==> IsProfile(profiles, path[i])
    requires forall i :: 0 <= i < |path| ==> EnvAbsentOrTable(Payload(profiles, path[i]))
    requires Fold(profiles, projects, path, k).Success?
    ensures
      var settings := Fold(profiles, projects, path, k).value;
      && EnvAbsentOrTable(settings)
      && Lookup(EnvOf(settings), variable) == NearestVariable(Payloads(profiles, path, k), variable)
    decreases |path| - k
  {
    if k < |path| {
      FoldNearestVariable(profiles, projects, path, k + 1, variable);
      var base, own := Fold(profiles, projects, path, k + 1).value, Payload(profiles, path[k]);
      MergedEnv(base, own, projects, InProfile(path[k]));
      NearestVariableCons(own, Payloads(profiles, path, k + 1), variable);
    }
  }

  lemma NearestVariableCons(own: Settings, layers: seq<Settings>, variable: Key)
    ensures NearestVariable([own] + layers, variable) ==
      if variable in EnvOf(own) then Some(EnvOf(own)[variable]) else NearestVariable(layers, variable)
  {
    assert ([own] + layers)[1..] == layers;
  }

  lemma MergedEnv(base: Settings, own: Settings, projects: Named, place: Place)
    requires EnvAbsentOrTable(base) && EnvAbsentOrTable(own)
    requires ResolveProject(Merge(base, own), projects, place).Success?
    ensures
      var settings := ResolveProject(Merge(base, own), projects, place).value;
      EnvAbsentOrTable(settings) && EnvOf(settings) == EnvOf(base) + EnvOf(own)
  {
    MergeEnvs(base, own);
    ResolveProjectTouches(Merge(base, own), projects, place, Env);
  }

  lemma {:induction false} NearestVariableAppend(layers: seq<Settings>, last: Settings, variable: Key)
    ensures NearestVariable(layers + [last], variable) ==
      if NearestVariable(layers, variable).Some? then NearestVariable(layers, variable)
      else Lookup(EnvOf(last), variable)
  {
    if layers == [] {
      assert [last][1..] == [];
    } else {
      NearestVariableAppend(layers[1..], last, variable);
      assert (layers + [last])[1..] == layers[1..] + [last];
    }
  }

  /** A variable of a target's `env` comes from the nearest of target, chain and defaults. */
  lemma TargetNearestVariable(profiles: Named, projects: Named, defaults: Settings, target: Settings, index: nat,
      path: seq<string>, variable: Key)
    requires ChainOf(profiles, target, path)
    requires EnvAbsentOrTable(defaults) && EnvAbsentOrTable(target)
    requires forall i :: 0 <= i < |path| ==>
      IsProfile(profiles, path[i]) && EnvAbsentOrTable(Payload(profiles, path[i]))
    requires ResolveTarget(profiles, projects, defaults, Table(target), index).Success?
    ensures
      var result := ResolveTarget(profiles, projects, defaults, Table(target), index).value;
      && result.Table?
      && Lookup(EnvOf(result.entries), variable) ==
         NearestVariable([target - {Profile}] + (Payloads(profiles, path, 0) + [defaults]), variable)
  {
    var inherited := TargetParts(profiles, projects, defaults, target, index, path);
    FoldNearestVariable(profiles, projects, path, 0, variable);
    var own, layers := target - {Profile}, Payloads(profiles, path, 0);
    assert EnvAbsentOrTable(own);
    TargetEnv(projects, defaults, inherited, own, index);
    LayeredVariable(own, layers, defaults, EnvOf(inherited), variable);
  }

  lemma LayeredVariable(own: Settings, layers: seq<Settings>, defaults: Settings, inherited: Settings, variable: Key)
    requires Lookup(inherited, variable) == NearestVariable(layers, variable)
    ensures Lookup(EnvOf(defaults) + inherited + EnvOf(own), variable) ==
      NearestVariable([own] + (layers + [defaults]), variable)
  {
    NearestVariableAppend(layers, defaults, variable);
    NearestVariableCons(own, layers + [defaults], variable);
  }

  lemma TargetEnv(projects: Named, defaults: Settings, inherited: Settings, own: Settings, index: nat)
    requires EnvAbsentOrTable(defaults) && EnvAbsentOrTable(inherited) && EnvAbsentOrTable(own)
    requires ResolveProject(Merge(Merge(defaults, inherited), own), projects, InTarget(index)).Success?
    ensures
      EnvOf(ResolveProject(Merge(Merge(defaults, inherited), own), projects, InTarget(index)).value)
      == EnvOf(defaults) + EnvOf(inherited) + EnvOf(own)
  {
    MergeEnvs(defaults, inherited);
    MergedEnv(Merge(defaults, inherited), own, projects, InTarget(index));
  }
}
