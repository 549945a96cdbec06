/** Which project references a chain of profiles may hold, read off the raw tables. */
module ProjectNames {
  import opened Wrappers
  import opened DokployProfiles
  import opened ProfileChains
  import opened ProfileResolver

  /** The settings name a project by its alias. */
  predicate HasAlias(settings: Settings) {
    && Project in settings && !settings[Project].Null?
    && !(settings[Project].Str? && settings[Project].text == "")
    && Shown(settings[Project]) != ""
  }

  /** The project name an alias stands for in the `projects` table, "" when it stands for none. */
  function StandsFor(projects: Named, alias: string): string {
    if alias !in projects then ""
    else match projects[alias]
      case Null => ""
      case Scalar(_, _) => ""
      case Str(_, stripped) => stripped
      case Table(entries) => NameAt(entries, ProjectName)
  }

  /** The project name below an alias: the layer's own entry, blank or not, hides the inherited one. */
  function NameOver(own: Settings, inherited: string): string {
    if ProjectName in own then NameAt(own, ProjectName) else inherited
  }

  /** An alias needs a project to stand for and no project name beside it. */
  predicate GoodReference(projects: Named, own: Settings, name: string) {
    HasAlias(own) ==> StandsFor(projects, Shown(own[Project])) != "" && name == ""
  }

  /** The project name a layer ends up with. */
  function NameAfter(projects: Named, own: Settings, inherited: string): string {
    if HasAlias(own) then StandsFor(projects, Shown(own[Project])) else NameOver(own, inherited)
  }

  predicate AllProfiles(profiles: Named, path: seq<string>) {
    forall i :: 0 <= i < |path| ==> IsProfile(profiles, path[i])
  }

  /** The project name in force from index `k` of a chain on, "" for none. */
  function EffectiveName(profiles: Named, projects: Named, path: seq<string>, k: nat): string
    requires k <= |path| && AllProfiles(profiles, path)
    decreases |path| - k
  {
    if k == |path| then ""
    else NameAfter(projects, Payload(profiles, path[k]), EffectiveName(profiles, projects, path, k + 1))
  }

  /** Some profile from index `k` on has a `project_name` entry or an alias that becomes one. */
  predicate NamesProject(profiles: Named, path: seq<string>, k: nat)
    requires k <= |path| && AllProfiles(profiles, path)
    decreases |path| - k
  {
    k < |path| &&
    var own := Payload(profiles, path[k]);
    (HasAlias(own) || ProjectName in own || NamesProject(profiles, path, k + 1))
  }

  predicate GoodAt(profiles: Named, projects: Named, path: seq<string>, k: nat)
    requires k < |path| && AllProfiles(profiles, path)
  {
    var own := Payload(profiles, path[k]);
    GoodReference(projects, own, NameOver(own, EffectiveName(profiles, projects, path, k + 1)))
  }

  ghost predicate GoodFrom(profiles: Named, projects: Named, path: seq<string>, k: nat)
    requires AllProfiles(profiles, path)
  {
    forall j: nat :: k <= j < |path| ==> GoodAt(profiles, projects, path, j)
  }

  function PlaceOf(error: Error): Option<Place> {
    match error
    case BothProjectAndName(place) => Some(place)
    case UnknownAlias(_, place) => Some(place)
    case AliasNotStringOrTable(_, place) => Some(place)
    case AliasWithoutName(_, place) => Some(place)
    case _ => None
  }

  /** What counts as a name under a key: a string with more than blanks, what a true scalar shows,
      or the text of a table with entries. */
  lemma NameReadIff(settings: Settings, key: Key, name: string)
    requires name != ""
    ensures NameAt(settings, key) == name <==>
      && key in settings
      && match settings[key]
         case Null => false
         case Str(_, stripped) => stripped == name
         case Scalar(shown, truthy) => truthy && shown == name
         case Table(entries) => entries != map[] && name == "{...}"
  {}

  /** An alias is read where a name is not: a scalar that is false, or an empty table, is one too. */
  lemma AliasReadIff(settings: Settings, alias: string)
    requires alias != ""
    ensures HasAlias(settings) && Shown(settings[Project]) == alias <==>
      && Project in settings
      && match settings[Project]
         case Null => false
         case Str(text, stripped) => text != "" && stripped == alias
         case Scalar(shown, _) => shown == alias
         case Table(_) => alias == "{...}"
  {}

  // ------------------------------------------------------------ one layer

  lemma AliasGoodIff(settings: Settings, projects: Named, place: Place)
    ensures
      var name := AliasedName(settings, projects, place);
      && (name.Success? <==> GoodReference(projects, settings, NameAt(settings, ProjectName)))
      && (name.Success? ==>
          name.value == if HasAlias(settings) then Some(StandsFor(projects, Shown(settings[Project]))) else None)
      && (name.Failure? ==> PlaceOf(name.error) == Some(place))
      && (HasAlias(settings) && NameAt(settings, ProjectName) != "" ==> name == Failure(BothProjectAndName(place)))
  {
  }

  /** A layer `own` on settings whose alias, if any, was replaced. */
  lemma LayerNames(projects: Named, base: Settings, own: Settings, place: Place, inherited: string)
    requires Project !in base && NameAt(base, ProjectName) == inherited
    ensures
      var result := ResolveProject(Merge(base, own), projects, place);
      && (result.Success? <==> GoodReference(projects, own, NameOver(own, inherited)))
      && (result.Success? ==>
          && Project !in result.value
          && NameAt(result.value, ProjectName) == NameAfter(projects, own, inherited)
          && (ProjectName in result.value <==> HasAlias(own) || ProjectName in own || ProjectName in base))
      && (result.Failure? ==> PlaceOf(result.error) == Some(place))
      && (HasAlias(own) && NameOver(own, inherited) != "" ==> result == Failure(BothProjectAndName(place)))
  {
    var merged := Merge(base, own);
    assert Project in merged <==> Project in own;
    assert Project in own ==> merged[Project] == own[Project];
    assert NameAt(merged, ProjectName) == NameOver(own, inherited);
    AliasGoodIff(merged, projects, place);
  }

  // ------------------------------------------------------------ a whole chain

  /** A chain folds if and only if each alias on it stands for a project and meets no project
      name, its own or inherited; the result then carries the name in force. */
  lemma {:induction false} FoldSucceedsIff(profiles: Named, projects: Named, path: seq<string>, k: nat)
    requires k <= |path| && AllProfiles(profiles, path)
    ensures
      var result := Fold(profiles, projects, path, k);
      && (result.Success? <==> GoodFrom(profiles, projects, path, k))
      && (result.Success? ==>
          && Project !in result.value
          && NameAt(result.value, ProjectName) == EffectiveName(profiles, projects, path, k)
          && (ProjectName in result.value <==> NamesProject(profiles, path, k)))
    decreases |path| - k
  {
    if k < |path| {
      FoldSucceedsIff(profiles, projects, path, k + 1);
      GoodFromStep(profiles, projects, path, k);
      var base := Fold(profiles, projects, path, k + 1);
      if base.Success? {
        var inherited := EffectiveName(profiles, projects, path, k + 1);
        LayerNames(projects, base.value, Payload(profiles, path[k]), InProfile(path[k]), inherited);
      }
    }
  }

  lemma GoodFromStep(profiles: Named, projects: Named, path: seq<string>, k: nat)
    requires k < |path| && AllProfiles(profiles, path)
    ensures GoodFrom(profiles, projects, path, k) <==>
      GoodAt(profiles, projects, path, k) && GoodFrom(profiles, projects, path, k + 1)
  {
  }

  /** A chain fails at its bad reference nearest the root, and the error names that profile. */
  lemma {:induction false} FoldFailsAt(profiles: Named, projects: Named, path: seq<string>, k: nat, bad: nat)
    requires k <= bad < |path| && AllProfiles(profiles, path)
    requires !GoodAt(profiles, projects, path, bad) && GoodFrom(profiles, projects, path, bad + 1)
    ensures
      var result := Fold(profiles, projects, path, k);
      && result.Failure? && PlaceOf(result.error) == Some(InProfile(path[bad]))
    decreases bad - k
  {
    if k < bad {
      FoldFailsAt(profiles, projects, path, k + 1, bad);
    } else {
      FoldSucceedsIff(profiles, projects, path, k + 1);
      var base := Fold(profiles, projects, path, k + 1).value;
      var inherited := EffectiveName(profiles, projects, path, k + 1);
      LayerNames(projects, base, Payload(profiles, path[k]), InProfile(path[k]), inherited);
    }
  }

  /** Accepted if and only if the chain reaches a root and every project reference on it is good. */
  lemma ResolveSucceedsIff(profiles: Named, projects: Named, name: string)
    ensures Resolve(profiles, projects, name, []).Success? <==>
      exists path: seq<string> :: IsTrace(profiles, name, path, Root) && GoodFrom(profiles, projects, path, 0)
  {
    var path, end := TraceExists(profiles, name);
    ResolveOutcome(profiles, projects, name, path, end);
    if end == Root {
      FoldSucceedsIff(profiles, projects, path, 0);
    }
    forall other: seq<string> | IsTrace(profiles, name, other, Root)
      ensures Resolve(profiles, projects, name, []).Success? <==> GoodFrom(profiles, projects, other, 0)
    {
      ResolveOutcome(profiles, projects, name, other, Root);
      FoldSucceedsIff(profiles, projects, other, 0);
    }
  }

  // ------------------------------------------------------------ targets

  /** The project reference of a target itself. The alias may be the target's own or, failing
      that, the one in the defaults, which no profile can take away; the project name beside it
      is the target's own, else the profile's, else the one in the defaults. */
  predicate GoodTarget(projects: Named, defaults: Settings, own: Settings, named: bool, inherited: string) {
    var below := if named then inherited else NameAt(defaults, ProjectName);
    GoodReference(projects, Merge(defaults, own), NameOver(own, below))
  }

  lemma LastLayer(projects: Named, defaults: Settings, inherited: Settings, own: Settings, place: Place)
    requires Project !in inherited
    ensures ResolveProject(Merge(Merge(defaults, inherited), own), projects, place).Success? <==>
      GoodTarget(projects, defaults, own, ProjectName in inherited, NameAt(inherited, ProjectName))
  {
    var merged := Merge(Merge(defaults, inherited), own);
    MergedLookup(Merge(defaults, inherited), own, Project);
    MergedLookup(defaults, inherited, Project);
    MergedLookup(defaults, own, Project);
    SameReference(projects, merged, Merge(defaults, own), NameAt(merged, ProjectName));
    LayeredName(Merge(defaults, inherited), own);
    LayeredName(defaults, inherited);
    AliasGoodIff(merged, projects, place);
  }

  lemma MergedLookup(base: Settings, overlay: Settings, key: Key)
    requires key != Env
    ensures Lookup(Merge(base, overlay), key) == if key in overlay then Some(overlay[key]) else Lookup(base, key)
  {
  }

  lemma SameReference(projects: Named, left: Settings, right: Settings, name: string)
    requires Lookup(left, Project) == Lookup(right, Project)
    ensures GoodReference(projects, left, name) <==> GoodReference(projects, right, name)
  {
  }

  lemma LayeredName(base: Settings, own: Settings)
    ensures NameAt(Merge(base, own), ProjectName) == NameOver(own, NameAt(base, ProjectName))
  {
  }

  /** A target is accepted if and only if its profile is, when it names one, and its own
      reference is good. */
  lemma TargetSucceedsIff(profiles: Named, projects: Named, defaults: Settings, target: Settings, index: nat)
    ensures ResolveTarget(profiles, projects, defaults, Table(target), index).Success? <==>
      exists path: seq<string> ::
        ChainOf(profiles, target, path) && GoodChain(profiles, projects, defaults, target - {Profile}, path)
  {
    var name := NameAt(target, Profile);
    forall path: seq<string> | ChainOf(profiles, target, path)
      ensures ResolveTarget(profiles, projects, defaults, Table(target), index).Success? <==>
        GoodChain(profiles, projects, defaults, target - {Profile}, path)
    {
      TargetOverChain(profiles, projects, defaults, target, index, path);
    }
    if name == "" {
      assert ChainOf(profiles, target, []);
    } else {
      var path, end := TraceExists(profiles, name);
      ResolveOutcome(profiles, projects, name, path, end);
      assert end == Root ==> ChainOf(profiles, target, path);
    }
  }

  /** The profiles of a chain and a target's own settings above it hold good references only. */
  ghost predicate GoodChain(profiles: Named, projects: Named, defaults: Settings, own: Settings, path: seq<string>) {
    && AllProfiles(profiles, path) && GoodFrom(profiles, projects, path, 0)
    && GoodTarget(projects, defaults, own, NamesProject(profiles, path, 0), EffectiveName(profiles, projects, path, 0))
  }

  lemma TargetOverChain(profiles: Named, projects: Named, defaults: Settings, target: Settings, index: nat,
      path: seq<string>)
    requires ChainOf(profiles, target, path)
    ensures ResolveTarget(profiles, projects, defaults, Table(target), index).Success? <==>
      GoodChain(profiles, projects, defaults, target - {Profile}, path)
  {
    FoldSucceedsIff(profiles, projects, path, 0);
    if path != [] {
      ResolveOutcome(profiles, projects, NameAt(target, Profile), path, Root);
    }
    var inherited := Fold(profiles, projects, path, 0);
    if inherited.Success? {
      LastLayer(projects, defaults, inherited.value, target - {Profile}, InTarget(index));
    }
  }

  // ------------------------------------------------------------ overriding an inherited project

  /** An alias above a chain that already names a project is accepted if and only if its own
      profile blanks the inherited name; the alias alone does not override it. */
  lemma OverrideAcceptedIff(profiles: Named, projects: Named, name: string, path: seq<string>)
    requires IsTrace(profiles, name, path, Root) && GoodFrom(profiles, projects, path, 1)
    requires EffectiveName(profiles, projects, path, 1) != ""
    requires HasAlias(Payload(profiles, name))
    requires StandsFor(projects, Shown(Payload(profiles, name)[Project])) != ""
    ensures
      var result, own := Resolve(profiles, projects, name, []), Payload(profiles, name);
      && (result.Success? <==> ProjectName in own && NameAt(own, ProjectName) == "")
      && (result.Failure? ==> result == Failure(BothProjectAndName(InProfile(name))))
  {
    ResolveOutcome(profiles, projects, name, path, Root);
    FoldSucceedsIff(profiles, projects, path, 1);
    var base := Fold(profiles, projects, path, 1).value;
    LayerNames(projects, base, Payload(profiles, name), InProfile(name), EffectiveName(profiles, projects, path, 1));
  }

  function Text(text: string): Value {
    Str(text, text)
  }

  /** Two profiles with an alias each, the second extending the first. */
  function TwoAliases(parent: string, child: string, alias: string, other: string, blank: bool): Named {
    var own := map[Extends := Text(parent), Project := Text(other)];
    var blanked := own[ProjectName := Text("")];
    map[parent := Table(map[Project := Text(alias)]), child := Table(if blank then blanked else own)]
  }

  /** The input: two profiles with an alias each, both known. The child is rejected, and
      accepted with an empty `project_name` beside its alias. */
  lemma AliasDoesNotOverride(parent: string, child: string, alias: string, other: string, first: string, second: string)
    requires parent != child && parent != "" && alias != other && alias != "" && other != ""
    requires first != "" && second != ""
    ensures
      var projects: Named := map[alias := Text(first), other := Text(second)];
      && Resolve(TwoAliases(parent, child, alias, other, false), projects, child, []) ==
         Failure(BothProjectAndName(InProfile(child)))
      && Resolve(TwoAliases(parent, child, alias, other, true), projects, child, []) ==
         Success(map[ProjectName := Text(second)])
  {
    TwoAliasesResolve(parent, child, alias, other, first, second, false);
    TwoAliasesResolve(parent, child, alias, other, first, second, true);
  }

  lemma TwoAliasesResolve(parent: string, child: string, alias: string, other: string, first: string, second: string,
      blank: bool)
    requires parent != child && parent != "" && alias != other && alias != "" && other != ""
    requires first != "" && second != ""
    ensures
      var projects: Named := map[alias := Text(first), other := Text(second)];
      Resolve(TwoAliases(parent, child, alias, other, blank), projects, child, []) ==
        if blank then Success(map[ProjectName := Text(second)]) else Failure(BothProjectAndName(InProfile(child)))
  {
    var profiles := TwoAliases(parent, child, alias, other, blank);
    var projects: Named := map[alias := Text(first), other := Text(second)];
    var base: Settings := map[ProjectName := Text(first)];
    assert [] + [child] == [child];
    RootAlias(profiles, projects, parent, alias, [child]);
    ResolveStep(profiles, projects, child, []);
    var own := Payload(profiles, child);
    assert own.Keys == if blank then {Project, ProjectName} else {Project};
    OverName(projects, base, own, child, other);
  }

  /** A known alias on settings that hold nothing but a project name. */
  lemma OverName(projects: Named, base: Settings, own: Settings, name: string, alias: string)
    requires base.Keys == {ProjectName} && NameAt(base, ProjectName) != ""
    requires Project in own && own[Project] == Text(alias) && alias != ""
    requires own.Keys == {Project} || (own.Keys == {Project, ProjectName} && own[ProjectName] == Text(""))
    requires alias in projects && projects[alias].Str? && projects[alias].stripped != ""
    ensures
      ResolveProject(Merge(base, own), projects, InProfile(name)) ==
        if ProjectName in own then Success(map[ProjectName := Text(projects[alias].stripped)])
        else Failure(BothProjectAndName(InProfile(name)))
  {
    OneAlias(projects, base, own, name, alias);
    var named := Text(projects[alias].stripped);
    assert (Merge(base, own) - {Project})[ProjectName := named] == map[ProjectName := named];
  }

  /** A root profile with nothing but a known alias. */
  lemma RootAlias(profiles: Named, projects: Named, name: string, alias: string, active: seq<string>)
    requires name in profiles && profiles[name] == Table(map[Project := Text(alias)]) && name !in active
    requires alias != "" && alias in projects && projects[alias].Str? && projects[alias].stripped != ""
    ensures Resolve(profiles, projects, name, active) ==
      Success(map[ProjectName := Text(projects[alias].stripped)])
  {
    var own := Payload(profiles, name);
    assert own == map[Project := Text(alias)];
    ResolveStep(profiles, projects, name, active);
    OneAlias(projects, map[], own, name, alias);
    assert Merge(map[], own) - {Project} == map[];
  }

  /** One known alias in a layer, by its three outcomes. */
  lemma OneAlias(projects: Named, base: Settings, own: Settings, name: string, alias: string)
    requires Project in own && own[Project] == Text(alias) && alias != ""
    requires alias in projects && projects[alias].Str? && projects[alias].stripped != ""
    ensures
      var merged := Merge(base, own);
      ResolveProject(merged, projects, InProfile(name)) ==
        if NameAt(merged, ProjectName) != "" then Failure(BothProjectAndName(InProfile(name)))
        else Success((merged - {Project})[ProjectName := Text(projects[alias].stripped)])
  {
    assert Merge(base, own)[Project] == Text(alias);
  }
}
