/** Profile inheritance in platform/dokploy.toml, as tools/platform/models.py resolves it.

    `Resolve` is the memo-free recursion. The `Resolver` class with its shared
    `resolved_profiles` table is proved to compute it, and `ResolveOutcome` says what it
    is: the fold of the inheritance chain from its root, or the error the chain ends in. */
module DokployProfiles {
  import opened Counting
  import opened Wrappers

  /** A string key; the keys the resolver itself names are set apart. */
  datatype Key = Env | Extends | Profile | Project | ProjectName | Other(name: string)

  /** A string carries the text `strip()` leaves of it. */
  datatype Value =
    | Null
    | Str(text: string, stripped: string)
    | Scalar(shown: string, truthy: bool)
    | Table(entries: map<Key, Value>)

  type Settings = map<Key, Value>

  /** A top-level table of profiles or projects. */
  type Named = map<string, Value>

  datatype Place = InProfile(name: string) | InTarget(index: nat)

  datatype Error =
    | Cycle(chain: seq<string>)
    | UnknownProfile(name: string)
    | ProfileNotATable(name: string)
    | BothProjectAndName(place: Place)
    | UnknownAlias(alias: string, place: Place)
    | AliasNotStringOrTable(alias: string, place: Place)
    | AliasWithoutName(alias: string, place: Place)

  /** How Python would show a table used as a name. */
  const TABLE_TEXT := "{...}"

  /** `str(value).strip()` */
  function Shown(value: Value): string {
    match value
    case Null => "None"
    case Str(_, stripped) => stripped
    case Scalar(shown, _) => shown
    case Table(_) => TABLE_TEXT
  }

  /** `str(settings.get(key) or "").strip()` */
  function NameAt(settings: Settings, key: Key): string {
    if key !in settings then ""
    else match settings[key]
      case Null => ""
      case Str(_, stripped) => stripped
      case Scalar(shown, truthy) => if truthy then shown else ""
      case Table(entries) => if entries == map[] then "" else TABLE_TEXT
  }

  // ------------------------------------------------------------ merging

  /** Overlay wins, except that two `env` tables are merged key by key. */
  function Merge(base: Settings, overlay: Settings): Settings {
    map key | key in base.Keys + overlay.Keys :: MergedAt(base, overlay, key)
  }

  function MergedAt(base: Settings, overlay: Settings, key: Key): Value
    requires key in base.Keys + overlay.Keys
  {
    if key !in overlay then base[key]
    else if key == Env && key in base && base[key].Table? && overlay[key].Table? then
      Table(base[key].entries + overlay[key].entries)
    else overlay[key]
  }

  method CopyInto(target: Settings, source: Settings) returns (result: Settings)
    ensures result == target + source
  {
    result := target;
    var todo := source.Keys;
    while todo != {}
      invariant todo <= source.Keys
      invariant result == target + (map key | key in source && key !in todo :: source[key])
    {
      var key :| key in todo;
      result := result[key := source[key]];
      todo := todo - {key};
    }
  }

  method MergeEnv(base: Settings, overlay: Settings) returns (env: Settings)
    ensures env == base + overlay
  {
    env := CopyInto(map[], base);
    assert env == base;
    env := CopyInto(env, overlay);
  }

  method MergeSettings(base: Settings, overlay: Settings) returns (merged: Settings)
    ensures merged == Merge(base, overlay)
  {
    merged := base;
    var todo := overlay.Keys;
    while todo != {}
      invariant todo <= overlay.Keys
      invariant merged.Keys == base.Keys + (overlay.Keys - todo)
      invariant forall key :: key in merged ==>
        merged[key] == if key in todo || key !in overlay then base[key] else MergedAt(base, overlay, key)
    {
      var key :| key in todo;
      if key == Env && Env in merged && merged[Env].Table? && overlay[key].Table? {
        var env := MergeEnv(merged[Env].entries, overlay[key].entries);
        merged := merged[Env := Table(env)];
      } else {
        merged := merged[key := overlay[key]];
      }
      todo := todo - {key};
    }
  }

  predicate EnvIsTable(settings: Settings) {
    Env in settings && settings[Env].Table?
  }

  predicate EnvIsOther(settings: Settings) {
    Env in settings && !settings[Env].Table?
  }

  /** The merge is associative unless an `env` that is no table stands between two tables
      and hides a variable the last one lacks. */
  lemma MergeAssociativeIff(a: Settings, b: Settings, c: Settings)
    ensures Merge(Merge(a, b), c) == Merge(a, Merge(b, c)) <==>
      !(EnvIsTable(a) && EnvIsOther(b) && EnvIsTable(c) && !(a[Env].entries.Keys <= c[Env].entries.Keys))
  {
    OnlyEnvDecides(a, b, c);
    if EnvIsTable(a) && EnvIsTable(c) {
      if EnvIsTable(b) {
        UnionAssociative(a[Env].entries, b[Env].entries, c[Env].entries);
      } else if EnvIsOther(b) {
        UnionAbsorbs(a[Env].entries, c[Env].entries);
      }
    }
  }

  /** Whatever the order of merging, only `env` can differ. */
  lemma OnlyEnvDecides(a: Settings, b: Settings, c: Settings)
    ensures Merge(Merge(a, b), c) == Merge(a, Merge(b, c)) <==>
      Lookup(Merge(Merge(a, b), c), Env) == Lookup(Merge(a, Merge(b, c)), Env)
  {
    var left, right := Merge(Merge(a, b), c), Merge(a, Merge(b, c));
    assert left.Keys == right.Keys;
    forall key | key in left && key != Env ensures left[key] == right[key] {}
  }

  /** The input: a table, a text and an empty table under `env`. Merged from the left the
      variable is gone, merged from the right it is there. */
  lemma MergeOrderMatters(variable: Key, value: Value, text: string)
    ensures
      var a: Settings := map[Env := Table(map[variable := value])];
      var b: Settings := map[Env := Str(text, text)];
      var c: Settings := map[Env := Table(map[])];
      Merge(Merge(a, b), c) == c && Merge(a, Merge(b, c)) == a
  {
    var a: Settings := map[Env := Table(map[variable := value])];
    var c: Settings := map[Env := Table(map[])];
    UnionAbsorbs(map[], a[Env].entries);
    assert a[Env].entries + c[Env].entries == a[Env].entries;
  }

  lemma UnionAssociative(a: Settings, b: Settings, c: Settings)
    ensures (a + b) + c == a + (b + c)
  {}

  lemma UnionAbsorbs(a: Settings, b: Settings)
    ensures a + b == b <==> a.Keys <= b.Keys
  {
    assert (a + b).Keys == a.Keys + b.Keys;
  }

  lemma MergeIdentity(a: Settings)
    ensures Merge(map[], a) == a && Merge(a, map[]) == a
  {
    assert Merge(map[], a).Keys == a.Keys;
  }

  // ------------------------------------------------------------ project references

  /** The project name an alias stands for; none when there is no alias to resolve. */
  function AliasedName(settings: Settings, projects: Named, place: Place): Result<Option<string>, Error> {
    if Project !in settings || settings[Project].Null? then Success(None)
    else if settings[Project].Str? && settings[Project].text == "" then Success(None)
    else
      var alias := Shown(settings[Project]);
      if alias == "" then Success(None)
      else if NameAt(settings, ProjectName) != "" then Failure(BothProjectAndName(place))
      else if alias !in projects || projects[alias].Null? then Failure(UnknownAlias(alias, place))
      else if projects[alias].Scalar? then Failure(AliasNotStringOrTable(alias, place))
      else
        var name :=
          if projects[alias].Str? then projects[alias].stripped else NameAt(projects[alias].entries, ProjectName);
        if name == "" then Failure(AliasWithoutName(alias, place)) else Success(Some(name))
  }

  /** `settings` with its `project` alias replaced by the `project_name` it stands for. */
  function ResolveProject(settings: Settings, projects: Named, place: Place): Result<Settings, Error> {
    var name :- AliasedName(settings, projects, place);
    Success(WithProjectName(settings, name))
  }

  function WithProjectName(settings: Settings, name: Option<string>): Settings {
    var rest := settings - {Project};
    if name.Some? then rest[ProjectName := Str(name.value, name.value)] else rest
  }

  lemma ResolveProjectTouches(settings: Settings, projects: Named, place: Place, key: Key)
    requires key != Project && key != ProjectName
    requires ResolveProject(settings, projects, place).Success?
    ensures Lookup(ResolveProject(settings, projects, place).value, key) == Lookup(settings, key)
  {
  }

  function Lookup(settings: Settings, key: Key): Option<Value> {
    if key in settings then Some(settings[key]) else None
  }

  // ------------------------------------------------------------ the memo-free resolution

  function Payload(profiles: Named, name: string): Settings
    requires IsProfile(profiles, name)
  {
    profiles[name].entries - {Extends}
  }

  predicate IsProfile(profiles: Named, name: string) {
    name in profiles && profiles[name].Table?
  }

  /** The profile `name` extends, or "". */
  function Parent(profiles: Named, name: string): string
    requires IsProfile(profiles, name)
  {
    NameAt(profiles[name].entries, Extends)
  }

  /** Names not yet active: what makes the recursion end on every table. */
  function Unvisited(profiles: Named, active: seq<string>): set<string> {
    profiles.Keys - Elements(active)
  }

  lemma UnvisitedShrinks(profiles: Named, active: seq<string>, name: string)
    requires name in profiles && name !in active
    ensures |Unvisited(profiles, active + [name])| < |Unvisited(profiles, active)|
  {
    assert Elements(active + [name]) == Elements(active) + {name};
    assert Unvisited(profiles, active + [name]) == Unvisited(profiles, active) - {name};
  }

  function Resolve(profiles: Named, projects: Named, name: string, active: seq<string>): Result<Settings, Error>
    decreases |Unvisited(profiles, active)|
  {
    if name in active then Failure(Cycle(active + [name]))
    else if name !in profiles || profiles[name].Null? then Failure(UnknownProfile(name))
    else if !profiles[name].Table? then Failure(ProfileNotATable(name))
    else
      var parent := Parent(profiles, name);
      UnvisitedShrinks(profiles, active, name);
      var base :- if parent == "" then Success(map[]) else Resolve(profiles, projects, parent, active + [name]);
      Extend(profiles, projects, base, name)
  }

  /** One profile on top of what it inherits. */
  function Extend(profiles: Named, projects: Named, base: Settings, name: string): Result<Settings, Error>
    requires IsProfile(profiles, name)
  {
    ResolveProject(Merge(base, Payload(profiles, name)), projects, InProfile(name))
  }

  /** One unfolding of `Resolve` past its guards. */
  lemma ResolveStep(profiles: Named, projects: Named, name: string, active: seq<string>)
    requires name !in active && IsProfile(profiles, name)
    ensures
      var parent := Parent(profiles, name);
      var base := if parent == "" then Success(map[]) else Resolve(profiles, projects, parent, active + [name]);
      Resolve(profiles, projects, name, active) ==
        if base.Failure? then base else Extend(profiles, projects, base.value, name)
  {
  }
}
