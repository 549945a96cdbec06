/** What `DokployProfiles.Resolve` computes, stated on whole inheritance chains. */
module ProfileChains {
  import opened Counting
  import opened Wrappers
  import opened DokployProfiles

  /** Each name is a profile table and extends the next one. */
  ghost predicate Linked(profiles: Named, path: seq<string>) {
    && (forall i :: 0 <= i < |path| ==> IsProfile(profiles, path[i]))
    && (forall i :: 0 < i < |path| ==> path[i] != "" && Parent(profiles, path[i - 1]) == path[i])
  }

  datatype End = Root | Repeats(name: string) | Unknown(name: string) | NotATable(name: string)

  /** The name that comes after `path`: "" at a root. */
  function After(profiles: Named, name: string, path: seq<string>): string
    requires path != [] ==> IsProfile(profiles, path[|path| - 1])
  {
    if path == [] then name else Parent(profiles, path[|path| - 1])
  }

  /** `path` is the chain of `name` as far as it goes, and `end` is how it ends. */
  ghost predicate IsTrace(profiles: Named, name: string, path: seq<string>, end: End) {
    && Linked(profiles, path) && NoDuplicates(path) && (path != [] ==> path[0] == name)
    && var stop := After(profiles, name, path);
       match end
       case Root => path != [] && stop == ""
       case Repeats(n) => n == stop && n != "" && n in path
       case Unknown(n) =>
         n == stop && n !in path && (path != [] ==> n != "") && (n !in profiles || profiles[n].Null?)
       case NotATable(n) =>
         && n == stop && n !in path && (path != [] ==> n != "")
         && n in profiles && !profiles[n].Null? && !profiles[n].Table?
  }

  /** The profiles from index `k` on, folded from the root down. */
  function Fold(profiles: Named, projects: Named, path: seq<string>, k: nat): Result<Settings, Error>
    requires k <= |path| && forall i :: 0 <= i < |path| ==> IsProfile(profiles, path[i])
    decreases |path| - k
  {
    if k == |path| then Success(map[])
    else
      var base :- Fold(profiles, projects, path, k + 1);
      Extend(profiles, projects, base, path[k])
  }

  function Outcome(profiles: Named, projects: Named, path: seq<string>, end: End): Result<Settings, Error>
    requires forall i :: 0 <= i < |path| ==> IsProfile(profiles, path[i])
  {
    match end
    case Root => Fold(profiles, projects, path, 0)
    case Repeats(n) => Failure(Cycle(path + [n]))
    case Unknown(n) => Failure(UnknownProfile(n))
    case NotATable(n) => Failure(ProfileNotATable(n))
  }

  /** Every name has a trace, on every table. */
  lemma TraceExists(profiles: Named, name: string) returns (path: seq<string>, end: End)
    ensures IsTrace(profiles, name, path, end)
  {
    path, end := ExtendTrace(profiles, name, []);
  }

  lemma {:induction false} ExtendTrace(profiles: Named, name: string, done: seq<string>)
    returns (path: seq<string>, end: End)
    requires Linked(profiles, done) && NoDuplicates(done) && (done != [] ==> done[0] == name)
    ensures IsTrace(profiles, name, path, end)
    decreases |Unvisited(profiles, done)|
  {
    path := done;
    var stop := After(profiles, name, done);
    if done != [] && stop == "" {
      end := Root;
    } else if stop in done {
      end := Repeats(stop);
    } else if stop !in profiles || profiles[stop].Null? {
      end := Unknown(stop);
    } else if !profiles[stop].Table? {
      end := NotATable(stop);
    } else {
      UnvisitedShrinks(profiles, done, stop);
      LinkedAppend(profiles, name, done, stop);
      path, end := ExtendTrace(profiles, name, done + [stop]);
    }
  }

  lemma LinkedAppend(profiles: Named, name: string, done: seq<string>, stop: string)
    requires Linked(profiles, done) && NoDuplicates(done)
    requires stop == After(profiles, name, done) && (done != [] ==> stop != "")
    requires stop !in done && IsProfile(profiles, stop)
    ensures Linked(profiles, done + [stop]) && NoDuplicates(done + [stop])
  {
  }

  /** Below active profiles that the chain avoids, a chain with a root resolves to its fold. */
  lemma {:induction false} RootedChain(profiles: Named, projects: Named, name: string, path: seq<string>,
      active: seq<string>, k: nat)
    requires IsTrace(profiles, name, path, Root) && k < |path|
    requires forall x :: x in path ==> x !in active
    ensures Resolve(profiles, projects, path[k], active + path[..k]) == Fold(profiles, projects, path, k)
    decreases |path| - k
  {
    assert path[k] !in active + path[..k];
    assert (active + path[..k]) + [path[k]] == active + path[..k + 1];
    ResolveStep(profiles, projects, path[k], active + path[..k]);
    if k + 1 < |path| {
      RootedChain(profiles, projects, name, path, active, k + 1);
    } else {
      assert Fold(profiles, projects, path, k + 1) == Success(map[]);
    }
  }

  /** A chain without a root fails, whatever is active above it. */
  lemma {:induction false} RootlessChain(profiles: Named, projects: Named, name: string, path: seq<string>, end: End,
      active: seq<string>, k: nat)
    requires IsTrace(profiles, name, path, end) && end != Root && k < |path|
    ensures FailsAs(Resolve(profiles, projects, path[k], active + path[..k]), profiles, projects, path, end, active)
    decreases |path| - k
  {
    var above := active + path[..k];
    assert above + [path[k]] == active + path[..k + 1];
    if k + 1 < |path| {
      RootlessChain(profiles, projects, name, path, end, active, k + 1);
    } else {
      assert path[..k + 1] == path;
      ChainEnd(profiles, projects, name, path, end, active);
    }
    assert path[k] !in path[..k];
    FailurePassesUp(profiles, projects, path[k], above);
  }

  /** A profile fails when what it extends does: as its parent, or as a cycle. */
  lemma FailurePassesUp(profiles: Named, projects: Named, name: string, active: seq<string>)
    requires IsProfile(profiles, name) && Parent(profiles, name) != ""
    requires Resolve(profiles, projects, Parent(profiles, name), active + [name]).Failure?
    ensures Resolve(profiles, projects, name, active).Failure?
    ensures name !in active ==>
      Resolve(profiles, projects, name, active) == Resolve(profiles, projects, Parent(profiles, name), active + [name])
  {
    if name !in active {
      ResolveStep(profiles, projects, name, active);
    }
  }

  /** A failure, and the chain's own one when nothing is active above it. */
  ghost predicate FailsAs(result: Result<Settings, Error>, profiles: Named, projects: Named, path: seq<string>,
      end: End,
      active: seq<string>)
    requires forall i :: 0 <= i < |path| ==> IsProfile(profiles, path[i])
  {
    result.Failure? && (active == [] ==> result == Outcome(profiles, projects, path, end))
  }

  lemma ChainEnd(profiles: Named, projects: Named, name: string, path: seq<string>, end: End, active: seq<string>)
    requires IsTrace(profiles, name, path, end) && end != Root
    ensures
      var result := Resolve(profiles, projects, After(profiles, name, path), active + path);
      FailsAs(result, profiles, projects, path, end, active)
  {
    if active == [] {
      assert active + path == path;
    }
  }

  /** Resolution in terms of the chain alone: with `TraceExists`, each outcome happens
      exactly for the chains that end that way. */
  lemma ResolveOutcome(profiles: Named, projects: Named, name: string, path: seq<string>, end: End)
    requires IsTrace(profiles, name, path, end)
    ensures Resolve(profiles, projects, name, []) == Outcome(profiles, projects, path, end)
  {
    assert [] + path[..0] == [];
    if end == Root {
      RootedChain(profiles, projects, name, path, [], 0);
    } else {
      Rootless(profiles, projects, name, path, end, []);
    }
  }

  lemma Rootless(profiles: Named, projects: Named, name: string, path: seq<string>, end: End, active: seq<string>)
    requires IsTrace(profiles, name, path, end) && end != Root
    ensures FailsAs(Resolve(profiles, projects, name, active), profiles, projects, path, end, active)
  {
    assert active + path[..0] == active;
    if path == [] {
      assert active + path == active;
      ChainEnd(profiles, projects, name, path, end, active);
    } else {
      RootlessChain(profiles, projects, name, path, end, active, 0);
    }
  }

  // ------------------------------------------------------------ independence of the active profiles

  /** `name` is being resolved as the parent of the last of the active profiles. */
  ghost predicate OnPath(profiles: Named, active: seq<string>, name: string) {
    && Linked(profiles, active) && NoDuplicates(active)
    && (active != [] ==> name != "" && After(profiles, name, active) == name)
  }

  /** A chain with a root never comes back to a profile it is resolved for. */
  lemma {:induction false} RootedAvoidsActive(profiles: Named, active: seq<string>, name: string, path: seq<string>,
      i: nat)
    requires OnPath(profiles, active, name) && IsTrace(profiles, name, path, Root) && i < |active|
    ensures active[i] !in path
    decreases |active| - i
  {
    if active[i] in path {
      var j :| 0 <= j < |path| && path[j] == active[i];
      assert Parent(profiles, active[i]) != "" by {
        if i + 1 < |active| { assert active[i + 1] != ""; }
      }
      assert j + 1 < |path| && path[j + 1] == Parent(profiles, active[i]);
      if i + 1 < |active| {
        RootedAvoidsActive(profiles, active, name, path, i + 1);
      }
      assert false;
    }
  }

  /** The active profiles matter for the error only: success and its value do not depend on them. */
  lemma ActiveIrrelevant(profiles: Named, projects: Named, active: seq<string>, name: string)
    requires OnPath(profiles, active, name)
    ensures
      var inside, alone := Resolve(profiles, projects, name, active), Resolve(profiles, projects, name, []);
      (inside.Success? || alone.Success?) ==> inside == alone
  {
    var path, end := TraceExists(profiles, name);
    assert active + path[..0] == active && [] + path[..0] == [];
    if end == Root {
      forall x | x in path ensures x !in active {
        if x in active {
          var i :| 0 <= i < |active| && active[i] == x;
          RootedAvoidsActive(profiles, active, name, path, i);
        }
      }
      RootedChain(profiles, projects, name, path, active, 0);
      RootedChain(profiles, projects, name, path, [], 0);
    } else {
      Rootless(profiles, projects, name, path, end, active);
      Rootless(profiles, projects, name, path, end, []);
    }
  }
}
