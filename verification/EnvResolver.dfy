/** The `${NAME:-default}` resolver of tools/stack_data_workflow.py with its shared cache, its
    `seen` set and its fixpoint loop.

    A method may be called whenever the run it makes ends, with any fuel; it then makes exactly
    that run. `ResolverEnds` says when the runs of all variables end, and what they give. */
module EnvResolver {
  import opened Wrappers
  import opened EnvReferences
  import opened ResolverRuns
  import opened ResolverEnds
  import opened EnvMeaning

  class Resolver {
    const values: Values
    const environ: Environ
    var cache: Cache
    var seen: set<string>

    constructor (values: Values, environ: Environ)
      ensures this.values == values && this.environ == environ && cache == map[] && seen == {}
    {
      this.values, this.environ := values, environ;
      cache, seen := map[], {};
    }

    method ResolveExpr(name: string, fallback: string, ghost fuel: nat) returns (text: Text)
      requires Expand(values, environ, Ref(name, fallback), seen, cache, fuel).Some?
      modifies this`cache, this`seen
      ensures seen == old(seen)
      ensures Some(Ran(text, cache)) == old(Expand(values, environ, Ref(name, fallback), seen, cache, fuel))
      ensures name in old(cache) ==> text == old(cache)[name]
      ensures name !in old(cache) && name !in values && name in environ ==> Spells(text, environ[name])
      ensures name !in old(cache) && name !in values && name !in environ ==> Spells(text, fallback)
      decreases fuel, 1
    {
      if name in cache {
        return cache[name];
      }
      if name in values {
        text := ResolveValue(name, fuel);
        return;
      }
      text := Plain(Lookup(environ, name, fallback));
    }

    method SubstituteToken(token: Token, ghost fuel: nat) returns (replacement: Text)
      requires Expand(values, environ, token, seen, cache, fuel).Some?
      modifies this`cache, this`seen
      ensures seen == old(seen)
      ensures Some(Ran(replacement, cache)) == old(Expand(values, environ, token, seen, cache, fuel))
      decreases fuel, 2
    {
      if token.Ch? {
        return [token];
      }
      replacement := ResolveExpr(token.name, token.fallback, fuel);
    }

    /** One pass of the pattern substitution over `text`, left to right. */
    method SubstituteRefs(text: Text, ghost fuel: nat) returns (out: Text)
      requires Pass(values, environ, text, |text|, seen, cache, fuel).Some?
      modifies this`cache, this`seen
      ensures seen == old(seen)
      ensures Some(Ran(out, cache)) == old(Pass(values, environ, text, |text|, seen, cache, fuel))
      decreases fuel, 3
    {
      out := [];
      ghost var before := cache;
      for i := 0 to |text|
        invariant seen == old(seen)
        invariant Some(Ran(out, cache)) == Pass(values, environ, text, i, seen, before, fuel)
      {
        PassReaches(values, environ, text, i + 1, seen, before, fuel);
        var replacement := SubstituteToken(text[i], fuel);
        out := out + replacement;
      }
    }

    method ResolveValue(name: string, ghost fuel: nat) returns (resolved: Text)
      requires Value(values, environ, name, seen, cache, fuel).Some?
      modifies this`cache, this`seen
      ensures seen == old(seen)
      ensures Some(Ran(resolved, cache)) == old(Value(values, environ, name, seen, cache, fuel))
      decreases fuel, 0
    {
      if name in cache {
        return cache[name];
      }
      if name in seen {
        return RawText(values, name);
      }
      seen := seen + {name};
      var isFirst, previous := true, [];
      resolved := Start(RawText(values, name));
      ghost var left: nat := fuel - 1;
      ghost var end := Loop(values, environ, resolved, seen, cache, left);
      while isFirst || previous != resolved
        invariant seen == old(seen) + {name} && left < fuel
        invariant end == if isFirst || previous != resolved then Loop(values, environ, resolved, seen, cache, left)
                         else Some(Ran(resolved, cache))
        decreases left
      {
        isFirst, previous := false, resolved;
        resolved := SubstituteRefs(resolved, left - 1);
        left := left - 1;
      }
      cache := cache[name := resolved];
      seen := seen - {name};
    }

    /** Resolves every variable, in whatever order the mapping lists them. */
    method ResolveAll(names: seq<string>) returns (result: map<string, Text>)
      requires Settled(values, environ) && Lists(values, names) && cache == map[]
      modifies this`cache, this`seen
      ensures result == DenoteAll(values, environ)
      ensures Answers(values, environ, result)
    {
      ghost var fuel := Enough(|values| + 1);
      AllAreNames(values, names);
      EverythingRuns(values, environ, names, |names|, fuel);
      result := ResolveNames(names, fuel);
      ResolutionDenotes(values, environ, names, fuel);
      DenoteAnswers(values, environ);
    }

    method ResolveNames(names: seq<string>, ghost fuel: nat) returns (result: map<string, Text>)
      requires Lists(values, names) && cache == map[]
      requires Everything(values, environ, names, |names|, fuel).Some?
      modifies this`cache, this`seen
      ensures Everything(values, environ, names, |names|, fuel) == Some(AllRan(result, cache))
    {
      result := map[];
      for i := 0 to |names|
        invariant Everything(values, environ, names, i, fuel) == Some(AllRan(result, cache))
      {
        EverythingReaches(values, environ, names, i + 1, fuel);
        seen := {};
        var value := ResolveValue(names[i], fuel);
        result := result[names[i] := value];
      }
    }
  }

  /** A resolution that ends has ended its first `k` variables. */
  lemma {:induction false} EverythingReaches(values: Values, environ: Environ, names: seq<string>, k: nat, fuel: nat)
    requires k <= |names| && Everything(values, environ, names, |names|, fuel).Some?
    ensures Everything(values, environ, names, k, fuel).Some?
    decreases |names| - k
  {
    if k < |names| {
      EverythingReaches(values, environ, names, k + 1, fuel);
    }
  }

  /** A round that ends has ended its first `k` tokens. */
  lemma {:induction false} PassReaches(values: Values, environ: Environ, text: Text, k: nat, seen: set<string>,
      cache: Cache, fuel: nat)
    requires k <= |text| && Pass(values, environ, text, |text|, seen, cache, fuel).Some?
    ensures Pass(values, environ, text, k, seen, cache, fuel).Some?
    decreases |text| - k
  {
    if k < |text| {
      PassReaches(values, environ, text, k + 1, seen, cache, fuel);
    }
  }
}
