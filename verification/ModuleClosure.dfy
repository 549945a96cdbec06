/** The AUTO branch of `update_addons` in docker/scripts/run_odoo_data_workflows.py: which
    local modules an update has to touch. `graph` maps every local module to the
    dependencies its manifest lists, local or not; it may be cyclic. */
module ModuleClosure {
  import opened Counting
  import opened Wrappers
  import opened Names
  import opened StableSort

  type Graph = map<string, seq<string>>

  ghost predicate DependsOn(graph: Graph, m: string, d: string) {
    m in graph && d in graph && d in graph[m]
  }

  ghost predicate Closed(graph: Graph, modules: set<string>) {
    forall m, d :: m in modules && DependsOn(graph, m, d) ==> d in modules
  }

  /** The least set of local modules with the installed ones and all their dependencies. */
  ghost predicate IsLeastClosed(graph: Graph, roots: set<string>, modules: set<string>) {
    && roots <= modules <= graph.Keys && Closed(graph, modules)
    && forall other :: roots <= other && Closed(graph, other) ==> modules <= other
  }

  method SortedElements(s: set<string>) returns (r: seq<string>)
    ensures Elements(r) == s && NoDuplicates(r) && Sorted(r, NameLeq)
  {
    var items: seq<string>, rest := [], s;
    while rest != {}
      invariant rest <= s && Elements(items) == s - rest && NoDuplicates(items)
    {
      var x :| x in rest;
      assert Elements([x]) == {x};
      QueueGrows(items, [x]);
      items, rest := items + [x], rest - {x};
    }
    r := Sort(items, NameLeq);
    SortPermutes(items, NameLeq);
    SameMultisetSameElements(items, r);
    forall a, b ensures NameLeq(a, b) || NameLeq(b, a) { NameLeqTotal(a, b); }
    forall a, b, c | NameLeq(a, b) && NameLeq(b, c) ensures NameLeq(a, c) { NameLeqTransitive(a, b, c); }
    SortSorts(items, NameLeq);
  }

  lemma SameMultisetSameElements(a: seq<string>, b: seq<string>)
    requires multiset(a) == multiset(b) && NoDuplicates(a)
    ensures Elements(a) == Elements(b) && NoDuplicates(b)
  {
    forall x ensures x in a <==> x in b {
      assert x in a <==> x in multiset(a);
      assert x in b <==> x in multiset(b);
    }
    PermutedNoDuplicates(a, b);
  }

  // ------------------------------------------------------------ the worklist

  /** One module's dependencies; returns what is new, in the order it is queued. */
  method QueueDependencies(graph: Graph, m: string, desired: set<string>)
    returns (larger: set<string>, added: seq<string>)
    requires m in graph && desired <= graph.Keys
    ensures larger == desired + Elements(added) && NoDuplicates(added) && Elements(added) !! desired
    ensures forall d :: d in added ==> DependsOn(graph, m, d)
    ensures forall d :: DependsOn(graph, m, d) ==> d in larger
  {
    larger, added := desired, [];
    for k := 0 to |graph[m]|
      invariant larger == desired + Elements(added) && NoDuplicates(added) && Elements(added) !! desired
      invariant forall d :: d in added ==> DependsOn(graph, m, d)
      invariant forall j :: 0 <= j < k && graph[m][j] in graph ==> graph[m][j] in larger
    {
      var dependency := graph[m][k];
      if dependency in graph && dependency !in larger {
        larger, added := larger + {dependency}, added + [dependency];
      }
    }
  }

  /** `desired` is the least closed set, whatever the order of the work; `queued` lists every
      module ever put on the worklist. */
  method DependencyClosure(graph: Graph, roots: seq<string>) returns (desired: set<string>, ghost queued: seq<string>)
    requires Elements(roots) <= graph.Keys && NoDuplicates(roots)
    ensures IsLeastClosed(graph, Elements(roots), desired)
    ensures NoDuplicates(queued) && Elements(queued) == desired
  {
    desired := Elements(roots);
    queued := roots;
    var pending := roots;
    while pending != []
      invariant Elements(roots) <= desired <= graph.Keys
      invariant NoDuplicates(queued) && Elements(queued) == desired
      invariant Elements(pending) <= desired
      invariant forall m, d :: m in desired && m !in pending && DependsOn(graph, m, d) ==> d in desired
      invariant forall other :: Elements(roots) <= other && Closed(graph, other) ==> desired <= other
      decreases graph.Keys - desired, |pending|
    {
      var last := |pending| - 1;
      var m := pending[last];
      var larger, added := QueueDependencies(graph, m, desired);
      QueueGrows(queued, added);
      assert pending == pending[..last] + [m];
      if added == [] {
        assert larger == desired;
      } else {
        assert added[0] in graph.Keys - desired && added[0] !in graph.Keys - larger;
      }
      desired, queued, pending := larger, queued + added, pending[..last] + added;
    }
  }

  lemma QueueGrows(queued: seq<string>, added: seq<string>)
    requires NoDuplicates(queued) && NoDuplicates(added) && Elements(queued) !! Elements(added)
    ensures NoDuplicates(queued + added) && Elements(queued + added) == Elements(queued) + Elements(added)
  {
    forall i, j | 0 <= i < j < |queued + added| ensures (queued + added)[i] != (queued + added)[j] {
      if i < |queued| <= j {
        assert queued[i] in Elements(queued) && added[j - |queued|] in Elements(added);
      }
    }
  }

  /** None when there is nothing to do: no local module, or none of them installed. */
  method AutoUpdateModules(graph: Graph, installed: set<string>) returns (modules: Option<seq<string>>)
    ensures modules.None? <==> graph.Keys * installed == {}
    ensures modules.Some? ==>
      && IsLeastClosed(graph, graph.Keys * installed, Elements(modules.value))
      && NoDuplicates(modules.value) && Sorted(modules.value, NameLeq)
  {
    if graph == map[] {
      return None;
    }
    var roots := SortedElements(graph.Keys * installed);
    if roots == [] {
      return None;
    }
    var desired, queued := DependencyClosure(graph, roots);
    var names := SortedElements(desired);
    modules := Some(names);
    assert roots[0] in graph.Keys * installed;
  }

  // ------------------------------------------------------------ what the least closed set is

  /** Each module of a chain is a local dependency of the one before it. */
  ghost predicate IsChain(graph: Graph, chain: seq<string>) {
    chain != [] &&
    var last := |chain| - 1;
    (last > 0 ==>
      && IsChain(graph, chain[..last]) && chain[last - 1] in graph
      && chain[last] in graph && chain[last] in graph[chain[last - 1]])
  }

  ghost predicate Needed(graph: Graph, roots: set<string>, m: string) {
    exists chain :: IsChain(graph, chain) && chain[0] in roots && chain[|chain| - 1] == m
  }

  lemma ChainGrows(graph: Graph, chain: seq<string>, d: string)
    requires IsChain(graph, chain) && DependsOn(graph, chain[|chain| - 1], d)
    ensures IsChain(graph, chain + [d])
  {
    assert (chain + [d])[..|chain|] == chain;
  }

  /** A module is in the set exactly when a chain of dependencies leads to it from a root. */
  lemma LeastClosedIsReachable(graph: Graph, roots: set<string>, modules: set<string>, m: string)
    requires IsLeastClosed(graph, roots, modules)
    ensures m in modules <==> Needed(graph, roots, m)
  {
    var reached := set x | x in modules && Needed(graph, roots, x);
    forall x | x in roots ensures x in reached {
      assert IsChain(graph, [x]);
    }
    forall x, d | x in reached && DependsOn(graph, x, d) ensures d in reached {
      var chain :| IsChain(graph, chain) && chain[0] in roots && chain[|chain| - 1] == x;
      ChainGrows(graph, chain, d);
    }
    assert Closed(graph, reached);
    if Needed(graph, roots, m) {
      var chain :| IsChain(graph, chain) && chain[0] in roots && chain[|chain| - 1] == m;
      ChainStaysInside(graph, modules, chain);
    }
  }

  lemma {:induction false} ChainStaysInside(graph: Graph, modules: set<string>, chain: seq<string>)
    requires Closed(graph, modules) && IsChain(graph, chain) && chain[0] in modules
    ensures chain[|chain| - 1] in modules
  {
    var last := |chain| - 1;
    if last > 0 {
      ChainStaysInside(graph, modules, chain[..last]);
      assert DependsOn(graph, chain[last - 1], chain[last]);
    }
  }
}
