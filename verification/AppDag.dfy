/** ResolveDAG (app/app.go): a depth-first search with three colours that
    appends each application after its dependencies. */
module AppDag {
  import opened Wrappers
  import opened AppGraph
  import opened Walks

  datatype Colour = Visiting | Done  // absent from the map: unvisited

  class Resolver {
    const appMap: Graph
    var visited: map<string, Colour>
    var result: seq<Definition>

    constructor (appMap: Graph)
      ensures this.appMap == appMap && visited == map[] && result == []
    {
      this.appMap := appMap;
      visited, result := map[], [];
    }

    /** Between calls: stack is the path of applications being visited, and
        result orders exactly the finished ones. */
    ghost predicate Inv(stack: seq<string>)
      reads this
    {
      && (forall n :: n in appMap ==> appMap[n].name == n)
      && (forall n :: n in visited && visited[n] == Visiting <==> n in stack)
      && (forall n :: n in visited && visited[n] == Done <==> Has(result, n))
      && (forall n :: n in stack ==> n in appMap)
      && (stack == [] || Walk(EdgesOf(appMap), stack))
      && Ordered(appMap, result)
    }

    method Visit(name: string, ghost stack: seq<string>) returns (err: Option<Error>)
      requires Inv(stack)
      requires if stack == [] then name in appMap else Edge(appMap, stack[|stack| - 1], name)
      modifies this
      ensures err.None? ==> Inv(stack) && Has(result, name) && old(result) <= result
      ensures visited.Keys >= old(visited.Keys)
      ensures err.Some? ==> Justified(appMap, err.value)
      decreases appMap.Keys - visited.Keys, 0
    {
      if name in visited && visited[name] == Done {
        return None;
      }
      if name in visited && visited[name] == Visiting {
        CloseCycle(appMap, stack, name);
        return Some(Circular(name));
      }
      if name !in appMap {
        visited := visited[name := Visiting];
        return Some(Missing(name));
      }
      var appDef := appMap[name];
      Begin(name, stack);
      err := VisitDependencies(appDef, stack + [name]);
      if err.Some? {
        return;
      }
      Finish(appDef, stack);
    }

    /** The loop over an application's dependencies; it is the last on the path. */
    method VisitDependencies(appDef: Definition, ghost path: seq<string>) returns (err: Option<Error>)
      requires Inv(path) && path != [] && path[|path| - 1] == appDef.name && appMap[appDef.name] == appDef
      modifies this
      ensures err.None? ==> Inv(path) && old(result) <= result
      ensures err.None? ==> forall d :: d in appDef.dependencies ==> Has(result, d)
      ensures visited.Keys >= old(visited.Keys)
      ensures err.Some? ==> Justified(appMap, err.value)
      decreases appMap.Keys - visited.Keys, 1
    {
      for i := 0 to |appDef.dependencies|
        invariant Inv(path) && old(result) <= result
        invariant visited.Keys >= old(visited.Keys)
        invariant forall j :: 0 <= j < i ==> Has(result, appDef.dependencies[j])
      {
        ghost var before := result;
        assert Edge(appMap, appDef.name, appDef.dependencies[i]);
        err := Visit(appDef.dependencies[i], path);
        if err.Some? {
          return;
        }
        NamesGrow(before, result);
      }
      err := None;
    }

    /** visited[name] = 1, for a listed application seen for the first time. */
    method Begin(name: string, ghost stack: seq<string>)
      requires Inv(stack) && name in appMap && name !in visited
      requires stack == [] || Edge(appMap, stack[|stack| - 1], name)
      modifies `visited
      ensures Inv(stack + [name]) && visited.Keys == old(visited.Keys) + {name}
    {
      ExtendPath(appMap, stack, name);
      visited := visited[name := Visiting];
    }

    /** visited[name] = 2 and the append to result. */
    method Finish(appDef: Definition, ghost stack: seq<string>)
      requires Inv(stack + [appDef.name]) && appDef.name !in stack
      requires appMap[appDef.name] == appDef
      requires forall d :: d in appDef.dependencies ==> Has(result, d)
      modifies this
      ensures Inv(stack) && result == old(result) + [appDef] && Has(result, appDef.name)
      ensures visited.Keys >= old(visited.Keys)
    {
      ghost var path, was := stack + [appDef.name], result;
      assert appDef.name in path && !Has(was, appDef.name);
      visited := visited[appDef.name := Done];
      result := result + [appDef];
      assert result[|was|] == appDef;
      NamesGrow(was, result);
      assert forall n :: n in path <==> n in stack || n == appDef.name;
      assert stack == [] || Walk(EdgesOf(appMap), stack) by {
        forall q | 0 <= q < |stack| - 1 ensures EdgeAt(EdgesOf(appMap), stack, q) {
          assert EdgeAt(EdgesOf(appMap), path, q);
        }
      }
      OrderedGrows(appMap, was, appDef);
    }
  }

  lemma ExtendPath(g: Graph, stack: seq<string>, name: string)
    requires stack == [] || (Walk(EdgesOf(g), stack) && Edge(g, stack[|stack| - 1], name))
    ensures Walk(EdgesOf(g), stack + [name])
  {
    var path := stack + [name];
    forall q | 0 <= q < |path| - 1 ensures EdgeAt(EdgesOf(g), path, q) {
      if q < |stack| - 1 { assert EdgeAt(EdgesOf(g), stack, q); }
    }
  }

  lemma CloseCycle(g: Graph, stack: seq<string>, name: string)
    requires Walk(EdgesOf(g), stack) && Edge(g, stack[|stack| - 1], name) && name in stack
    ensures exists p :: IsCycle(EdgesOf(g), p) && p[0] == name
  {
    var i :| 0 <= i < |stack| && stack[i] == name;
    assert Walk(EdgesOf(g), stack[i..]) by {
      forall q | 0 <= q < |stack| - i - 1 ensures EdgeAt(EdgesOf(g), stack[i..], q) {
        assert EdgeAt(EdgesOf(g), stack, i + q);
      }
    }
    ExtendPath(g, stack[i..], name);
    assert IsCycle(EdgesOf(g), stack[i..] + [name]);
  }

  lemma NamesGrow(a: seq<Definition>, b: seq<Definition>)
    requires a <= b
    ensures forall n :: Has(a, n) ==> Has(b, n)
  {
    assert forall i :: 0 <= i < |a| ==> a[i] == b[i];
  }

  lemma OrderedGrows(g: Graph, order: seq<Definition>, d: Definition)
    requires Ordered(g, order) && !Has(order, d.name) && d.name in g && g[d.name] == d
    requires forall x :: x in d.dependencies ==> Has(order, x)
    ensures Ordered(g, order + [d])
  {
    var longer := order + [d];
    forall i, x | 0 <= i < |longer| && x in longer[i].dependencies ensures Has(longer[..i], x) {
      assert longer[..i] == order[..i];
      if i == |order| { assert order[..i] == order; }
    }
  }

  ghost predicate HasFirst(order: seq<Definition>, apps: seq<Definition>, n: nat)
    requires n <= |apps|
  {
    forall j :: 0 <= j < n ==> Has(order, apps[j].name)
  }

  lemma HasFirstGrows(a: seq<Definition>, b: seq<Definition>, apps: seq<Definition>, n: nat)
    requires n < |apps| && a <= b && HasFirst(a, apps, n) && Has(b, apps[n].name)
    ensures HasFirst(b, apps, n + 1)
  {
    NamesGrow(a, b);
  }

  /** The loop of ResolveDAG over the listed applications. */
  method VisitAll(g: Graph, apps: seq<Definition>) returns (r: Result<seq<Definition>, Error>)
    requires forall n :: n in g ==> g[n].name == n && exists i :: 0 <= i < |apps| && apps[i].name == n
    requires forall i :: 0 <= i < |apps| ==> apps[i].name in g
    ensures r.Ok? ==> TopologicalOrder(g, r.value)
    ensures r.Err? ==> Justified(g, r.error)
  {
    var s := new Resolver(g);
    for i := 0 to |apps|
      invariant s.appMap == g && s.Inv([])
      invariant HasFirst(s.result, apps, i)
    {
      ghost var before := s.result;
      var e := s.Visit(apps[i].name, []);
      if e.Some? {
        return Err(e.value);
      }
      HasFirstGrows(before, s.result, apps, i);
    }
    return Ok(s.result);
  }

  /** ResolveDAG: it succeeds exactly when the graph is acyclic and closed, its
      result is then a topological order of all listed applications, and an
      error names a real cycle or a really missing application. */
  method ResolveDAG(apps: seq<Definition>) returns (r: Result<seq<Definition>, Error>)
    ensures r.Ok? <==> Acyclic(AppMap(apps)) && AllListed(AppMap(apps))
    ensures r.Ok? ==> TopologicalOrder(AppMap(apps), r.value)
    ensures r.Err? ==> Justified(AppMap(apps), r.error)
  {
    var g := AppMap(apps);
    assert forall i :: 0 <= i < |apps| ==> apps[i] in apps;
    r := VisitAll(g, apps);
    match r {
      case Ok(order) => OrderImpliesAcyclic(g, order);
      case Err(e) => ErrorRefutes(g, e);
    }
  }
}
