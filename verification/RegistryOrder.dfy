/** Step 1 of the schema registry's Compile (schema/registry.go): documents must
    be registered with an application's dependencies first. */
module RegistryOrder {
  import opened Wrappers
  import opened AppGraph

  type Dependencies = map<string, seq<string>>

  function DependenciesOf(deps: Dependencies, app: string): seq<string> {
    if app in deps then deps[app] else []
  }

  /** Some document of dep is registered, and the first one comes after index i. */
  ghost predicate LateDependency(registered: seq<string>, dep: string, i: nat) {
    && (exists k :: 0 <= k < |registered| && registered[k] == dep)
    && (forall k :: 0 <= k < |registered| && k <= i ==> registered[k] != dep)
  }

  /** registered lists the application of each document in registration order. */
  ghost predicate OrderRespected(registered: seq<string>, deps: Dependencies) {
    forall i :: 0 <= i < |registered| ==> InTime(registered, deps, i)
  }

  /** first gives the index of each application's first document. */
  ghost predicate IndexesFirst(registered: seq<string>, first: map<string, nat>, n: nat)
    requires n <= |registered|
  {
    && (forall a :: a in first ==> first[a] < n && registered[first[a]] == a)
    && (forall k :: 0 <= k < n ==> registered[k] in first && first[registered[k]] <= k)
  }

  method FirstDocuments(registered: seq<string>) returns (first: map<string, nat>)
    ensures IndexesFirst(registered, first, |registered|)
  {
    first := map[];
    for i := 0 to |registered|
      invariant IndexesFirst(registered, first, i)
    {
      if registered[i] !in first {
        first := first[registered[i] := i];
      }
    }
  }

  lemma LateByIndex(registered: seq<string>, first: map<string, nat>, d: string, i: nat)
    requires IndexesFirst(registered, first, |registered|)
    ensures LateDependency(registered, d, i) <==> d in first && first[d] > i
  {
  }

  /** Document i has none of its application's dependencies after it. */
  ghost predicate InTime(registered: seq<string>, deps: Dependencies, i: nat)
    requires i < |registered|
  {
    forall d :: d in DependenciesOf(deps, registered[i]) ==> !LateDependency(registered, d, i)
  }

  method CheckDocument(registered: seq<string>, first: map<string, nat>, deps: Dependencies, i: nat) returns (ok: bool)
    requires IndexesFirst(registered, first, |registered|) && i < |registered|
    ensures ok <==> InTime(registered, deps, i)
  {
    var ds := DependenciesOf(deps, registered[i]);
    for j := 0 to |ds|
      invariant forall q :: 0 <= q < j ==> !LateDependency(registered, ds[q], i)
    {
      LateByIndex(registered, first, ds[j], i);
      if ds[j] in first && first[ds[j]] > i {
        return false;
      }
    }
    return true;
  }

  /** Compile's check: one comparison for each dependency of each document. */
  method CheckOrder(registered: seq<string>, deps: Dependencies) returns (ok: bool)
    ensures ok <==> OrderRespected(registered, deps)
  {
    var first := FirstDocuments(registered);
    for i := 0 to |registered|
      invariant forall k :: 0 <= k < i ==> InTime(registered, deps, k)
    {
      ok := CheckDocument(registered, first, deps, i);
      if !ok {
        return;
      }
    }
    return true;
  }

  /** Documents registered application by application in the given order;
      documents[a] of them for application a. */
  function Registered(order: seq<Definition>, documents: map<string, nat>): seq<string> {
    if order == [] then [] else
    var last := order[|order| - 1];
    Registered(order[..|order| - 1], documents)
    + seq(if last.name in documents then documents[last.name] else 0, _ => last.name)
  }

  lemma {:induction false} RegisteredNames(order: seq<Definition>, documents: map<string, nat>)
    ensures forall k :: 0 <= k < |Registered(order, documents)| ==> Has(order, Registered(order, documents)[k])
  {
    if order != [] {
      var n := |order| - 1;
      RegisteredNames(order[..n], documents);
      var before, all := Registered(order[..n], documents), Registered(order, documents);
      forall k | 0 <= k < |all| ensures Has(order, all[k]) {
        if k < |before| {
          var i :| 0 <= i < n && order[..n][i].name == before[k];
          assert order[i].name == all[k];
        } else {
          assert order[n].name == all[k];
        }
      }
    }
  }

  /** Registering documents in the order ResolveDAG returns always passes the
      check, however many documents each application has, provided the
      dependencies recorded with the registry are those of the definitions. */
  lemma {:induction false} ResolvedOrderPasses(g: Graph, order: seq<Definition>, documents: map<string, nat>,
      deps: Dependencies)
    requires Ordered(g, order)
    requires forall a, d :: d in DependenciesOf(deps, a) && a in g ==> d in g[a].dependencies
    ensures OrderRespected(Registered(order, documents), deps)
  {
    if order != [] {
      var n := |order| - 1;
      var last, shorter := order[n], order[..n];
      assert Ordered(g, shorter) by {
        assert forall i :: 0 <= i < n ==> shorter[..i] == order[..i];
      }
      ResolvedOrderPasses(g, shorter, documents, deps);
      RegisteredNames(shorter, documents);
      var before, all := Registered(shorter, documents), Registered(order, documents);
      assert forall k :: 0 <= k < |before| ==> all[k] == before[k];
      assert forall k :: |before| <= k < |all| ==> all[k] == last.name;
      forall i | 0 <= i < |all| ensures InTime(all, deps, i) {
        forall d | d in DependenciesOf(deps, all[i]) ensures !LateDependency(all, d, i) {
          if i < |before| {
            assert InTime(before, deps, i);
          } else {
            assert d in last.dependencies && Has(shorter, d);
            var j :| 0 <= j < n && shorter[j].name == d;
            assert order[j].name != last.name;
          }
        }
      }
    }
  }

}
