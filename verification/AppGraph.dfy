/** The dependency graph of a list of applications, and what an order of them
    must satisfy. */
module AppGraph {
  import opened Wrappers
  import opened Walks

  datatype Definition = Definition(name: string, dependencies: seq<string>)

  type Graph = map<string, Definition>

  /** appMap of ResolveDAG: a later definition of the same name wins. */
  function AppMap(apps: seq<Definition>): (g: Graph)
    ensures forall n :: n in g ==> g[n].name == n && g[n] in apps
    ensures forall a :: a in apps ==> a.name in g
  {
    if apps == [] then map[] else
    var last := |apps| - 1;
    AppMap(apps[..last])[apps[last].name := apps[last]]
  }

  ghost predicate Edge(g: Graph, a: string, b: string) {
    a in g && b in g[a].dependencies
  }

  ghost function EdgesOf(g: Graph): Edges {
    (a, b) => Edge(g, a, b)
  }

  ghost predicate Acyclic(g: Graph) {
    forall p :: !IsCycle(EdgesOf(g), p)
  }

  /** Every dependency of a listed application is listed. As every listed
      application is a root of the search, this covers every reachable one. */
  ghost predicate AllListed(g: Graph) {
    forall a, b :: Edge(g, a, b) ==> b in g
  }

  ghost predicate Has(order: seq<Definition>, name: string) {
    exists i :: 0 <= i < |order| && order[i].name == name
  }

  ghost predicate DistinctNames(order: seq<Definition>) {
    forall i, j :: 0 <= i < j < |order| ==> order[i].name != order[j].name
  }

  /** Distinct definitions of g, every dependency before its dependent. */
  ghost predicate Ordered(g: Graph, order: seq<Definition>) {
    && DistinctNames(order)
    && (forall i :: 0 <= i < |order| ==> order[i].name in g && g[order[i].name] == order[i])
    && (forall i, d :: 0 <= i < |order| && d in order[i].dependencies ==> Has(order[..i], d))
  }

  ghost predicate TopologicalOrder(g: Graph, order: seq<Definition>) {
    Ordered(g, order) && forall n :: n in g ==> Has(order, n)
  }

  datatype Error = Circular(app: string) | Missing(app: string)

  /** What an error promises: a circular one a real cycle through the named
      application, a missing one a dependency that is really not listed. */
  ghost predicate Justified(g: Graph, e: Error) {
    match e
    case Circular(a) => exists p :: IsCycle(EdgesOf(g), p) && p[0] == a
    case Missing(a) => a !in g && exists b :: Edge(g, b, a)
  }

  /** A topological order rules out cycles and unlisted dependencies. */
  lemma OrderImpliesAcyclic(g: Graph, order: seq<Definition>)
    requires TopologicalOrder(g, order)
    ensures Acyclic(g) && AllListed(g)
  {
    forall a, b | Edge(g, a, b) ensures b in g {
      var i := EdgeGoesBack(g, order, a, b);
    }
    forall p ensures !IsCycle(EdgesOf(g), p) {
      if IsCycle(EdgesOf(g), p) {
        assert EdgeAt(EdgesOf(g), p, 0);
        PathGoesBack(g, order, p);
      }
    }
  }

  lemma EdgeGoesBack(g: Graph, order: seq<Definition>, a: string, b: string) returns (i: nat)
    requires TopologicalOrder(g, order) && Edge(g, a, b)
    ensures i < |order| && order[i].name == a && Has(order[..i], b) && b in g
  {
    i :| 0 <= i < |order| && order[i].name == a;
    var j :| 0 <= j < i && order[..i][j].name == b;
    assert order[j].name in g;
  }

  /** Along a path of at least one edge the position in the order falls. */
  lemma {:induction false} PathGoesBack(g: Graph, order: seq<Definition>, p: seq<string>)
    requires TopologicalOrder(g, order) && Walk(EdgesOf(g), p) && |p| >= 2
    ensures p[0] != p[|p| - 1]
    ensures exists i, j :: 0 <= j < i < |order| && order[i].name == p[0] && order[j].name == p[|p| - 1]
  {
    assert EdgeAt(EdgesOf(g), p, 0);
    var i := EdgeGoesBack(g, order, p[0], p[1]);
    var k :| 0 <= k < i && order[..i][k].name == p[1];
    assert order[k].name == p[1];
    if |p| > 2 {
      var rest := p[1..];
      assert Walk(EdgesOf(g), rest) by {
        forall q | 0 <= q < |rest| - 1 ensures EdgeAt(EdgesOf(g), rest, q) { assert EdgeAt(EdgesOf(g), p, q + 1); }
      }
      PathGoesBack(g, order, rest);
      var i', j :| 0 <= j < i' < |order| && order[i'].name == p[1] && order[j].name == p[|p| - 1];
      assert i' == k;
    }
  }

  /** A justified error rules out every order. */
  lemma ErrorRefutes(g: Graph, e: Error)
    requires Justified(g, e)
    ensures !(Acyclic(g) && AllListed(g))
    ensures forall order :: !TopologicalOrder(g, order)
  {
    match e {
      case Circular(a) =>
        var p :| IsCycle(EdgesOf(g), p) && p[0] == a;
      case Missing(a) =>
        var b :| Edge(g, b, a);
    }
    forall order ensures TopologicalOrder(g, order) ==> Acyclic(g) && AllListed(g) {
      if TopologicalOrder(g, order) { OrderImpliesAcyclic(g, order); }
    }
  }
}
