/** Walks along the edges of a graph, and walks that come back. */
module Walks {

  type Edges = (string, string) -> bool

  ghost predicate EdgeAt(e: Edges, p: seq<string>, i: nat)
    requires i < |p| - 1
  {
    e(p[i], p[i + 1])
  }

  ghost predicate Walk(e: Edges, p: seq<string>) {
    p != [] && forall i :: 0 <= i < |p| - 1 ==> EdgeAt(e, p, i)
  }

  /** A walk that ends on the path so far or on itself. */
  ghost predicate Revisits(e: Edges, visited: seq<string>, p: seq<string>) {
    Walk(e, p) && p[|p| - 1] in visited + p[..|p| - 1]
  }

  /** Such a walk leads from one node to another. */
  ghost predicate RevisitTo(e: Edges, visited: seq<string>, from: string, to: string) {
    exists p :: Revisits(e, visited, p) && p[0] == from && p[|p| - 1] == to
  }

  ghost predicate RevisitFrom(e: Edges, visited: seq<string>, from: string) {
    exists to :: RevisitTo(e, visited, from, to)
  }

  ghost predicate IsCycle(e: Edges, c: seq<string>) {
    Walk(e, c) && |c| >= 2 && c[0] == c[|c| - 1]
  }

  /** Some cycle can be reached from a node. */
  ghost predicate CycleReachable(e: Edges, root: string) {
    exists p, c :: Walk(e, p) && p[0] == root && IsCycle(e, c) && c[0] == p[|p| - 1]
  }

  lemma RevisitHere(e: Edges, visited: seq<string>, id: string)
    requires id in visited
    ensures RevisitTo(e, visited, id, id)
  {
    var p := [id];
    assert Revisits(e, visited, p) && p[0] == id && p[|p| - 1] == id;
  }

  /** A walk that comes back must leave by some edge. */
  lemma RevisitLeaves(e: Edges, visited: seq<string>, id: string) returns (next: string)
    requires id !in visited && RevisitFrom(e, visited, id)
    ensures e(id, next) && RevisitFrom(e, visited + [id], next)
  {
    var to :| RevisitTo(e, visited, id, to);
    var p :| Revisits(e, visited, p) && p[0] == id && p[|p| - 1] == to;
    var rest := p[1..];
    next := p[1];
    assert EdgeAt(e, p, 0);
    assert Revisits(e, visited + [id], rest) by {
      forall i | 0 <= i < |rest| - 1 ensures EdgeAt(e, rest, i) { assert EdgeAt(e, p, i + 1); }
      assert visited + p[..|p| - 1] == visited + [id] + rest[..|rest| - 1];
    }
    assert RevisitTo(e, visited + [id], next, to);
  }

  lemma RevisitThrough(e: Edges, visited: seq<string>, id: string, next: string, to: string)
    requires e(id, next) && RevisitTo(e, visited + [id], next, to)
    ensures RevisitTo(e, visited, id, to)
  {
    var rest :| Revisits(e, visited + [id], rest) && rest[0] == next && rest[|rest| - 1] == to;
    var p := [id] + rest;
    forall i | 0 <= i < |p| - 1 ensures EdgeAt(e, p, i) { if i > 0 { assert EdgeAt(e, rest, i - 1); } }
    assert visited + p[..|p| - 1] == visited + [id] + rest[..|rest| - 1];
    assert Revisits(e, visited, p);
  }

  lemma WalkSlice(e: Edges, p: seq<string>, lo: nat, hi: nat)
    requires Walk(e, p) && lo < hi <= |p|
    ensures Walk(e, p[lo..hi])
  {
    var w := p[lo..hi];
    forall j | 0 <= j < |w| - 1 ensures EdgeAt(e, w, j) { assert EdgeAt(e, p, lo + j); }
  }

  lemma WalkJoin(e: Edges, p: seq<string>, c: seq<string>)
    requires Walk(e, p) && Walk(e, c) && p[|p| - 1] == c[0]
    ensures Walk(e, p + c[1..])
  {
    var w := p + c[1..];
    forall i | 0 <= i < |w| - 1 ensures EdgeAt(e, w, i) {
      if i < |p| - 1 { assert EdgeAt(e, p, i); } else { assert EdgeAt(e, c, i - |p| + 1); }
    }
  }

  lemma RevisitHasCycle(e: Edges, p: seq<string>)
    requires Revisits(e, [], p)
    ensures CycleReachable(e, p[0])
  {
    var n := |p| - 1;
    assert [] + p[..n] == p[..n];
    var i :| 0 <= i < n && p[i] == p[n];
    WalkSlice(e, p, 0, i + 1);
    WalkSlice(e, p, i, n + 1);
    var a, c := p[0..i + 1], p[i..n + 1];
    assert a[0] == p[0] && IsCycle(e, c) && c[0] == a[|a| - 1];
  }

  lemma CycleRevisits(e: Edges, p: seq<string>, c: seq<string>)
    requires Walk(e, p) && IsCycle(e, c) && c[0] == p[|p| - 1]
    ensures RevisitFrom(e, [], p[0])
  {
    WalkJoin(e, p, c);
    var w := p + c[1..];
    assert w[|w| - 1] == c[|c| - 1];
    assert ([] + w[..|w| - 1])[|p| - 1] == w[|w| - 1];
    assert Revisits(e, [], w) && w[0] == p[0];
    assert RevisitTo(e, [], p[0], w[|w| - 1]);
  }

  /** From an empty path, coming back to a node on the walk is exactly reaching
      a cycle. */
  lemma RevisitIsCycle(e: Edges, root: string)
    ensures RevisitFrom(e, [], root) <==> CycleReachable(e, root)
  {
    if RevisitFrom(e, [], root) {
      var to :| RevisitTo(e, [], root, to);
      var p :| Revisits(e, [], p) && p[0] == root && p[|p| - 1] == to;
      RevisitHasCycle(e, p);
    }
    if CycleReachable(e, root) {
      var p, c :| Walk(e, p) && p[0] == root && IsCycle(e, c) && c[0] == p[|p| - 1];
      CycleRevisits(e, p, c);
    }
  }
}
