/** The doubly linked ring of Go's container/list, as the LRU store uses it:
    a sentinel root whose next is the front and whose prev is the back. */
module LinkedList {
  import opened Wrappers

  class Element<T> {
    var value: Option<T>  // None only at the sentinel
    var next: Element?<T>
    var prev: Element?<T>

    constructor (value: Option<T>)
      ensures this.value == value && next == null && prev == null
    {
      this.value := value;
      next, prev := null, null;
    }
  }

  lemma CutRing<T>(root: Element<T>, nodes: seq<Element<T>>, k: nat)
    requires k < |nodes|
    requires root !in nodes && forall i, j :: 0 <= i < j < |nodes| ==> nodes[i] != nodes[j]
    ensures var ring := [root] + nodes + [root];
            var rest := nodes[..k] + nodes[k + 1..];
            var ring' := [root] + rest + [root];
            && (forall i {:trigger ring'[i]} :: 0 <= i < |ring'| ==> ring'[i] == ring[if i <= k then i else i + 1])
            && nodes[k] !in rest && root !in rest
            && (forall i, j :: 0 <= i < j < |rest| ==> rest[i] != rest[j])
            && (forall n :: n in rest ==> n in nodes)
  {
  }

  class List<T> {
    const root: Element<T>
    ghost var nodes: seq<Element<T>>  // front first
    ghost var owned: set<Element<T>>  // every element this list may write

    /** Root, the nodes from front to back, and root again. */
    ghost function Ring(): seq<Element<T>>
      reads this
    {
      [root] + nodes + [root]
    }

    ghost predicate Distinct()
      reads this
    {
      root !in nodes && forall i, j :: 0 <= i < j < |nodes| ==> nodes[i] != nodes[j]
    }

    ghost predicate Valid()
      reads this, owned
    {
      && root in owned && (forall n :: n in nodes ==> n in owned)
      && Distinct()
      && (forall n :: n in nodes ==> n.value.Some?)
      && var ring := Ring();
      && (forall i {:trigger ring[i].next} :: 0 <= i < |ring| - 1 ==> ring[i].next == ring[i + 1])
      && (forall i {:trigger ring[i].prev} :: 0 < i < |ring| ==> ring[i].prev == ring[i - 1])
    }

    /** The payloads, front first. */
    ghost function Contents(): (s: seq<T>)
      reads this, owned
      requires Valid()
      ensures |s| == |nodes|
      ensures forall i :: 0 <= i < |nodes| ==> s[i] == nodes[i].value.value
    {
      seq(|nodes|, i requires 0 <= i < |nodes| && Valid() reads this, owned => nodes[i].value.value)
    }

    lemma RingDistinct(k: nat)
      requires Distinct() && k < |nodes| + 2
      ensures var ring := Ring();
              && (k < |ring| - 1 ==> forall i :: 0 <= i < |ring| - 1 && i != k ==> ring[i] != ring[k])
              && (k > 0 ==> forall i :: 0 < i < |ring| && i != k ==> ring[i] != ring[k])
    {
      var ring := Ring();
      assert forall i :: 0 < i < |ring| - 1 ==> ring[i] == nodes[i - 1] && ring[i] in nodes;
    }

    constructor ()
      ensures Valid() && nodes == [] && fresh(owned)
    {
      var r := new Element(None);
      root := r;
      nodes := [];
      owned := {r};
      new;
      r.next := r;
      r.prev := r;
    }

    /** Links a detached element right after the root. */
    method LinkFront(e: Element<T>)
      requires Valid() && e !in nodes && e != root && e.value.Some?
      modifies e, owned, `nodes, `owned
      ensures Valid() && nodes == [e] + old(nodes) && owned == old(owned) + {e}
      ensures forall n :: n in nodes ==> n.value == old(n.value)
    {
      ghost var ring := Ring();
      assert ring[0] == root && root.next == ring[1];
      RingDistinct(0);
      RingDistinct(1);
      e.prev := root;
      e.next := root.next;
      e.prev.next := e;
      e.next.prev := e;
      nodes := [e] + nodes;
      owned := owned + {e};
      ghost var ring' := Ring();
      assert ring' == [root, e] + ring[1..];
      assert forall i :: 2 <= i < |ring'| ==> ring'[i] == ring[i - 1];
    }

    /** Takes the element at position k of the list out of the ring. */
    method Unlink(e: Element<T>, ghost k: nat)
      requires Valid() && k < |nodes| && nodes[k] == e
      modifies owned, `nodes
      ensures Valid() && nodes == old(nodes)[..k] + old(nodes)[k + 1..] && e !in nodes
      ensures forall n :: n in old(nodes) ==> n.value == old(n.value)
    {
      ghost var ring := Ring();
      assert ring[k + 1] == e;
      assert e.next == ring[k + 2] && e.prev == ring[k];
      RingDistinct(k);
      RingDistinct(k + 2);
      var before, after := e.prev, e.next;
      before.next := after;
      after.prev := before;
      assert forall i {:trigger ring[i].next} :: 0 <= i < |ring| - 1 && i != k ==> ring[i].next == ring[i + 1];
      assert forall i {:trigger ring[i].prev} :: 0 < i < |ring| && i != k + 2 ==> ring[i].prev == ring[i - 1];
      ghost var was := nodes;
      nodes := nodes[..k] + nodes[k + 1..];
      CutRing(root, was, k);
      ghost var ring' := Ring();
      assert forall i {:trigger ring'[i]} :: 0 <= i < |ring'| ==> ring'[i] == ring[if i <= k then i else i + 1];
      forall i | 0 <= i < |ring'| - 1
        ensures ring'[i].next == ring'[i + 1]
      {
      }
      forall i | 0 < i < |ring'|
        ensures ring'[i].prev == ring'[i - 1]
      {
      }
      assert Distinct();
      assert forall n :: n in was ==> n.value == old(n.value);
      assert forall n :: n in nodes ==> n.value.Some?;
      assert Valid();
      assert e !in nodes;
    }

    method PushFront(value: T) returns (e: Element<T>)
      requires Valid()
      modifies owned, `nodes, `owned
      ensures Valid() && fresh(e) && e.value == Some(value) && owned == old(owned) + {e}
      ensures nodes == [e] + old(nodes)
      ensures Contents() == [value] + old(Contents())
    {
      e := new Element(Some(value));
      LinkFront(e);
    }

    method MoveToFront(e: Element<T>, ghost k: nat)
      requires Valid() && k < |nodes| && nodes[k] == e
      modifies owned, `nodes, `owned
      ensures Valid() && owned == old(owned) && nodes == [e] + (old(nodes)[..k] + old(nodes)[k + 1..])
      ensures Contents() == [old(Contents())[k]] + (old(Contents())[..k] + old(Contents())[k + 1..])
    {
      assert Ring()[0] == root && Ring()[1] == nodes[0];
      if root.next == e {
        assert k == 0;
        return;
      }
      Unlink(e, k);
      LinkFront(e);
    }

    /** Replaces the payload of the element at position k. */
    method Replace(e: Element<T>, ghost k: nat, value: T)
      requires Valid() && k < |nodes| && nodes[k] == e
      modifies e`value
      ensures Valid() && Contents() == old(Contents())[k := value]
    {
      e.value := Some(value);
    }

    method Remove(e: Element<T>, ghost k: nat)
      requires Valid() && k < |nodes| && nodes[k] == e
      modifies owned, `nodes
      ensures Valid() && nodes == old(nodes)[..k] + old(nodes)[k + 1..]
      ensures Contents() == old(Contents())[..k] + old(Contents())[k + 1..]
    {
      Unlink(e, k);
      e.next, e.prev := null, null;
      assert Ring()[0] == root;
    }

    method Back() returns (e: Element?<T>)
      requires Valid()
      ensures nodes == [] ==> e == null
      ensures nodes != [] ==> e == nodes[|nodes| - 1]
    {
      ghost var ring := Ring();
      assert ring[|ring| - 1] == root && root.prev == ring[|ring| - 2];
      if nodes == [] { assert ring[0] == root; } else { assert ring[|ring| - 2] in nodes; }
      e := if root.prev == root then null else root.prev;
    }
  }
}
