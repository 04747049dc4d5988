/** The in-process LRU cache (cache/cache.go): a linked list of entries plus a
    map from key to list node, changed in place. Every method is proved against
    the recency-ordered sequence of LruModel. The clock reading of each call is
    a parameter. */
module LruStore {
  import opened Wrappers
  import opened LinkedList
  import M = LruModel

  const DEFAULT_MAX_ITEMS := 1024

  /** A non-positive size selects the default. */
  function Capacity(max: int): (n: nat)
    ensures n >= 1
  {
    if max <= 0 then DEFAULT_MAX_ITEMS else max
  }

  /** Map and list are in bijection: position i of the list holds the node that
      the map gives for the key of entry i, and the map has no other key. */
  ghost predicate Indexed<N, V>(items: map<string, N>, nodes: seq<N>, xs: seq<M.Entry<V>>)
  {
    && |nodes| == |xs|
    && M.DistinctKeys(xs)
    && (forall i :: 0 <= i < |xs| ==> xs[i].key in items && items[xs[i].key] == nodes[i])
    && (forall k :: k in items ==> M.Lookup(xs, k).Some?)
  }

  lemma Position<N, V>(items: map<string, N>, nodes: seq<N>, xs: seq<M.Entry<V>>, key: string) returns (i: nat)
    requires Indexed(items, nodes, xs)
    ensures key in items <==> M.Lookup(xs, key).Some?
    ensures key !in items ==> M.Without(xs, key) == xs
    ensures key in items ==>
              && i < |xs| && xs[i].key == key && nodes[i] == items[key]
              && M.Lookup(xs, key) == Some(xs[i])
              && M.Without(xs, key) == xs[..i] + xs[i + 1..]
  {
    M.LookupNone(xs, key);
    i := 0;
    if key in items {
      i :| 0 <= i < |xs| && xs[i].key == key;
      M.LookupAt(xs, i);
    }
  }

  lemma IndexedCut<N, V>(items: map<string, N>, nodes: seq<N>, xs: seq<M.Entry<V>>, i: nat)
    requires Indexed(items, nodes, xs) && i < |xs|
    ensures Indexed(items - {xs[i].key}, nodes[..i] + nodes[i + 1..], xs[..i] + xs[i + 1..])
  {
    M.LookupAt(xs, i);
    forall k { M.WithoutFacts(xs, xs[i].key, k); }
  }

  lemma IndexedPush<N, V>(items: map<string, N>, nodes: seq<N>, xs: seq<M.Entry<V>>, n: N, e: M.Entry<V>)
    requires Indexed(items, nodes, xs) && M.Lookup(xs, e.key).None?
    ensures Indexed(items[e.key := n], [n] + nodes, [e] + xs)
  {
    M.LookupNone(xs, e.key);
    forall k { M.PushFront(e, xs, k); }
  }

  /** The map holds as many keys as the list has nodes. */
  lemma {:induction false} SameSize<N, V>(items: map<string, N>, nodes: seq<N>, xs: seq<M.Entry<V>>)
    requires Indexed(items, nodes, xs)
    ensures |items| == |xs|
  {
    if xs == [] {
      assert items.Keys == {};
    } else {
      IndexedCut(items, nodes, xs, 0);
      assert nodes[..0] + nodes[1..] == nodes[1..] && xs[..0] + xs[1..] == xs[1..];
      var k := xs[0].key;
      SameSize(items - {k}, nodes[1..], xs[1..]);
      assert items.Keys == (items - {k}).Keys + {k};
    }
  }

  class Store<V> {
    const maxItems: nat
    const order: List<M.Entry<V>>
    var items: map<string, Element<M.Entry<V>>>

    ghost predicate Valid()
      reads this, order, order.owned
    {
      && maxItems >= 1
      && order.Valid()
      && |order.nodes| <= maxItems
      && Indexed(items, order.nodes, order.Contents())
    }

    /** The recency-ordered sequence this store stands for. */
    ghost function Recency(): (xs: seq<M.Entry<V>>)
      reads this, order, order.owned
      requires Valid()
      ensures M.Bounded(xs, maxItems)
    {
      order.Contents()
    }

    constructor (max: int)
      ensures Valid() && Recency() == []
      ensures maxItems == Capacity(max)
      ensures fresh(order) && fresh(order.owned)
    {
      maxItems := Capacity(max);
      order := new List();
      items := map[];
    }

    /** el is the i-th node of the list. */
    method RemoveElement(el: Element<M.Entry<V>>, ghost i: nat)
      requires Valid() && i < |order.nodes| && order.nodes[i] == el
      modifies `items, order`nodes, order`owned, order.owned
      ensures Valid()
      ensures Recency() == M.Without(old(Recency()), old(el.value.value.key))
      ensures order.owned == old(order.owned)
    {
      ghost var xs, nodes := Recency(), order.nodes;
      M.LookupAt(xs, i);
      IndexedCut(items, nodes, xs, i);
      items := items - {el.value.value.key};
      order.Remove(el, i);
      assert order.nodes == nodes[..i] + nodes[i + 1..] && order.Contents() == xs[..i] + xs[i + 1..];
    }

    method EvictLRU()
      requires Valid()
      modifies `items, order`nodes, order`owned, order.owned
      ensures Valid()
      ensures Recency() == if old(Recency()) == [] then [] else old(Recency())[..|old(Recency())| - 1]
      ensures order.owned == old(order.owned)
    {
      var back := order.Back();
      if back != null {
        ghost var xs := Recency();
        ghost var last := xs[|xs| - 1];
        M.DropLast(xs, last.key);
        assert back.value.value == last;
        RemoveElement(back, |order.nodes| - 1);
      }
    }

    method Get(key: string, now: int) returns (val: Option<V>)
      requires Valid()
      modifies `items, order`nodes, order`owned, order.owned
      ensures Valid()
      ensures (Recency(), val) == M.GetStep(old(Recency()), key, now)
      ensures fresh(order.owned - old(order.owned))
    {
      ghost var xs := Recency();
      ghost var i := Position(items, order.nodes, xs, key);
      if key !in items {
        return None;
      }
      var el := items[key];
      if M.Expired(el.value.value, now) {
        RemoveElement(el, i);
        return None;
      }
      val := Some(el.value.value.value);
      IndexedCut(items, order.nodes, xs, i);
      M.WithoutFacts(xs, key, key);
      IndexedPush(items - {key}, order.nodes[..i] + order.nodes[i + 1..], M.Without(xs, key), el, xs[i]);
      assert (items - {key})[key := el] == items;
      order.MoveToFront(el, i);
    }

    /** Updates an existing key in place and refreshes its recency. */
    method Overwrite(key: string, e: M.Entry<V>)
      requires Valid() && key in items && e.key == key
      modifies `items, order`nodes, order`owned, order.owned
      ensures Valid()
      ensures Recency() == [e] + M.Without(old(Recency()), key)
      ensures fresh(order.owned - old(order.owned))
    {
      ghost var xs := Recency();
      ghost var i := Position(items, order.nodes, xs, key);
      var el := items[key];
      IndexedCut(items, order.nodes, xs, i);
      M.WithoutFacts(xs, key, key);
      IndexedPush(items - {key}, order.nodes[..i] + order.nodes[i + 1..], M.Without(xs, key), el, e);
      assert (items - {key})[key := el] == items;
      order.Replace(el, i, e);
      order.MoveToFront(el, i);
    }

    /** Pushes an entry under a key the map does not hold, when there is room. */
    method Insert(key: string, e: M.Entry<V>)
      requires Valid() && e.key == key && |order.nodes| < maxItems && M.Lookup(Recency(), key).None?
      modifies `items, order`nodes, order`owned, order.owned
      ensures Valid()
      ensures Recency() == [e] + old(Recency())
      ensures fresh(order.owned - old(order.owned))
    {
      ghost var xs, nodes := Recency(), order.nodes;
      var el := order.PushFront(e);
      IndexedPush(items, nodes, xs, el, e);
      items := items[key := el];
      assert order.nodes == [el] + nodes && order.Contents() == [e] + xs;
    }

    /** Evicts before a new key goes into a full store. */
    method MakeRoom(key: string)
      requires Valid() && M.Lookup(Recency(), key).None?
      modifies `items, order`nodes, order`owned, order.owned
      ensures Valid() && |order.nodes| < maxItems
      ensures var xs := old(Recency()); Recency() == if |xs| >= maxItems then xs[..|xs| - 1] else xs
      ensures M.Lookup(Recency(), key).None?
      ensures order.owned == old(order.owned)
    {
      ghost var xs := Recency();
      SameSize(items, order.nodes, xs);
      if |items| >= maxItems {
        M.DropLast(xs, key);
        EvictLRU();
      }
    }

    method Set(key: string, value: V, ttl: int, now: int)
      requires Valid()
      modifies `items, order`nodes, order`owned, order.owned
      ensures Valid()
      ensures Recency() == M.SetStep(old(Recency()), maxItems, key, value, now, ttl)
      ensures fresh(order.owned - old(order.owned))
    {
      ghost var xs := Recency();
      ghost var _ := Position(items, order.nodes, xs, key);
      var e := M.Entry(key, value, M.ExpiryAt(now, ttl));
      if key in items {
        Overwrite(key, e);
        return;
      }
      MakeRoom(key);
      Insert(key, e);
    }

    method Delete(key: string)
      requires Valid()
      modifies `items, order`nodes, order`owned, order.owned
      ensures Valid()
      ensures Recency() == M.Without(old(Recency()), key)
      ensures fresh(order.owned - old(order.owned))
    {
      ghost var i := Position(items, order.nodes, Recency(), key);
      if key in items {
        RemoveElement(items[key], i);
      }
    }

    method Apply(op: M.Op<V>, now: int) returns (answer: Option<V>)
      requires Valid()
      modifies `items, order`nodes, order`owned, order.owned
      ensures Valid()
      ensures (Recency(), answer) == M.Step(old(Recency()), maxItems, op, now)
      ensures fresh(order.owned - old(order.owned))
    {
      answer := None;
      match op {
        case Get(k) => answer := Get(k, now);
        case Set(k, v, ttl) => Set(k, v, ttl, now);
        case Delete(k) => Delete(k);
      }
    }

    /** Any sequence of calls at any clock readings: the store goes through the
        same recency orders as the model, and answers every Get as it does. */
    method Run(ops: seq<M.Op<V>>, clock: seq<int>) returns (answers: seq<Option<V>>)
      requires Valid() && |clock| == |ops|
      modifies `items, order`nodes, order`owned, order.owned
      ensures Valid()
      ensures (Recency(), answers) == M.RunModel(old(Recency()), maxItems, ops, clock)
    {
      answers := [];
      ghost var start := Recency();
      for i := 0 to |ops|
        invariant Valid()
        invariant fresh(order.owned - old(order.owned))
        invariant (Recency(), answers) == M.RunModel(start, maxItems, ops[..i], clock[..i])
      {
        assert ops[..i + 1][..i] == ops[..i] && clock[..i + 1][..i] == clock[..i];
        var answer := Apply(ops[i], clock[i]);
        answers := answers + [answer];
      }
      assert ops[..|ops|] == ops && clock[..|ops|] == clock;
    }
  }
}
