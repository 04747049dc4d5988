/** The recency-ordered sequence that the LRU store stands for: most recently
    used entry first. cache/cache.go keeps it as a linked list plus a map; here
    it is a plain sequence. */
module LruModel {
  import opened Wrappers

  /** expires == None is Go's zero time: the entry never expires. */
  datatype Entry<V> = Entry(key: string, value: V, expires: Option<int>)

  predicate Expired<V>(e: Entry<V>, now: int) {
    e.expires.Some? && now > e.expires.value
  }

  function ExpiryAt(now: int, ttl: int): Option<int> {
    if ttl > 0 then Some(now + ttl) else None
  }

  ghost predicate DistinctKeys<V>(xs: seq<Entry<V>>) {
    forall i, j :: 0 <= i < j < |xs| ==> xs[i].key != xs[j].key
  }

  function Lookup<V>(xs: seq<Entry<V>>, key: string): Option<Entry<V>> {
    if xs == [] then None
    else if xs[0].key == key then Some(xs[0])
    else Lookup(xs[1..], key)
  }

  function Without<V>(xs: seq<Entry<V>>, key: string): (r: seq<Entry<V>>)
  {
    if xs == [] then []
    else if xs[0].key == key then xs[1..]
    else [xs[0]] + Without(xs[1..], key)
  }

  /** A lookup: the new recency order and the value found. An expired entry is
      dropped and reads as absent; a hit moves to the front. */
  function GetStep<V>(xs: seq<Entry<V>>, key: string, now: int): (r: (seq<Entry<V>>, Option<V>))
  {
    match Lookup(xs, key)
    case None => (xs, None)
    case Some(e) =>
      if Expired(e, now) then (Without(xs, key), None)
      else ([e] + Without(xs, key), Some(e.value))
  }

  /** A store: the key moves to the front; a new key drops the last entry of a
      full store. */
  function SetStep<V>(xs: seq<Entry<V>>, capacity: nat, key: string, value: V, now: int, ttl: int): (r: seq<Entry<V>>)
  {
    var e := Entry(key, value, ExpiryAt(now, ttl));
    if Lookup(xs, key).Some? then [e] + Without(xs, key)
    else if |xs| >= capacity && |xs| > 0 then [e] + xs[..|xs| - 1]
    else [e] + xs
  }

  datatype Op<V> =
    | Get(key: string)
    | Set(key: string, value: V, ttl: int)
    | Delete(key: string)

  /** One operation at one clock reading; the second component is what a Get returns. */
  function Step<V>(xs: seq<Entry<V>>, capacity: nat, op: Op<V>, now: int): (seq<Entry<V>>, Option<V>)
  {
    match op
    case Get(k) => GetStep(xs, k, now)
    case Set(k, v, ttl) => (SetStep(xs, capacity, k, v, now, ttl), None)
    case Delete(k) => (Without(xs, k), None)
  }

  /** A run: the order it ends in and what each operation returned. */
  function RunModel<V>(xs: seq<Entry<V>>, capacity: nat, ops: seq<Op<V>>,
      clock: seq<int>): (r: (seq<Entry<V>>, seq<Option<V>>))
    requires |ops| == |clock|
    ensures |r.1| == |ops|
  {
    if ops == [] then (xs, []) else
    var n := |ops| - 1;
    var (ys, answers) := RunModel(xs, capacity, ops[..n], clock[..n]);
    var (zs, answer) := Step(ys, capacity, ops[n], clock[n]);
    (zs, answers + [answer])
  }

  // ----- lookups against positions -----

  lemma {:induction false} LookupAt<V>(xs: seq<Entry<V>>, i: nat)
    requires DistinctKeys(xs) && i < |xs|
    ensures Lookup(xs, xs[i].key) == Some(xs[i])
    ensures Without(xs, xs[i].key) == xs[..i] + xs[i + 1..]
  {
    if i > 0 {
      assert xs[0].key != xs[i].key;
      LookupAt(xs[1..], i - 1);
    }
  }

  lemma {:induction false} LookupNone<V>(xs: seq<Entry<V>>, key: string)
    ensures Lookup(xs, key).None? <==> forall i :: 0 <= i < |xs| ==> xs[i].key != key
    ensures Lookup(xs, key).None? ==> Without(xs, key) == xs
    ensures Lookup(xs, key).Some? ==> Lookup(xs, key).value in xs && Lookup(xs, key).value.key == key
  {
    if xs != [] && xs[0].key != key {
      LookupNone(xs[1..], key);
      assert forall i :: 0 <= i < |xs| ==> xs[i] == if i == 0 then xs[0] else xs[1..][i - 1];
    }
  }

  lemma {:induction false} WithoutEntries<V>(xs: seq<Entry<V>>, key: string)
    requires DistinctKeys(xs)
    ensures forall e :: e in Without(xs, key) ==> e in xs && e.key != key
  {
    if xs == [] {
    } else if xs[0].key == key {
      LookupNone(xs[1..], key);
      assert forall e :: e in xs[1..] ==> e in xs;
    } else {
      WithoutEntries(xs[1..], key);
      assert forall e :: e in xs[1..] ==> e in xs;
    }
  }

  lemma {:induction false} WithoutDistinct<V>(xs: seq<Entry<V>>, key: string)
    requires DistinctKeys(xs)
    ensures DistinctKeys(Without(xs, key))
  {
    if xs != [] && xs[0].key != key {
      WithoutDistinct(xs[1..], key);
      WithoutEntries(xs[1..], key);
      var ys := Without(xs[1..], key);
      forall j | 0 <= j < |ys| ensures ys[j].key != xs[0].key {
        assert ys[j] in ys;
        assert ys[j] in xs[1..];
      }
    }
  }

  lemma {:induction false} WithoutLookup<V>(xs: seq<Entry<V>>, key: string, k: string)
    requires DistinctKeys(xs)
    ensures Lookup(Without(xs, key), k) == if k == key then None else Lookup(xs, k)
    ensures |Without(xs, key)| == |xs| - (if Lookup(xs, key).Some? then 1 else 0)
  {
    if xs == [] {
    } else if xs[0].key == key {
      if k == key { LookupNone(xs[1..], key); }
    } else {
      WithoutLookup(xs[1..], key, k);
      assert Without(xs, key)[1..] == Without(xs[1..], key);
    }
  }

  lemma WithoutFacts<V>(xs: seq<Entry<V>>, key: string, k: string)
    requires DistinctKeys(xs)
    ensures Lookup(Without(xs, key), k) == if k == key then None else Lookup(xs, k)
    ensures DistinctKeys(Without(xs, key))
    ensures |Without(xs, key)| == |xs| - (if Lookup(xs, key).Some? then 1 else 0)
    ensures forall e :: e in Without(xs, key) ==> e in xs && e.key != key
  {
    WithoutEntries(xs, key);
    WithoutDistinct(xs, key);
    WithoutLookup(xs, key, k);
  }

  /** The key is present and has not passed its expiry. */
  predicate Live<V>(xs: seq<Entry<V>>, key: string, now: int) {
    Lookup(xs, key).Some? && !Expired(Lookup(xs, key).value, now)
  }

  // ----- the bounded recency order, over every operation -----

  ghost predicate Bounded<V>(xs: seq<Entry<V>>, capacity: nat) {
    DistinctKeys(xs) && |xs| <= capacity
  }

  lemma PushFront<V>(e: Entry<V>, ys: seq<Entry<V>>, k: string)
    requires DistinctKeys(ys) && Lookup(ys, e.key).None?
    ensures DistinctKeys([e] + ys)
    ensures Lookup([e] + ys, k) == if k == e.key then Some(e) else Lookup(ys, k)
  {
    LookupNone(ys, e.key);
    assert ([e] + ys)[1..] == ys;
  }

  lemma DropLast<V>(xs: seq<Entry<V>>, k: string)
    requires DistinctKeys(xs) && xs != []
    ensures xs[..|xs| - 1] == Without(xs, xs[|xs| - 1].key)
    ensures DistinctKeys(xs[..|xs| - 1])
    ensures Lookup(xs[..|xs| - 1], k) == if k == xs[|xs| - 1].key then None else Lookup(xs, k)
  {
    LookupAt(xs, |xs| - 1);
    assert xs[..|xs| - 1] + xs[|xs|..] == xs[..|xs| - 1];
    WithoutFacts(xs, xs[|xs| - 1].key, k);
  }

  lemma SetKeepsOthers<V>(xs: seq<Entry<V>>, capacity: nat, e: Entry<V>, k: string)
    requires capacity >= 1 && Bounded(xs, capacity)
    ensures var known := Lookup(xs, e.key).Some?;
            var ys := if known then [e] + Without(xs, e.key)
              else if |xs| == capacity then [e] + xs[..capacity - 1] else [e] + xs;
            && Bounded(ys, capacity)
            && (k != e.key ==>
                  Lookup(ys, k) ==
                  if !known && |xs| == capacity && k == xs[capacity - 1].key then None else Lookup(xs, k))
  {
    WithoutFacts(xs, e.key, k);
    if Lookup(xs, e.key).Some? {
      WithoutLookup(xs, e.key, e.key);
      PushFront(e, Without(xs, e.key), k);
    } else if |xs| == capacity {
      DropLast(xs, k);
      DropLast(xs, e.key);
      PushFront(e, xs[..|xs| - 1], k);
    } else {
      PushFront(e, xs, k);
    }
  }

  /** Every operation keeps the keys distinct and the size within the capacity,
      and leaves the entry of any other key alone, unless a new key arrives at
      a full store and the other key is the least recently used. */
  lemma StepKeepsOthers<V>(xs: seq<Entry<V>>, capacity: nat, op: Op<V>, now: int, k: string)
    requires capacity >= 1 && Bounded(xs, capacity)
    ensures Bounded(Step(xs, capacity, op, now).0, capacity)
    ensures var ys := Step(xs, capacity, op, now).0;
            k != op.key ==>
              Lookup(ys, k) ==
                if op.Set? && Lookup(xs, op.key).None? && |xs| == capacity && k == xs[capacity - 1].key
                then None else Lookup(xs, k)
  {
    match op
    case Set(key, value, ttl) =>
      SetKeepsOthers(xs, capacity, Entry(key, value, ExpiryAt(now, ttl)), k);
    case Delete(key) =>
      WithoutFacts(xs, key, k);
    case Get(key) =>
      WithoutFacts(xs, key, k);
      if Live(xs, key, now) {
        WithoutLookup(xs, key, key);
        LookupNone(xs, key);
        PushFront(Lookup(xs, key).value, Without(xs, key), k);
      }
  }

  /** What an operation on a key leaves for that key itself. */
  lemma StepOwnKey<V>(xs: seq<Entry<V>>, capacity: nat, op: Op<V>, now: int)
    requires capacity >= 1 && Bounded(xs, capacity)
    ensures var ys := Step(xs, capacity, op, now).0;
            op.Set? ==>
              && ys != [] && ys[0] == Entry(op.key, op.value, ExpiryAt(now, op.ttl))
              && Lookup(ys, op.key) == Some(ys[0])
    ensures op.Delete? ==> Lookup(Step(xs, capacity, op, now).0, op.key) == None
    ensures op.Get? && Live(xs, op.key, now) ==>
              var (ys, out) := Step(xs, capacity, op, now);
              && Lookup(ys, op.key) == Lookup(xs, op.key) && ys[0].key == op.key
              && out == Some(Lookup(xs, op.key).value.value)
    ensures op.Get? && !Live(xs, op.key, now) ==>
              var (ys, out) := Step(xs, capacity, op, now);
              Lookup(ys, op.key) == None && out == None
  {
    WithoutFacts(xs, op.key, op.key);
    LookupNone(xs, op.key);
  }

  /** The entries of all other keys, in order. */
  function Others<V>(xs: seq<Entry<V>>, key: string): seq<Entry<V>> {
    if xs == [] then []
    else (if xs[0].key == key then [] else [xs[0]]) + Others(xs[1..], key)
  }

  lemma {:induction false} OthersWithout<V>(xs: seq<Entry<V>>, key: string)
    ensures Others(Without(xs, key), key) == Others(xs, key)
  {
    if xs != [] && xs[0].key != key {
      OthersWithout(xs[1..], key);
      assert ([xs[0]] + Without(xs[1..], key))[1..] == Without(xs[1..], key);
    }
  }

  lemma {:induction false} AllOthers<V>(xs: seq<Entry<V>>, key: string)
    requires Lookup(xs, key).None?
    ensures Others(xs, key) == xs
  {
    if xs != [] { AllOthers(xs[1..], key); }
  }

  lemma OthersBehind<V>(e: Entry<V>, xs: seq<Entry<V>>)
    ensures Others([e] + xs, e.key) == Others(xs, e.key)
  {
    assert ([e] + xs)[1..] == xs;
  }

  lemma SetKeepsOrder<V>(xs: seq<Entry<V>>, capacity: nat, key: string, value: V, now: int, ttl: int)
    requires capacity >= 1 && Bounded(xs, capacity)
    ensures Others(SetStep(xs, capacity, key, value, now, ttl), key) ==
            if Lookup(xs, key).None? && |xs| == capacity then xs[..capacity - 1] else Others(xs, key)
  {
    var e := Entry(key, value, ExpiryAt(now, ttl));
    if Lookup(xs, e.key).Some? {
      OthersBehind(e, Without(xs, e.key));
      OthersWithout(xs, e.key);
    } else if |xs| == capacity {
      DropLast(xs, e.key);
      AllOthers(xs[..capacity - 1], e.key);
      OthersBehind(e, xs[..capacity - 1]);
    } else {
      OthersBehind(e, xs);
    }
  }

  lemma GetKeepsOrder<V>(xs: seq<Entry<V>>, key: string, now: int)
    ensures Others(GetStep(xs, key, now).0, key) == Others(xs, key)
  {
    OthersWithout(xs, key);
    LookupNone(xs, key);
    if Lookup(xs, key).Some? {
      OthersBehind(Lookup(xs, key).value, Without(xs, key));
    }
  }

  /** Whatever is done to one key, the other entries keep their order; only a new
      key at a full store drops the last of them. */
  lemma StepKeepsOrder<V>(xs: seq<Entry<V>>, capacity: nat, op: Op<V>, now: int)
    requires capacity >= 1 && Bounded(xs, capacity)
    ensures Others(Step(xs, capacity, op, now).0, op.key) ==
            if op.Set? && Lookup(xs, op.key).None? && |xs| == capacity then xs[..capacity - 1] else Others(xs, op.key)
  {
    match op
    case Get(key) => GetKeepsOrder(xs, key, now);
    case Set(key, value, ttl) => SetKeepsOrder(xs, capacity, key, value, now, ttl);
    case Delete(key) => OthersWithout(xs, key);
  }

  /** A value can be had until its time is up, and for good without a time. */
  lemma SetThenGet<V>(xs: seq<Entry<V>>, capacity: nat, key: string, value: V, ttl: int, now: int, later: int)
    requires capacity >= 1 && Bounded(xs, capacity)
    ensures var ys := Step(xs, capacity, Set(key, value, ttl), now).0;
            Step(ys, capacity, Get(key), later).1 == if ttl <= 0 || later <= now + ttl then Some(value) else None
  {
    StepOwnKey(xs, capacity, Set(key, value, ttl), now);
  }
}
