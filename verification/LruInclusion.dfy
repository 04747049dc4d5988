/** The LRU inclusion property: a store of capacity n, run on the same calls and
    the same clock as a store of capacity m >= n, always holds a subsequence of
    what the larger one holds. A bigger cache never turns a hit into a miss,
    even with deletes and lazily expired entries in the run. */
module LruInclusion {
  import opened Wrappers
  import opened LruModel

  /** s is what is left of l after removing some of its elements. */
  ghost predicate Subsequence<T>(s: seq<T>, l: seq<T>) {
    if s == [] then true
    else if l == [] then false
    else if s[0] == l[0] then Subsequence(s[1..], l[1..])
    else Subsequence(s, l[1..])
  }

  lemma {:induction false} SubTail<T>(s: seq<T>, l: seq<T>)
    requires s != [] && Subsequence(s, l)
    ensures Subsequence(s[1..], l)
    decreases |l|, 0
  {
    if s[0] == l[0] {
      SubWeaken(s[1..], l[0], l[1..]);
      assert [l[0]] + l[1..] == l;
    } else {
      SubTail(s, l[1..]);
      SubWeaken(s[1..], l[0], l[1..]);
      assert [l[0]] + l[1..] == l;
    }
  }

  lemma {:induction false} SubWeaken<T>(s: seq<T>, x: T, l: seq<T>)
    requires Subsequence(s, l)
    ensures Subsequence(s, [x] + l)
    decreases |l|, 1
  {
    assert ([x] + l)[1..] == l;
    if s != [] && s[0] == x { SubTail(s, l); }
  }

  lemma {:induction false} SubLength<T>(s: seq<T>, l: seq<T>)
    requires Subsequence(s, l)
    ensures |s| <= |l|
    ensures forall x :: x in s ==> x in l
  {
    if s != [] {
      assert forall x :: x in s <==> x == s[0] || x in s[1..];
      if s[0] == l[0] { SubLength(s[1..], l[1..]); } else { SubLength(s, l[1..]); }
    }
  }

  /** Dropping the last element of both keeps the relation. */
  lemma {:induction false} SubDropLast<T>(s: seq<T>, l: seq<T>)
    requires Subsequence(s, l) && s != []
    ensures l != [] && Subsequence(s[..|s| - 1], l[..|l| - 1])
  {
    var s', l' := s[..|s| - 1], l[..|l| - 1];
    if |s| > 1 {
      if s[0] == l[0] {
        SubDropLast(s[1..], l[1..]);
        assert s'[1..] == s[1..][..|s| - 2] && l'[1..] == l[1..][..|l| - 2];
      } else {
        SubDropLast(s, l[1..]);
        assert l'[1..] == l[1..][..|l| - 2];
      }
    }
  }

  lemma {:induction false} SubShrinkLeft<T>(s: seq<T>, l: seq<T>)
    requires Subsequence(s, l) && s != []
    ensures Subsequence(s[..|s| - 1], l)
  {
    SubDropLast(s, l);
    SubExtendRight(s[..|s| - 1], l[..|l| - 1], l[|l| - 1]);
    assert l[..|l| - 1] + [l[|l| - 1]] == l;
  }

  lemma {:induction false} SubExtendRight<T>(s: seq<T>, l: seq<T>, x: T)
    requires Subsequence(s, l)
    ensures Subsequence(s, l + [x])
  {
    if s != [] {
      assert (l + [x])[1..] == l[1..] + [x];
      if s[0] == l[0] { SubExtendRight(s[1..], l[1..], x); } else { SubExtendRight(s, l[1..], x); }
    }
  }

  /** A key of the smaller list has the same entry in the larger one. */
  lemma SubLookup<V>(s: seq<Entry<V>>, l: seq<Entry<V>>, key: string)
    requires Subsequence(s, l) && DistinctKeys(s) && DistinctKeys(l)
    ensures Lookup(s, key).Some? ==> Lookup(l, key) == Lookup(s, key)
  {
    LookupNone(s, key);
    if Lookup(s, key).Some? {
      SubLength(s, l);
      var i :| 0 <= i < |l| && l[i] == Lookup(s, key).value;
      LookupAt(l, i);
    }
  }

  lemma {:induction false} SubWithout<V>(s: seq<Entry<V>>, l: seq<Entry<V>>, key: string)
    requires Subsequence(s, l) && DistinctKeys(s) && DistinctKeys(l)
    ensures Subsequence(Without(s, key), Without(l, key))
  {
    if s != [] {
      if s[0] == l[0] {
        SubWithout(s[1..], l[1..], key);
      } else if l[0].key == key {
        LookupNone(l[1..], key);
        SubLookup(s, l[1..], key);
        LookupNone(s, key);
      } else {
        SubWithout(s, l[1..], key);
        SubWeaken(Without(s, key), l[0], Without(l[1..], key));
      }
    }
  }

  /** The relation kept by every step: the small store's order is a subsequence
      of the large one's, and the sizes never drift apart by more than the
      capacities do (by at most one when m == n + 1). */
  ghost predicate Included<V>(s: seq<Entry<V>>, n: nat, l: seq<Entry<V>>, m: nat) {
    && Bounded(s, n) && Bounded(l, m)
    && Subsequence(s, l)
    && |l| - |s| <= m - n
  }

  lemma StepKeepsInclusion<V>(s: seq<Entry<V>>, n: nat, l: seq<Entry<V>>, m: nat, op: Op<V>, now: int)
    requires 1 <= n <= m && Included(s, n, l, m)
    ensures Included(Step(s, n, op, now).0, n, Step(l, m, op, now).0, m)
    ensures Step(s, n, op, now).1.Some? ==> Step(l, m, op, now).1 == Step(s, n, op, now).1
  {
    var k := op.key;
    StepKeepsOthers(s, n, op, now, k);
    StepKeepsOthers(l, m, op, now, k);
    SubLookup(s, l, k);
    SubWithout(s, l, k);
    WithoutFacts(s, k, k);
    WithoutFacts(l, k, k);
    LookupNone(s, k);
    LookupNone(l, k);
    if op.Set? {
      SetKeepsInclusion(s, n, l, m, op, now);
    } else if op.Get? && Live(l, k, now) {
      if Lookup(s, k).None? {
        SubWeaken(s, Lookup(l, k).value, Without(l, k));
      } else {
        ConsBoth(Lookup(l, k).value, Without(s, k), Without(l, k));
      }
    }
  }

  lemma ConsBoth<T>(x: T, s: seq<T>, l: seq<T>)
    requires Subsequence(s, l)
    ensures Subsequence([x] + s, [x] + l)
  {
    assert ([x] + s)[1..] == s && ([x] + l)[1..] == l;
  }

  lemma SetKeepsInclusion<V>(s: seq<Entry<V>>, n: nat, l: seq<Entry<V>>, m: nat, op: Op<V>, now: int)
    requires 1 <= n <= m && Included(s, n, l, m) && op.Set?
    ensures Subsequence(Step(s, n, op, now).0, Step(l, m, op, now).0)
    ensures |Step(l, m, op, now).0| - |Step(s, n, op, now).0| <= m - n
  {
    var k, e := op.key, Entry(op.key, op.value, ExpiryAt(now, op.ttl));
    SubLookup(s, l, k);
    SubWithout(s, l, k);
    SubLength(s, l);
    WithoutFacts(s, k, k);
    WithoutFacts(l, k, k);
    LookupNone(s, k);
    var s', l' := Step(s, n, op, now).0, Step(l, m, op, now).0;
    if Lookup(s, k).Some? {
      ConsBoth(e, Without(s, k), Without(l, k));
    } else if Lookup(l, k).Some? {
      // Only the large store has the key: the small one may evict, the large one does not.
      if |s| == n { SubShrinkLeft(s, Without(l, k)); }
      ConsBoth(e, s'[1..], Without(l, k));
    } else if |s| == n {
      if |l| == m { SubDropLast(s, l); } else { SubShrinkLeft(s, l); }
      ConsBoth(e, s'[1..], l'[1..]);
    } else {
      ConsBoth(e, s, l);
    }
  }

  /** LRU inclusion, over whole runs from empty stores. */
  lemma {:induction false} Inclusion<V>(n: nat, m: nat, ops: seq<Op<V>>, clock: seq<int>)
    requires 1 <= n <= m && |ops| == |clock|
    ensures var (s, hits) := RunModel<V>([], n, ops, clock);
            var (l, hits') := RunModel<V>([], m, ops, clock);
            && Included(s, n, l, m)
            && forall i :: 0 <= i < |ops| && hits[i].Some? ==> hits'[i] == hits[i]
  {
    if ops != [] {
      var i := |ops| - 1;
      Inclusion<V>(n, m, ops[..i], clock[..i]);
      var (s, _) := RunModel<V>([], n, ops[..i], clock[..i]);
      var (l, _) := RunModel<V>([], m, ops[..i], clock[..i]);
      StepKeepsInclusion(s, n, l, m, ops[i], clock[i]);
    }
  }
}
