/** What both request limiters keep: timestamps filtered by a cutoff, and counts
    of admissions in half-open intervals. */
module SlidingWindow {
  import opened Wrappers

  /** The timestamps after the cutoff, in order. */
  function Live(stamps: seq<int>, cutoff: int): (r: seq<int>) {
    if stamps == [] then []
    else Live(stamps[..|stamps| - 1], cutoff) + (if stamps[|stamps| - 1] > cutoff then [stamps[|stamps| - 1]] else [])
  }

  /** An earlier cutoff drops nothing that a later one keeps. */
  lemma {:induction false} LiveTwice(a: seq<int>, c: int, d: int)
    requires c <= d
    ensures Live(Live(a, c), d) == Live(a, d)
  {
    if a != [] {
      var init, last := a[..|a| - 1], a[|a| - 1];
      LiveTwice(init, c, d);
      assert last <= c ==> Live(a, c) == Live(init, c);
    }
  }

  lemma {:induction false} LiveNone(stamps: seq<int>, c: int)
    requires forall i :: 0 <= i < |stamps| ==> stamps[i] <= c
    ensures Live(stamps, c) == []
  {
    if stamps != [] { LiveNone(stamps[..|stamps| - 1], c); }
  }

  lemma {:induction false} LiveAll(stamps: seq<int>, c: int)
    requires forall i :: 0 <= i < |stamps| ==> stamps[i] > c
    ensures Live(stamps, c) == stamps
  {
    if stamps != [] { LiveAll(stamps[..|stamps| - 1], c); }
  }

  lemma {:induction false} LiveBelow(stamps: seq<int>, c: int, top: int)
    requires forall i :: 0 <= i < |stamps| ==> stamps[i] <= top
    ensures forall i :: 0 <= i < |Live(stamps, c)| ==> Live(stamps, c)[i] <= top
  {
    if stamps != [] { LiveBelow(stamps[..|stamps| - 1], c, top); }
  }

  lemma {:induction false} LiveShorter(stamps: seq<int>, c: int)
    ensures |Live(stamps, c)| <= |stamps|
  {
    if stamps != [] { LiveShorter(stamps[..|stamps| - 1], c); }
  }

  // ----- a run of one caller: each admission leaves its timestamp as a mark -----

  type Marks = seq<Option<int>>

  /** How many of the first n marks lie in (lo, hi]. */
  function Count(marks: Marks, n: nat, lo: int, hi: int): nat
    requires n <= |marks|
  {
    if n == 0 then 0
    else Count(marks, n - 1, lo, hi) + (if marks[n - 1].Some? && lo < marks[n - 1].value <= hi then 1 else 0)
  }

  lemma {:induction false} CountMonotone(marks: Marks, n: nat, lo: int, hi: int, lo2: int, hi2: int)
    requires n <= |marks|
    requires forall j :: 0 <= j < n && marks[j].Some? && lo < marks[j].value <= hi ==> lo2 < marks[j].value <= hi2
    ensures Count(marks, n, lo, hi) <= Count(marks, n, lo2, hi2)
  {
    if n > 0 { CountMonotone(marks, n - 1, lo, hi, lo2, hi2); }
  }

  lemma {:induction false} CountNone(marks: Marks, n: nat, lo: int, hi: int)
    requires n <= |marks| && forall j :: 0 <= j < n && marks[j].Some? ==> marks[j].value <= lo
    ensures Count(marks, n, lo, hi) == 0
  {
    if n > 0 { CountNone(marks, n - 1, lo, hi); }
  }

  function Added(mark: Option<int>, lo: int): seq<int> {
    if mark.Some? && mark.value > lo then [mark.value] else []
  }

  predicate GrowsAt(marks: Marks, lists: seq<seq<int>>, j: nat, lo: int)
    requires j < |marks| && j + 1 < |lists|
  {
    lists[j + 1] == lists[j] + Added(marks[j], lo)
  }

  /** A list that grows by every mark after lo is as long as their count. */
  lemma {:induction false} LengthCounts(marks: Marks, lists: seq<seq<int>>, n: nat, lo: int, hi: int)
    requires n <= |marks| && n < |lists| && lists[0] == []
    requires forall j :: 0 <= j < n ==> marks[j].Some? ==> marks[j].value <= hi
    requires forall j :: 0 <= j < n ==> GrowsAt(marks, lists, j, lo)
    ensures |lists[n]| == Count(marks, n, lo, hi)
  {
    if n > 0 {
      LengthCounts(marks, lists, n - 1, lo, hi);
      assert GrowsAt(marks, lists, n - 1, lo);
    }
  }

  ghost predicate Ordered(marks: Marks) {
    forall i, j :: 0 <= i < j < |marks| && marks[i].Some? && marks[j].Some? ==> marks[i].value <= marks[j].value
  }

  /** The i-th mark, if made, found fewer than limit in the window that ends with it. */
  predicate FoundRoom(marks: Marks, limit: nat, width: nat, i: nat)
    requires i < |marks|
  {
    marks[i].Some? ==> Count(marks, i, marks[i].value - width, marks[i].value) < limit
  }

  /** If every admission found room in the window before it, no half-open interval
      of that width holds more than limit. */
  lemma {:induction false} SlidingBound(marks: Marks, limit: nat, width: nat, n: nat, lo: int)
    requires n <= |marks| && Ordered(marks)
    requires forall i :: 0 <= i < n ==> FoundRoom(marks, limit, width, i)
    ensures Count(marks, n, lo, lo + width) <= limit
  {
    if n > 0 {
      SlidingBound(marks, limit, width, n - 1, lo);
      if marks[n - 1].Some? && lo < marks[n - 1].value <= lo + width {
        assert FoundRoom(marks, limit, width, n - 1);
        CountMonotone(marks, n - 1, lo, lo + width, marks[n - 1].value - width, marks[n - 1].value);
      }
    }
  }
}
