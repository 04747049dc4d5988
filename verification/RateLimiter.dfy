/** The request limiter of the HTTP API (api/middleware/ratelimit.go): one window
    of timestamps per caller, compacted in place under a lock. */
module RateLimiter {
  import opened Wrappers
  import opened SlidingWindow

  const DEFAULT_LIMIT := 1000
  const DEFAULT_WINDOW := 60_000_000_000  // one minute in nanoseconds

  /** One request of a caller at one clock reading: what is kept of the caller's
      timestamps, and whether the request goes through. */
  function Step(stamps: seq<int>, now: int, limit: nat, window: nat): (seq<int>, bool) {
    var kept := Live(stamps, now - window);
    if |kept| >= limit then (kept, false) else (kept + [now], true)
  }

  /** A Go slice: the first len cells of a buffer. */
  datatype Slice = Slice(buffer: array<int>, len: nat)

  class Limiter {
    const limit: nat
    const window: nat
    var requests: map<string, Slice>
    ghost var buffers: set<object>

    ghost predicate Valid()
      reads this
    {
      && limit > 0 && window > 0
      && (forall k :: k in requests ==> requests[k].len <= requests[k].buffer.Length && requests[k].buffer in buffers)
      && (forall k, l :: k in requests && l in requests && k != l ==> requests[k].buffer != requests[l].buffer)
    }

    ghost function Stamps(key: string): seq<int>
      requires Valid()
      reads this, buffers
    {
      if key in requests then requests[key].buffer[..requests[key].len] else []
    }

    constructor (limit: int, window: int)
      ensures Valid() && requests == map[] && buffers == {}
      ensures this.limit == (if limit <= 0 then DEFAULT_LIMIT else limit)
      ensures this.window == (if window <= 0 then DEFAULT_WINDOW else window)
    {
      this.limit := if limit <= 0 then DEFAULT_LIMIT else limit;
      this.window := if window <= 0 then DEFAULT_WINDOW else window;
      requests, buffers := map[], {};
    }

    /** Moves the timestamps after the cutoff to the front of the same buffer. */
    static method Compact(buffer: array<int>, len: nat, cutoff: int) returns (kept: nat)
      requires len <= buffer.Length
      modifies buffer
      ensures kept <= len && buffer[..kept] == Live(old(buffer[..len]), cutoff)
    {
      ghost var was := buffer[..];
      kept := 0;
      for i := 0 to len
        invariant kept <= i && forall j :: i <= j < len ==> buffer[j] == was[j]
        invariant buffer[..kept] == Live(was[..i], cutoff)
      {
        assert was[..i + 1][..i] == was[..i];
        if buffer[i] > cutoff {
          buffer[kept] := buffer[i];
          kept := kept + 1;
        }
      }
      assert was[..len] == old(buffer[..len]);
    }

    /** Appending in place while the buffer has room, else in a larger copy. */
    static method Append(s: Slice, t: int) returns (r: Slice)
      requires s.len <= s.buffer.Length
      modifies s.buffer
      ensures r.len == s.len + 1 <= r.buffer.Length && (r.buffer == s.buffer || fresh(r.buffer))
      ensures r.buffer[..r.len] == old(s.buffer[..s.len]) + [t]
    {
      if s.len < s.buffer.Length {
        s.buffer[s.len] := t;
        return Slice(s.buffer, s.len + 1);
      }
      var larger := new int[2 * s.len + 1];
      for i := 0 to s.len
        invariant larger[..i] == s.buffer[..i] == old(s.buffer[..i])
        modifies larger
      {
        larger[i] := s.buffer[i];
      }
      larger[s.len] := t;
      return Slice(larger, s.len + 1);
    }

    /** The caller's slice; Go's nil slice for a caller not seen yet. */
    method Lookup(key: string) returns (slice: Slice)
      requires Valid()
      ensures slice.len <= slice.buffer.Length && slice.buffer[..slice.len] == Stamps(key)
      ensures if key in requests then slice == requests[key] else fresh(slice.buffer) && slice.len == 0
    {
      if key in requests {
        return requests[key];
      }
      var empty := new int[0];
      return Slice(empty, 0);
    }

    method Put(key: string, slice: Slice)
      requires Valid() && slice.len <= slice.buffer.Length
      requires forall k :: k in requests && k != key ==> requests[k].buffer != slice.buffer
      modifies this
      ensures Valid() && buffers == old(buffers) + {slice.buffer}
      ensures Stamps(key) == slice.buffer[..slice.len]
      ensures forall k :: k != key ==> Stamps(k) == old(Stamps(k))
    {
      requests := requests[key := slice];
      buffers := buffers + {slice.buffer};
    }

    /** One request: only the caller's own window changes. */
    method Admit(key: string, now: int) returns (admitted: bool)
      requires Valid()
      modifies this, buffers
      ensures Valid() && fresh(buffers - old(buffers))
      ensures (Stamps(key), admitted) == Step(old(Stamps(key)), now, limit, window)
      ensures forall k :: k != key ==> Stamps(k) == old(Stamps(k))
    {
      var slice := Lookup(key);
      var kept := Compact(slice.buffer, slice.len, now - window);
      slice := Slice(slice.buffer, kept);
      admitted := kept < limit;
      if admitted {
        slice := Append(slice, now);
      }
      Put(key, slice);
    }
  }

  // ----- runs over all callers -----

  /** Requests in the order they take the lock. */
  datatype Request = Request(key: string, now: int)

  /** The timestamps kept for a caller after the first n requests. */
  function Kept(limit: nat, window: nat, reqs: seq<Request>, n: nat, key: string): seq<int>
    requires n <= |reqs|
  {
    if n == 0 then []
    else if reqs[n - 1].key == key then Step(Kept(limit, window, reqs, n - 1, key), reqs[n - 1].now, limit, window).0
    else Kept(limit, window, reqs, n - 1, key)
  }

  predicate Admitted(limit: nat, window: nat, reqs: seq<Request>, i: nat)
    requires i < |reqs|
  {
    Step(Kept(limit, window, reqs, i, reqs[i].key), reqs[i].now, limit, window).1
  }

  /** The requests of a caller are stamped in the order they take the lock. */
  ghost predicate ClockOrder(reqs: seq<Request>) {
    forall i, j :: 0 <= i < j < |reqs| && reqs[i].key == reqs[j].key ==> reqs[i].now <= reqs[j].now
  }

  function Mark(limit: nat, window: nat, reqs: seq<Request>, key: string, i: nat): Option<int>
    requires i < |reqs|
  {
    if reqs[i].key == key && Admitted(limit, window, reqs, i) then Some(reqs[i].now) else None
  }

  predicate MarkedAt(limit: nat, window: nat, reqs: seq<Request>, key: string, marks: Marks, i: nat)
    requires i < |reqs| == |marks|
  {
    marks[i] == Mark(limit, window, reqs, key, i)
  }

  /** The admitted requests of a caller, marked with their timestamps. */
  ghost predicate Admissions(limit: nat, window: nat, reqs: seq<Request>, key: string, marks: Marks)
  {
    |reqs| == |marks| && forall i :: 0 <= i < |reqs| ==> MarkedAt(limit, window, reqs, key, marks, i)
  }

  /** Serving requests one after another behaves as the run above. */
  method Serve(limit: int, window: int, reqs: seq<Request>) returns (limiter: Limiter, verdicts: seq<bool>)
    ensures fresh(limiter) && limiter.Valid() && |verdicts| == |reqs|
    ensures forall i :: 0 <= i < |reqs| ==> verdicts[i] == Admitted(limiter.limit, limiter.window, reqs, i)
    ensures forall k :: limiter.Stamps(k) == Kept(limiter.limit, limiter.window, reqs, |reqs|, k)
  {
    limiter := new Limiter(limit, window);
    verdicts := [];
    for i := 0 to |reqs|
      invariant limiter.Valid() && fresh(limiter.buffers) && |verdicts| == i
      invariant forall j :: 0 <= j < i ==> verdicts[j] == Admitted(limiter.limit, limiter.window, reqs, j)
      invariant forall k :: limiter.Stamps(k) == Kept(limiter.limit, limiter.window, reqs, i, k)
    {
      var admitted := limiter.Admit(reqs[i].key, reqs[i].now);
      forall k ensures limiter.Stamps(k) == Kept(limiter.limit, limiter.window, reqs, i + 1, k) {
        KeptStep(limiter.limit, limiter.window, reqs, i, k);
      }
      verdicts := verdicts + [admitted];
    }
  }

  /** What a request adds to the timestamps after a later cutoff. */
  lemma StepLive(stamps: seq<int>, now: int, limit: nat, window: nat, lo: int)
    requires now - window <= lo
    ensures Step(stamps, now, limit, window).1 ==>
              Live(Step(stamps, now, limit, window).0, lo) == Live(stamps, lo) + (if now > lo then [now] else [])
    ensures !Step(stamps, now, limit, window).1 ==> Live(Step(stamps, now, limit, window).0, lo) == Live(stamps, lo)
  {
    var kept := Live(stamps, now - window);
    LiveTwice(stamps, now - window, lo);
  }

  /** The callers' windows do not touch each other. */
  lemma KeptStep(limit: nat, window: nat, reqs: seq<Request>, n: nat, key: string)
    requires n < |reqs|
    ensures Kept(limit, window, reqs, n + 1, key) ==
            if reqs[n].key == key then Step(Kept(limit, window, reqs, n, key), reqs[n].now, limit, window).0
            else Kept(limit, window, reqs, n, key)
  {
  }

  /** A request adds its mark, and nothing else, to a caller's timestamps after lo. */
  lemma KeptGrows(limit: nat, window: nat, reqs: seq<Request>, key: string, marks: Marks, n: nat, lo: int)
    requires Admissions(limit, window, reqs, key, marks) && n < |reqs|
    requires reqs[n].key == key ==> reqs[n].now - window <= lo
    ensures Live(Kept(limit, window, reqs, n + 1, key), lo) ==
            Live(Kept(limit, window, reqs, n, key), lo) + Added(marks[n], lo)
  {
    assert MarkedAt(limit, window, reqs, key, marks, n);
    KeptStep(limit, window, reqs, n, key);
    if reqs[n].key == key {
      StepLive(Kept(limit, window, reqs, n, key), reqs[n].now, limit, window, lo);
    }
  }

  /** For a cutoff no earlier than those already applied, the kept timestamps
      after it are the admissions after it. */
  lemma KeptCounts(limit: nat, window: nat, reqs: seq<Request>, key: string, marks: Marks, n: nat, lo: int, hi: int)
    requires Admissions(limit, window, reqs, key, marks) && n <= |reqs|
    requires forall j :: 0 <= j < n && reqs[j].key == key ==> reqs[j].now - window <= lo && reqs[j].now <= hi
    ensures |Live(Kept(limit, window, reqs, n, key), lo)| == Count(marks, n, lo, hi)
  {
    var lists := seq(n + 1, j requires 0 <= j <= n => Live(Kept(limit, window, reqs, j, key), lo));
    forall j | 0 <= j < n ensures GrowsAt(marks, lists, j, lo) {
      KeptGrows(limit, window, reqs, key, marks, j, lo);
    }
    forall j | 0 <= j < n && marks[j].Some? ensures marks[j].value <= hi {
      assert MarkedAt(limit, window, reqs, key, marks, j);
    }
    LengthCounts(marks, lists, n, lo, hi);
  }

  /** A request goes through exactly when fewer than limit of the caller's were
      admitted in the window that ends with it. */
  lemma AdmittedExactly(limit: nat, window: nat, reqs: seq<Request>, i: nat, marks: Marks)
    requires i < |reqs| && ClockOrder(reqs) && Admissions(limit, window, reqs, reqs[i].key, marks)
    ensures Admitted(limit, window, reqs, i) <==> Count(marks, i, reqs[i].now - window, reqs[i].now) < limit
  {
    KeptCounts(limit, window, reqs, reqs[i].key, marks, i, reqs[i].now - window, reqs[i].now);
  }

  /** No half-open interval of window length ever holds more than limit
      admissions of one caller. */
  lemma WindowBound(limit: nat, window: nat, reqs: seq<Request>, key: string, marks: Marks, lo: int)
    requires ClockOrder(reqs) && Admissions(limit, window, reqs, key, marks)
    ensures Count(marks, |reqs|, lo, lo + window) <= limit
  {
    forall i | 0 <= i < |reqs| ensures FoundRoom(marks, limit, window, i) {
      assert MarkedAt(limit, window, reqs, key, marks, i);
      if marks[i].Some? { AdmittedExactly(limit, window, reqs, i, marks); }
    }
    forall i, j | 0 <= i < j < |marks| && marks[i].Some? && marks[j].Some? ensures marks[i].value <= marks[j].value {
      assert MarkedAt(limit, window, reqs, key, marks, i) && MarkedAt(limit, window, reqs, key, marks, j);
    }
    SlidingBound(marks, limit, window, |reqs|, lo);
  }

  // ----- when stamps overtake each other -----
  // The clock is read before the lock is taken, so a request may be served after
  // one with a later stamp.

  /** At most one timestamp is kept, and it is the latest of the first n marks. */
  ghost predicate Latest(kept: seq<int>, marks: Marks, n: nat)
    requires n <= |marks|
  {
    && |kept| <= 1
    && forall j :: 0 <= j < n && marks[j].Some? ==> kept != [] && marks[j].value <= kept[0]
  }

  lemma LiveOne(a: int, c: int)
    ensures Live([a], c) == if a > c then [a] else []
  {
    assert [] + [a] == [a];
  }

  lemma LiveSingle(stamps: seq<int>, c: int)
    requires |stamps| <= 1
    ensures Live(stamps, c) == if stamps != [] && stamps[0] > c then stamps else []
  {
    if stamps != [] {
      var a := stamps[0];
      assert stamps == [a];
      LiveOne(a, c);
    }
  }

  lemma StepForOne(kept: seq<int>, now: int, window: nat)
    requires |kept| <= 1
    ensures Step(kept, now, 1, window) == if kept != [] && kept[0] > now - window then (kept, false) else ([now], true)
  {
    LiveSingle(kept, now - window);
    assert [] + [now] == [now];
  }

  lemma LatestStep(kept: seq<int>, now: int, window: nat, marks: Marks, n: nat)
    requires n < |marks| && Latest(kept, marks, n)
    requires marks[n] == if Step(kept, now, 1, window).1 then Some(now) else None
    ensures Latest(Step(kept, now, 1, window).0, marks, n + 1)
  {
    StepForOne(kept, now, window);
  }

  /** With a limit of one, what is kept is the latest admission alone. */
  lemma {:induction false} LatestKept(window: nat, reqs: seq<Request>, key: string, marks: Marks, n: nat)
    requires Admissions(1, window, reqs, key, marks) && n <= |reqs|
    ensures Latest(Kept(1, window, reqs, n, key), marks, n)
  {
    if n > 0 {
      LatestKept(window, reqs, key, marks, n - 1);
      assert MarkedAt(1, window, reqs, key, marks, n - 1);
      KeptStep(1, window, reqs, n - 1, key);
      if reqs[n - 1].key == key {
        LatestStep(Kept(1, window, reqs, n - 1, key), reqs[n - 1].now, window, marks, n - 1);
      }
    }
  }

  /** With a limit of one, every admission is stamped a full window after all
      earlier ones, in whatever order the requests take the lock. */
  lemma SpacedOut(window: nat, reqs: seq<Request>, key: string, marks: Marks, i: nat, j: nat)
    requires Admissions(1, window, reqs, key, marks) && i < j < |reqs| && marks[i].Some? && marks[j].Some?
    ensures marks[i].value + window <= marks[j].value
  {
    LatestKept(window, reqs, key, marks, j);
    assert MarkedAt(1, window, reqs, key, marks, j);
    StepForOne(Kept(1, window, reqs, j, key), reqs[j].now, window);
  }

  lemma BoundForOne(window: nat, reqs: seq<Request>, key: string, marks: Marks, lo: int)
    requires Admissions(1, window, reqs, key, marks)
    ensures Count(marks, |reqs|, lo, lo + window) <= 1
  {
    forall i, j | 0 <= i < j < |marks| && marks[i].Some? && marks[j].Some?
      ensures marks[i].value + window <= marks[j].value {
      SpacedOut(window, reqs, key, marks, i, j);
    }
    forall i | 0 <= i < |reqs| ensures FoundRoom(marks, 1, window, i) {
      if marks[i].Some? { CountNone(marks, i, marks[i].value - window, marks[i].value); }
    }
    SlidingBound(marks, 1, window, |reqs|, lo);
  }

  /** limit requests stamped a, one stamped a window later, and a last one, late
      for the lock, stamped a again. */
  function LateStamp(limit: nat, window: nat, a: int, i: nat): int {
    if i == limit then a + window else a
  }

  function LateRun(limit: nat, window: nat, key: string, a: int): (reqs: seq<Request>)
    ensures |reqs| == limit + 2 &&
            forall i :: 0 <= i < limit + 2 ==> reqs[i] == Request(key, LateStamp(limit, window, a, i))
  {
    seq(limit + 2, i requires 0 <= i < limit + 2 => Request(key, LateStamp(limit, window, a, i)))
  }

  function LateMarks(limit: nat, window: nat, a: int): (marks: Marks)
    ensures |marks| == limit + 2 && forall i :: 0 <= i < limit + 2 ==> marks[i] == Some(LateStamp(limit, window, a, i))
  {
    seq(limit + 2, i requires 0 <= i < limit + 2 => Some(LateStamp(limit, window, a, i)))
  }

  ghost predicate All(stamps: seq<int>, a: int) {
    forall i :: 0 <= i < |stamps| ==> stamps[i] == a
  }

  lemma BurstStep(kept: seq<int>, a: int, limit: nat, window: nat)
    requires window >= 1 && |kept| < limit && All(kept, a)
    ensures var t := Step(kept, a, limit, window); |t.0| == |kept| + 1 && All(t.0, a) && t.1
  {
    LiveAll(kept, a - window);
  }

  lemma StepDropsAll(kept: seq<int>, a: int, limit: nat, window: nat)
    requires limit >= 1 && All(kept, a)
    ensures Step(kept, a + window, limit, window) == ([a + window], true)
  {
    LiveNone(kept, a);
    assert a + window - window == a && [] + [a + window] == [a + window];
  }

  /** The first n requests carry the same stamp. */
  ghost predicate Burst(reqs: seq<Request>, key: string, a: int, n: nat) {
    n <= |reqs| && forall i :: 0 <= i < n ==> reqs[i] == Request(key, a)
  }

  ghost predicate BurstHeld(limit: nat, window: nat, reqs: seq<Request>, key: string, a: int, n: nat)
    requires n <= |reqs|
  {
    var kept := Kept(limit, window, reqs, n, key);
    |kept| == n && All(kept, a)
  }

  lemma {:induction false} BurstKept(limit: nat, window: nat, reqs: seq<Request>, key: string, a: int, n: nat)
    requires window >= 1 && n <= limit && Burst(reqs, key, a, n)
    ensures BurstHeld(limit, window, reqs, key, a, n)
  {
    if n > 0 {
      BurstKept(limit, window, reqs, key, a, n - 1);
      BurstStep(Kept(limit, window, reqs, n - 1, key), a, limit, window);
      KeptStep(limit, window, reqs, n - 1, key);
    }
  }

  lemma BurstAdmitted(limit: nat, window: nat, reqs: seq<Request>, key: string, a: int, i: nat)
    requires window >= 1 && i < limit <= |reqs| && Burst(reqs, key, a, limit)
    ensures Admitted(limit, window, reqs, i)
  {
    BurstKept(limit, window, reqs, key, a, i);
    BurstStep(Kept(limit, window, reqs, i, key), a, limit, window);
  }

  /** What is left for the last two. */
  lemma AfterBurst(limit: nat, window: nat, reqs: seq<Request>, key: string, a: int)
    requires limit >= 2 && window >= 1 && |reqs| == limit + 2 && Burst(reqs, key, a, limit)
    requires reqs[limit] == Request(key, a + window) && reqs[limit + 1] == Request(key, a)
    ensures Admitted(limit, window, reqs, limit) && Admitted(limit, window, reqs, limit + 1)
  {
    BurstKept(limit, window, reqs, key, a, limit);
    StepDropsAll(Kept(limit, window, reqs, limit, key), a, limit, window);
    KeptStep(limit, window, reqs, limit, key);
    LiveOne(a + window, a - window);
  }

  /** All of them are admitted. */
  lemma LateAdmitted(limit: nat, window: nat, key: string, a: int)
    requires limit >= 2 && window >= 1
    ensures Admissions(limit, window, LateRun(limit, window, key, a), key, LateMarks(limit, window, a))
  {
    var reqs, marks := LateRun(limit, window, key, a), LateMarks(limit, window, a);
    AfterBurst(limit, window, reqs, key, a);
    forall i | 0 <= i < |reqs| ensures MarkedAt(limit, window, reqs, key, marks, i) {
      if i < limit { BurstAdmitted(limit, window, reqs, key, a, i); }
    }
  }

  lemma {:induction false} BurstCount(limit: nat, window: nat, a: int, n: nat)
    requires window >= 1 && n <= limit
    ensures Count(LateMarks(limit, window, a), n, a - 1, a - 1 + window) == n
  {
    if n > 0 { BurstCount(limit, window, a, n - 1); }
  }

  /** With a limit of two or more, limit + 1 of them lie in one window. */
  lemma LateStampBreaksBound(limit: nat, window: nat, key: string, a: int)
    requires limit >= 2 && window >= 1
    ensures Admissions(limit, window, LateRun(limit, window, key, a), key, LateMarks(limit, window, a))
    ensures Count(LateMarks(limit, window, a), limit + 2, a - 1, a - 1 + window) == limit + 1
  {
    LateAdmitted(limit, window, key, a);
    BurstCount(limit, window, a, limit);
    assert Count(LateMarks(limit, window, a), limit + 1, a - 1, a - 1 + window) == limit;
  }

  ghost predicate BoundAt(limit: nat, window: nat, reqs: seq<Request>, key: string, marks: Marks, lo: int)
    requires |reqs| == |marks|
  {
    Count(marks, |reqs|, lo, lo + window) <= limit
  }

  /** The window bound holds in every lock order. */
  ghost predicate BoundInEveryOrder(limit: nat, window: nat) {
    forall reqs, key, marks, lo :: Admissions(limit, window, reqs, key, marks) ==>
        BoundAt(limit, window, reqs, key, marks, lo)
  }

  /** Whatever the order in which requests take the lock, no window holds more than
      limit admissions: true exactly of a limit of one. */
  lemma EveryOrderOnlyForOne(limit: nat, window: nat)
    requires limit >= 1 && window >= 1
    ensures BoundInEveryOrder(limit, window) <==> limit == 1
  {
    if limit == 1 {
      forall reqs, key, marks, lo | Admissions(limit, window, reqs, key, marks)
        ensures BoundAt(limit, window, reqs, key, marks, lo) {
        BoundForOne(window, reqs, key, marks, lo);
      }
    } else {
      LateStampBreaksBound(limit, window, "", 0);
      assert !BoundAt(limit, window, LateRun(limit, window, "", 0), "", LateMarks(limit, window, 0), -1);
    }
  }
}
