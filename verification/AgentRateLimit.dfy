/** The agent's sliding-window limiter (agent/safety/safety.go): the window of
    each user or session lives in the LRU cache, under a one-minute TTL. */
module AgentRateLimit {
  import opened Wrappers
  import opened SlidingWindow
  import R = RateLimiter
  import M = LruModel
  import S = LruStore

  const MINUTE := 60_000_000_000  // in nanoseconds
  const MINUTE_MS := 60_000

  type Cache = seq<M.Entry<seq<int>>>

  /** time.Time.UnixMilli. */
  function Ms(t: nat): (m: nat)
    ensures m * 1_000_000 <= t < (m + 1) * 1_000_000
  {
    t / 1_000_000
  }

  /** The clock is read four times in a call: for the cutoff, inside the cache's
      Get, for the new timestamp, and inside the cache's Set. */
  datatype Clocks = Clocks(cutoff: nat, get: nat, stamp: nat, put: nat)

  predicate InOrder(t: Clocks) {
    t.cutoff <= t.get <= t.stamp <= t.put
  }

  /** The timestamps a check counts: the live ones of an entry that has not expired. */
  function Window(cache: Cache, key: string, cutoff: nat, get: nat): seq<int> {
    match M.Lookup(cache, key)
    case Some(e) => if M.Expired(e, get) then [] else Live(e.value, Ms(cutoff) - MINUTE_MS)
    case None => []
  }

  /** One check: the cache after it, and whether the operation may go on. A
      refusal stores nothing. */
  function CheckStep(cache: Cache, capacity: nat, limit: nat, key: string, t: Clocks): (Cache, bool) {
    var window := Window(cache, key, t.cutoff, t.get);
    var read := M.GetStep(cache, key, t.get).0;
    if |window| >= limit then (read, false)
    else (M.SetStep(read, capacity, key, window + [Ms(t.stamp)], t.put, MINUTE), true)
  }

  class Layer {
    const store: S.Store?<seq<int>>
    const limit: int
    const scope: string

    constructor (store: S.Store?<seq<int>>, operationsPerMinute: int, scope: string)
      ensures this.store == store && this.scope == scope
      ensures limit == if operationsPerMinute == 0 then 60 else operationsPerMinute
    {
      this.store, this.scope := store, scope;
      limit := if operationsPerMinute == 0 then 60 else operationsPerMinute;
    }

    ghost function Footprint(): set<object>
      reads this, if store == null then {} else {store, store.order}
    {
      if store == null then {} else {store, store.order} + store.order.owned
    }

    /** The session under scope "session", when there is one; else the user. */
    function KeyID(user: string, session: string): string {
      if scope == "session" && session != "" then session else user
    }

    function Key(keyID: string): string {
      "ratelimit:" + scope + ":" + keyID
    }

    /** Who shares a window: under scope "session" those of one session, a caller
        without one counting by user id; else exactly those of one user. */
    lemma SharesWindow(user1: string, session1: string, user2: string, session2: string)
      ensures Key(KeyID(user1, session1)) == Key(KeyID(user2, session2)) <==>
                if scope == "session" then
                  (if session1 == "" then user1 else session1) == (if session2 == "" then user2 else session2)
                else user1 == user2
    {
      var prefix := "ratelimit:" + scope + ":";
      var id1, id2 := KeyID(user1, session1), KeyID(user2, session2);
      assert Key(id1)[|prefix|..] == id1 && Key(id2)[|prefix|..] == id2;
    }

    predicate Unlimited(keyID: string) {
      store == null || limit <= 0 || keyID == ""
    }

    method CheckRateLimit(user: string, session: string, t: Clocks) returns (ok: bool)
      requires store != null ==> store.Valid()
      modifies Footprint()
      ensures store != null ==> store.Valid()
      ensures var keyID := KeyID(user, session);
              if Unlimited(keyID) then ok && (store != null ==> store.Recency() == old(store.Recency()))
              else (store.Recency(), ok) == CheckStep(old(store.Recency()), store.maxItems, limit, Key(keyID), t)
    {
      if store == null || limit <= 0 {
        return true;
      }
      var keyID := KeyID(user, session);
      if keyID == "" {
        return true;
      }
      ok := Count(store, limit, Key(keyID), t);
    }

    static method Count(store: S.Store<seq<int>>, limit: nat, key: string, t: Clocks) returns (ok: bool)
      requires store.Valid()
      modifies store`items, store.order`nodes, store.order`owned, store.order.owned
      ensures store.Valid()
      ensures (store.Recency(), ok) == CheckStep(old(store.Recency()), store.maxItems, limit, key, t)
    {
      ghost var before := store.Recency();
      var found := store.Get(key, t.get);
      var window := Filter(if found.Some? then found.value else [], Ms(t.cutoff) - MINUTE_MS);
      assert window == Window(before, key, t.cutoff, t.get);
      if |window| >= limit {
        return false;
      }
      store.Set(key, window + [Ms(t.stamp)], MINUTE, t.put);
      return true;
    }

    /** The decoded timestamps, compacted in place. */
    static method Filter(stamps: seq<int>, cutoff: int) returns (valid: seq<int>)
      ensures valid == Live(stamps, cutoff)
    {
      var buffer := new int[|stamps|](i requires 0 <= i < |stamps| => stamps[i]);
      assert buffer[..|stamps|] == stamps;
      var kept := R.Limiter.Compact(buffer, |stamps|, cutoff);
      return buffer[..kept];
    }
  }

  // ----- when the TTL matters to a decision -----

  /** What the cache holds after a Set at clock reading put: timestamps no later
      than it, and an expiry a minute after it. */
  ghost predicate StoredAt(e: M.Entry<seq<int>>, put: nat) {
    && e.expires == Some(put + MINUTE)
    && forall i :: 0 <= i < |e.value| ==> e.value[i] <= Ms(put)
  }

  function Stamps(cache: Cache, key: string): seq<int> {
    match M.Lookup(cache, key)
    case Some(e) => e.value
    case None => []
  }

  /** The cutoff alone would decide as the check does. */
  predicate SameDecision(cache: Cache, capacity: nat, limit: nat, key: string, t: Clocks) {
    CheckStep(cache, capacity, limit, key, t).1 <==> |Live(Stamps(cache, key), Ms(t.cutoff) - MINUTE_MS)| < limit
  }

  /** The key's entry is as a Set at clock reading put leaves it. */
  ghost predicate HoldsFrom(cache: Cache, key: string, put: nat) {
    M.Lookup(cache, key).Some? && StoredAt(M.Lookup(cache, key).value, put)
  }

  /** The expiry decides nothing, whatever the window holds, exactly when the entry
      has not expired at Get or the cutoff was read at least a minute of whole
      milliseconds after the entry was stored. In between it lets through an
      operation that the timestamps alone would refuse. */
  lemma ExpiryDecidesNothing(capacity: nat, limit: nat, key: string, put: nat, t: Clocks)
    requires limit >= 1
    ensures (forall cache | HoldsFrom(cache, key, put) :: SameDecision(cache, capacity, limit, key, t))
            <==> t.get <= put + MINUTE || Ms(t.cutoff) >= Ms(put) + MINUTE_MS
  {
    if Ms(t.cutoff) >= Ms(put) + MINUTE_MS {
      forall cache | HoldsFrom(cache, key, put) ensures SameDecision(cache, capacity, limit, key, t) {
        LiveNone(Stamps(cache, key), Ms(t.cutoff) - MINUTE_MS);
      }
    } else if t.get > put + MINUTE {
      var full := seq(limit, _ => Ms(put));
      LiveAll(full, Ms(t.cutoff) - MINUTE_MS);
      var cache := [M.Entry(key, full, Some(put + MINUTE))];
      assert HoldsFrom(cache, key, put) && !SameDecision(cache, capacity, limit, key, t);
    }
  }

  // ----- runs over the shared cache -----

  datatype Event =
    | Check(key: string, clocks: Clocks)
    | Other(op: M.Op<seq<int>>, now: nat)

  function KeyOf(e: Event): string {
    match e
    case Check(key, _) => key
    case Other(op, _) => op.key
  }

  function Apply(cache: Cache, capacity: nat, limit: nat, e: Event): Cache {
    match e
    case Check(key, t) => CheckStep(cache, capacity, limit, key, t).0
    case Other(op, now) => M.Step(cache, capacity, op, now).0
  }

  /** The cache, empty at first, after the first n events. */
  function After(capacity: nat, limit: nat, events: seq<Event>, n: nat): Cache
    requires n <= |events|
  {
    if n == 0 then [] else Apply(After(capacity, limit, events, n - 1), capacity, limit, events[n - 1])
  }

  predicate IsCheck(events: seq<Event>, key: string, i: nat)
    requires i < |events|
  {
    events[i].Check? && events[i].key == key
  }

  predicate Admitted(capacity: nat, limit: nat, events: seq<Event>, i: nat)
    requires i < |events| && events[i].Check?
  {
    CheckStep(After(capacity, limit, events, i), capacity, limit, events[i].key, events[i].clocks).1
  }

  /** The event drops a key's entry to make room for another key. */
  predicate Evicts(capacity: nat, limit: nat, events: seq<Event>, i: nat, key: string)
    requires i < |events|
  {
    && KeyOf(events[i]) != key
    && M.Lookup(After(capacity, limit, events, i), key).Some?
    && M.Lookup(After(capacity, limit, events, i + 1), key).None?
  }

  predicate Before(events: seq<Event>, i: nat, j: nat)
    requires i < j < |events|
  {
    events[i].Check? && events[j].Check? ==>
      InOrder(events[i].clocks) && events[i].clocks.put <= events[j].clocks.cutoff && InOrder(events[j].clocks)
  }

  /** One call at a time, on a clock that never goes back. */
  ghost predicate Sequential(events: seq<Event>) {
    && (forall i :: 0 <= i < |events| && events[i].Check? ==> InOrder(events[i].clocks))
    && (forall i, j :: 0 <= i < j < |events| ==> Before(events, i, j))
  }

  lemma EarlierStamp(events: seq<Event>, i: nat, j: nat)
    requires Sequential(events) && i < j < |events| && events[i].Check? && events[j].Check?
    ensures Ms(events[i].clocks.stamp) <= Ms(events[j].clocks.stamp)
    ensures events[i].clocks.put <= events[j].clocks.cutoff
  {
    assert Before(events, i, j);
  }

  predicate LeavesAlone(capacity: nat, limit: nat, events: seq<Event>, i: nat, key: string)
    requires i < |events|
  {
    (events[i].Other? ==> events[i].op.key != key) && !Evicts(capacity, limit, events, i, key)
  }

  /** Only checks touch the key's entry, and it is never evicted. */
  ghost predicate Undisturbed(capacity: nat, limit: nat, events: seq<Event>, key: string) {
    forall i :: 0 <= i < |events| ==> LeavesAlone(capacity, limit, events, i, key)
  }

  function Mark(capacity: nat, limit: nat, events: seq<Event>, key: string, i: nat): Option<int>
    requires i < |events|
  {
    if IsCheck(events, key, i) && Admitted(capacity, limit, events, i) then Some(Ms(events[i].clocks.stamp)) else None
  }

  predicate MarkedAt(capacity: nat, limit: nat, events: seq<Event>, key: string, marks: Marks, i: nat)
    requires i < |events| == |marks|
  {
    marks[i] == Mark(capacity, limit, events, key, i)
  }

  /** The admitted checks of a key, marked with their timestamps. */
  ghost predicate Admissions(capacity: nat, limit: nat, events: seq<Event>, key: string, marks: Marks) {
    |events| == |marks| && forall i :: 0 <= i < |events| ==> MarkedAt(capacity, limit, events, key, marks, i)
  }

  /** A run of two checks on an ordered clock, at a limit of one, whose second
      check the expiry decides: the minute ends between its reading of the cutoff
      and the cache's own. */
  lemma ExpiryDecidesARun(capacity: nat, key: string, start: nat, t: Clocks, events: seq<Event>)
    requires capacity >= 1 && InOrder(t) && start <= t.cutoff
    requires events == [Check(key, Clocks(start, start, start, start)), Check(key, t)]
    requires t.get > start + MINUTE && Ms(t.cutoff) < Ms(start) + MINUTE_MS
    ensures Sequential(events) && Undisturbed(capacity, 1, events, key)
    ensures Admitted(capacity, 1, events, 0) && Admitted(capacity, 1, events, 1)
    ensures !SameDecision(After(capacity, 1, events, 1), capacity, 1, key, t)
  {
    var entry := M.Entry(key, [Ms(start)], Some(start + MINUTE));
    FirstCheck(capacity, key, start);
    assert After(capacity, 1, events, 0) == [];
    assert After(capacity, 1, events, 1) == [entry];
    ExpiryDecidesHere(capacity, key, start, t);
  }

  lemma ExpiryDecidesHere(capacity: nat, key: string, start: nat, t: Clocks)
    requires t.get > start + MINUTE && Ms(t.cutoff) < Ms(start) + MINUTE_MS
    ensures var cache := [M.Entry(key, [Ms(start)], Some(start + MINUTE))];
            CheckStep(cache, capacity, 1, key, t).1 && !SameDecision(cache, capacity, 1, key, t)
  {
    var entry := M.Entry(key, [Ms(start)], Some(start + MINUTE));
    assert M.Lookup([entry], key) == Some(entry);
    LiveAll([Ms(start)], Ms(t.cutoff) - MINUTE_MS);
  }

  lemma FirstCheck(capacity: nat, key: string, start: nat)
    ensures CheckStep([], capacity, 1, key, Clocks(start, start, start, start)) ==
            ([M.Entry(key, [Ms(start)], Some(start + MINUTE))], true)
  {
    var entry := M.Entry(key, [Ms(start)], Some(start + MINUTE));
    assert [] + [Ms(start)] == [Ms(start)];
    assert [entry] + [] == [entry];
    var none: Cache := [];
    assert M.SetStep(none, capacity, key, [Ms(start)], start, MINUTE) == [entry];
  }

  // ----- one event -----

  /** What a check leaves of its own key's entry. */
  lemma CheckOwnKey(cache: Cache, capacity: nat, limit: nat, key: string, t: Clocks)
    requires capacity >= 1 && M.Bounded(cache, capacity)
    ensures var (after, ok) := CheckStep(cache, capacity, limit, key, t);
            var window := Window(cache, key, t.cutoff, t.get);
            && M.Bounded(after, capacity)
            && (ok ==> M.Lookup(after, key) == Some(M.Entry(key, window + [Ms(t.stamp)], Some(t.put + MINUTE))))
            && (!ok ==> M.Lookup(after, key) == if M.Live(cache, key, t.get) then M.Lookup(cache, key) else None)
  {
    var get := M.Get(key);
    M.StepKeepsOthers(cache, capacity, get, t.get, key);
    M.StepOwnKey(cache, capacity, get, t.get);
    var read := M.Step(cache, capacity, get, t.get).0;
    var set_ := M.Set(key, Window(cache, key, t.cutoff, t.get) + [Ms(t.stamp)], MINUTE);
    M.StepKeepsOthers(read, capacity, set_, t.put, key);
    M.StepOwnKey(read, capacity, set_, t.put);
  }

  /** A check leaves another key's entry alone, or evicts it. */
  lemma CheckOtherKey(cache: Cache, capacity: nat, limit: nat, key: string, t: Clocks, k: string)
    requires capacity >= 1 && M.Bounded(cache, capacity) && k != key
    ensures var after := CheckStep(cache, capacity, limit, key, t).0;
            M.Lookup(after, k) == M.Lookup(cache, k) || M.Lookup(after, k).None?
  {
    var get := M.Get(key);
    M.StepKeepsOthers(cache, capacity, get, t.get, k);
    var read := M.Step(cache, capacity, get, t.get).0;
    M.StepKeepsOthers(read, capacity,
      M.Set(key, Window(cache, key, t.cutoff, t.get) + [Ms(t.stamp)], MINUTE), t.put, k);
  }

  lemma ApplyOthers(cache: Cache, capacity: nat, limit: nat, e: Event, k: string)
    requires capacity >= 1 && M.Bounded(cache, capacity)
    ensures var after := Apply(cache, capacity, limit, e);
            && M.Bounded(after, capacity)
            && (k != KeyOf(e) ==> M.Lookup(after, k) == M.Lookup(cache, k) || M.Lookup(after, k).None?)
  {
    match e
    case Check(key, t) =>
      CheckOwnKey(cache, capacity, limit, key, t);
      if k != key { CheckOtherKey(cache, capacity, limit, key, t, k); }
    case Other(op, now) =>
      M.StepKeepsOthers(cache, capacity, op, now, k);
  }

  // ----- any run -----

  lemma {:induction false} AfterBounded(capacity: nat, limit: nat, events: seq<Event>, n: nat)
    requires capacity >= 1 && n <= |events|
    ensures M.Bounded(After(capacity, limit, events, n), capacity)
  {
    if n > 0 {
      AfterBounded(capacity, limit, events, n - 1);
      ApplyOthers(After(capacity, limit, events, n - 1), capacity, limit, events[n - 1], KeyOf(events[n - 1]));
    }
  }

  /** The key's entry between its checks. */
  lemma EntryStays(capacity: nat, limit: nat, events: seq<Event>, n: nat, key: string)
    requires capacity >= 1 && n < |events| && Undisturbed(capacity, limit, events, key) && !IsCheck(events, key, n)
    ensures M.Lookup(After(capacity, limit, events, n + 1), key) == M.Lookup(After(capacity, limit, events, n), key)
  {
    AfterBounded(capacity, limit, events, n);
    assert LeavesAlone(capacity, limit, events, n, key);
    ApplyOthers(After(capacity, limit, events, n), capacity, limit, events[n], key);
  }

  /** The key's entry after one of its checks. */
  lemma EntryChecked(capacity: nat, limit: nat, events: seq<Event>, n: nat, key: string)
    requires capacity >= 1 && limit >= 1 && n < |events| && IsCheck(events, key, n)
    ensures var cache, t := After(capacity, limit, events, n), events[n].clocks;
            M.Lookup(After(capacity, limit, events, n + 1), key) ==
              if Admitted(capacity, limit, events, n)
              then Some(M.Entry(key, Window(cache, key, t.cutoff, t.get) + [Ms(t.stamp)], Some(t.put + MINUTE)))
              else M.Lookup(cache, key)
  {
    AfterBounded(capacity, limit, events, n);
    CheckOwnKey(After(capacity, limit, events, n), capacity, limit, key, events[n].clocks);
  }

  /** No entry, or one stored no later than latest. */
  ghost predicate StoredBy(entry: Option<M.Entry<seq<int>>>, latest: nat) {
    entry.Some? ==> exists put: nat :: put <= latest && StoredAt(entry.value, put)
  }

  lemma CheckStoresAt(cache: Cache, key: string, t: Clocks, latest: nat)
    requires InOrder(t) && latest <= t.cutoff && StoredBy(M.Lookup(cache, key), latest)
    ensures StoredAt(M.Entry(key, Window(cache, key, t.cutoff, t.get) + [Ms(t.stamp)], Some(t.put + MINUTE)), t.put)
  {
    if M.Lookup(cache, key).Some? {
      var put: nat :| put <= latest && StoredAt(M.Lookup(cache, key).value, put);
      LiveBelow(Stamps(cache, key), Ms(t.cutoff) - MINUTE_MS, Ms(t.put));
    }
  }

  /** The key's checks among the first n are over by latest. */
  ghost predicate ChecksDone(events: seq<Event>, n: nat, key: string, latest: nat)
    requires n <= |events|
  {
    forall i :: 0 <= i < n && IsCheck(events, key, i) ==> events[i].clocks.put <= latest
  }

  lemma DoneBefore(events: seq<Event>, n: nat, key: string)
    requires Sequential(events) && n < |events| && events[n].Check?
    ensures ChecksDone(events, n, key, events[n].clocks.cutoff)
  {
    forall i | 0 <= i < n && IsCheck(events, key, i) ensures events[i].clocks.put <= events[n].clocks.cutoff {
      EarlierStamp(events, i, n);
    }
  }

  lemma {:induction false} EntriesStored(capacity: nat, limit: nat, events: seq<Event>, n: nat,
      key: string, latest: nat)
    requires capacity >= 1 && limit >= 1 && n <= |events| && Sequential(events) &&
             Undisturbed(capacity, limit, events, key)
    requires ChecksDone(events, n, key, latest)
    ensures StoredBy(M.Lookup(After(capacity, limit, events, n), key), latest)
  {
    if n == 0 {
      NothingStored(capacity, limit, events, key, latest);
    } else {
      DoneEarlier(events, n, key, latest);
      if PutAt(capacity, limit, events, key, n - 1).None? {
        EntriesStored(capacity, limit, events, n - 1, key, latest);
        EntryUnchanged(capacity, limit, events, n - 1, key);
      } else {
        DoneBefore(events, n - 1, key);
        EntriesStored(capacity, limit, events, n - 1, key, events[n - 1].clocks.cutoff);
        CheckStores(capacity, limit, events, n - 1, key, latest);
      }
    }
  }

  lemma DoneEarlier(events: seq<Event>, n: nat, key: string, latest: nat)
    requires 0 < n <= |events| && ChecksDone(events, n, key, latest)
    ensures ChecksDone(events, n - 1, key, latest)
    ensures IsCheck(events, key, n - 1) ==> events[n - 1].clocks.put <= latest
  {
  }

  lemma NothingStored(capacity: nat, limit: nat, events: seq<Event>, key: string, latest: nat)
    ensures StoredBy(M.Lookup(After(capacity, limit, events, 0), key), latest)
  {
  }

  lemma CheckStores(capacity: nat, limit: nat, events: seq<Event>, n: nat, key: string, latest: nat)
    requires capacity >= 1 && limit >= 1 && n < |events| && Sequential(events)
    requires PutAt(capacity, limit, events, key, n).Some? && events[n].clocks.put <= latest
    requires StoredBy(M.Lookup(After(capacity, limit, events, n), key), events[n].clocks.cutoff)
    ensures StoredBy(M.Lookup(After(capacity, limit, events, n + 1), key), latest)
  {
    var t := events[n].clocks;
    EntryChecked(capacity, limit, events, n, key);
    CheckStoresAt(After(capacity, limit, events, n), key, t, t.cutoff);
  }

  /** After the cutoff of a later timestamp, an expired window counts for nothing. */
  lemma WindowLive(cache: Cache, key: string, t: Clocks, latest: nat, lo: int)
    requires InOrder(t) && StoredBy(M.Lookup(cache, key), latest) && Ms(t.stamp) - MINUTE_MS <= lo
    ensures Live(Window(cache, key, t.cutoff, t.get), lo) == Live(Stamps(cache, key), lo)
  {
    LiveTwice(Stamps(cache, key), Ms(t.cutoff) - MINUTE_MS, lo);
    if M.Lookup(cache, key).Some? && M.Expired(M.Lookup(cache, key).value, t.get) {
      var put: nat :| put <= latest && StoredAt(M.Lookup(cache, key).value, put);
      LiveNone(Stamps(cache, key), lo);
    }
  }

  /** A check adds its mark, and nothing else, to the timestamps after lo. */
  lemma CheckAddsStamp(capacity: nat, limit: nat, events: seq<Event>, n: nat, key: string, lo: int)
    requires capacity >= 1 && limit >= 1 && n < |events| && Sequential(events) &&
             Undisturbed(capacity, limit, events, key)
    requires IsCheck(events, key, n) && Ms(events[n].clocks.stamp) - MINUTE_MS <= lo
    ensures Live(Stamps(After(capacity, limit, events, n + 1), key), lo) ==
            Live(Stamps(After(capacity, limit, events, n), key), lo) + Added(Mark(capacity, limit, events, key, n), lo)
  {
    EntryChecked(capacity, limit, events, n, key);
    var cache, t := After(capacity, limit, events, n), events[n].clocks;
    DoneBefore(events, n, key);
    EntriesStored(capacity, limit, events, n, key, t.cutoff);
    WindowLive(cache, key, t, t.cutoff, lo);
  }

  /** A key's stored timestamps after lo, after the first n events. */
  function LiveAt(capacity: nat, limit: nat, events: seq<Event>, n: nat, key: string, lo: int): seq<int>
    requires n <= |events|
  {
    Live(Stamps(After(capacity, limit, events, n), key), lo)
  }

  lemma StampsGrow(capacity: nat, limit: nat, events: seq<Event>, n: nat, key: string, marks: Marks, lo: int)
    requires capacity >= 1 && limit >= 1 && n < |events| && Sequential(events) &&
             Undisturbed(capacity, limit, events, key)
    requires Admissions(capacity, limit, events, key, marks)
    requires IsCheck(events, key, n) ==> Ms(events[n].clocks.stamp) - MINUTE_MS <= lo
    ensures LiveAt(capacity, limit, events, n + 1, key, lo) ==
            LiveAt(capacity, limit, events, n, key, lo) + Added(marks[n], lo)
  {
    assert MarkedAt(capacity, limit, events, key, marks, n);
    if IsCheck(events, key, n) {
      CheckAddsStamp(capacity, limit, events, n, key, lo);
    } else {
      EntryStays(capacity, limit, events, n, key);
    }
  }

  /** lo is no earlier than the minute before any timestamp among the first n events. */
  ghost predicate CutoffsBy(events: seq<Event>, n: nat, key: string, lo: int)
    requires n <= |events|
  {
    forall i :: 0 <= i < n && IsCheck(events, key, i) ==> Ms(events[i].clocks.stamp) - MINUTE_MS <= lo
  }

  /** The stored timestamps after lo are the admissions after lo, when lo is no
      earlier than the cutoffs of those admitted. */
  lemma StampsCount(capacity: nat, limit: nat, events: seq<Event>, n: nat, key: string, marks: Marks, lo: int, hi: int)
    requires capacity >= 1 && limit >= 1 && n <= |events| && Sequential(events) &&
             Undisturbed(capacity, limit, events, key)
    requires Admissions(capacity, limit, events, key, marks)
    requires CutoffsBy(events, n, key, lo)
    requires forall i :: 0 <= i < n && IsCheck(events, key, i) ==> Ms(events[i].clocks.stamp) <= hi
    ensures |LiveAt(capacity, limit, events, n, key, lo)| == Count(marks, n, lo, hi)
  {
    var lists := seq(n + 1, j requires 0 <= j <= n => LiveAt(capacity, limit, events, j, key, lo));
    forall j | 0 <= j < n ensures GrowsAt(marks, lists, j, lo) {
      StampsGrow(capacity, limit, events, j, key, marks, lo);
    }
    forall j | 0 <= j < n && marks[j].Some? ensures marks[j].value <= hi {
      assert MarkedAt(capacity, limit, events, key, marks, j);
    }
    LengthCounts(marks, lists, n, lo, hi);
  }

  /** An admission finds fewer than limit others in the minute before its timestamp. */
  lemma AdmissionFindsRoom(capacity: nat, limit: nat, events: seq<Event>, n: nat, key: string, marks: Marks)
    requires capacity >= 1 && limit >= 1 && n < |events| && Sequential(events) &&
             Undisturbed(capacity, limit, events, key)
    requires Admissions(capacity, limit, events, key, marks)
    ensures FoundRoom(marks, limit, MINUTE_MS, n)
  {
    assert MarkedAt(capacity, limit, events, key, marks, n);
    if marks[n].Some? {
      var cache, t := After(capacity, limit, events, n), events[n].clocks;
      var lo := Ms(t.stamp) - MINUTE_MS;
      forall i | 0 <= i < n && IsCheck(events, key, i) ensures Ms(events[i].clocks.stamp) <= Ms(t.stamp) {
        EarlierStamp(events, i, n);
      }
      DoneBefore(events, n, key);
      EntriesStored(capacity, limit, events, n, key, t.cutoff);
      WindowLive(cache, key, t, t.cutoff, lo);
      StampsCount(capacity, limit, events, n, key, marks, lo, Ms(t.stamp));
      LiveShorter(Window(cache, key, t.cutoff, t.get), lo);
    }
  }

  /** No half-open minute ever holds more than the allowed number of a caller's
      operations, whatever else uses the cache. */
  lemma MinuteBound(capacity: nat, limit: nat, events: seq<Event>, key: string, marks: Marks, lo: int)
    requires capacity >= 1 && limit >= 1 && Sequential(events) && Undisturbed(capacity, limit, events, key)
    requires Admissions(capacity, limit, events, key, marks)
    ensures Count(marks, |events|, lo, lo + MINUTE_MS) <= limit
  {
    forall i | 0 <= i < |events| ensures FoundRoom(marks, limit, MINUTE_MS, i) {
      AdmissionFindsRoom(capacity, limit, events, i, key, marks);
    }
    forall i, j | 0 <= i < j < |marks| && marks[i].Some? && marks[j].Some? ensures marks[i].value <= marks[j].value {
      assert MarkedAt(capacity, limit, events, key, marks, i) && MarkedAt(capacity, limit, events, key, marks, j);
      EarlierStamp(events, i, j);
    }
    SlidingBound(marks, limit, MINUTE_MS, |events|, lo);
  }

  // ----- exactly what is admitted -----

  /** When the cache stored a key's window: at the admitted checks. */
  function PutAt(capacity: nat, limit: nat, events: seq<Event>, key: string, i: nat): Option<nat>
    requires i < |events|
  {
    if IsCheck(events, key, i) && Admitted(capacity, limit, events, i) then Some(events[i].clocks.put) else None
  }

  predicate StoredIn(capacity: nat, limit: nat, events: seq<Event>, key: string, puts: seq<Option<nat>>, i: nat)
    requires i < |events| == |puts|
  {
    puts[i] == PutAt(capacity, limit, events, key, i)
  }

  ghost predicate Puts(capacity: nat, limit: nat, events: seq<Event>, key: string, puts: seq<Option<nat>>) {
    |events| == |puts| && forall i :: 0 <= i < |events| ==> StoredIn(capacity, limit, events, key, puts, i)
  }

  /** The entry expires a minute after the last of the first n times. */
  ghost predicate ExpiresAfterLast(entry: Option<M.Entry<seq<int>>>, puts: seq<Option<nat>>, n: nat)
    requires n <= |puts|
  {
    && (entry.Some? ==> exists k :: 0 <= k < n && puts[k].Some? && entry.value.expires == Some(puts[k].value + MINUTE))
    && forall k :: 0 <= k < n && puts[k].Some? ==>
         entry.Some? && entry.value.expires.Some? && puts[k].value + MINUTE <= entry.value.expires.value
  }

  lemma {:induction false} ExpiryIsOfLast(capacity: nat, limit: nat, events: seq<Event>, n: nat, key: string,
      puts: seq<Option<nat>>)
    requires capacity >= 1 && limit >= 1 && n <= |events|
    requires Sequential(events) && Undisturbed(capacity, limit, events, key)
    requires Puts(capacity, limit, events, key, puts)
    ensures ExpiresAfterLast(M.Lookup(After(capacity, limit, events, n), key), puts, n)
  {
    if n == 0 {
      ExpiryFirst(capacity, limit, events, key, puts);
    } else {
      ExpiryIsOfLast(capacity, limit, events, n - 1, key, puts);
      assert StoredIn(capacity, limit, events, key, puts, n - 1);
      if puts[n - 1].Some? {
        ExpiryAfterCheck(capacity, limit, events, n - 1, key, puts);
      } else {
        EntryUnchanged(capacity, limit, events, n - 1, key);
        PutNone(M.Lookup(After(capacity, limit, events, n - 1), key), puts, n - 1);
      }
    }
  }

  lemma ExpiryFirst(capacity: nat, limit: nat, events: seq<Event>, key: string, puts: seq<Option<nat>>)
    ensures ExpiresAfterLast(M.Lookup(After(capacity, limit, events, 0), key), puts, 0)
  {
  }

  lemma PutNone(entry: Option<M.Entry<seq<int>>>, puts: seq<Option<nat>>, n: nat)
    requires n < |puts| && puts[n].None? && ExpiresAfterLast(entry, puts, n)
    ensures ExpiresAfterLast(entry, puts, n + 1)
  {
  }

  /** The n-th time is the last so far, and the entry expires a minute after it. */
  lemma PutLast(entry: Option<M.Entry<seq<int>>>, puts: seq<Option<nat>>, n: nat)
    requires n < |puts| && puts[n].Some? && entry.Some? && entry.value.expires == Some(puts[n].value + MINUTE)
    requires forall k :: 0 <= k < n && puts[k].Some? ==> puts[k].value <= puts[n].value
    ensures ExpiresAfterLast(entry, puts, n + 1)
  {
  }

  lemma PutsOrdered(capacity: nat, limit: nat, events: seq<Event>, key: string, puts: seq<Option<nat>>, k: nat, n: nat)
    requires Sequential(events) && Puts(capacity, limit, events, key, puts) && k < n < |events|
    requires puts[k].Some? && puts[n].Some?
    ensures puts[k].value <= puts[n].value
  {
    assert StoredIn(capacity, limit, events, key, puts, k) && StoredIn(capacity, limit, events, key, puts, n);
    EarlierStamp(events, k, n);
  }

  lemma ExpiryAfterCheck(capacity: nat, limit: nat, events: seq<Event>, n: nat, key: string, puts: seq<Option<nat>>)
    requires capacity >= 1 && limit >= 1 && n < |events| && Sequential(events)
    requires Puts(capacity, limit, events, key, puts) && puts[n].Some?
    ensures ExpiresAfterLast(M.Lookup(After(capacity, limit, events, n + 1), key), puts, n + 1)
  {
    var entry := EntryPut(capacity, limit, events, n, key, puts);
    forall k | 0 <= k < n && puts[k].Some? ensures puts[k].value <= puts[n].value {
      PutsOrdered(capacity, limit, events, key, puts, k, n);
    }
    PutLast(Some(entry), puts, n);
  }

  lemma EntryPut(capacity: nat, limit: nat, events: seq<Event>, n: nat, key: string, puts: seq<Option<nat>>)
      returns (entry: M.Entry<seq<int>>)
    requires capacity >= 1 && limit >= 1 && n < |events|
    requires Puts(capacity, limit, events, key, puts) && puts[n].Some?
    ensures M.Lookup(After(capacity, limit, events, n + 1), key) == Some(entry)
    ensures entry.expires == Some(puts[n].value + MINUTE)
  {
    assert StoredIn(capacity, limit, events, key, puts, n);
    EntryChecked(capacity, limit, events, n, key);
    entry := M.Lookup(After(capacity, limit, events, n + 1), key).value;
  }

  lemma EntryUnchanged(capacity: nat, limit: nat, events: seq<Event>, n: nat, key: string)
    requires capacity >= 1 && limit >= 1 && n < |events| && Undisturbed(capacity, limit, events, key)
    requires PutAt(capacity, limit, events, key, n).None?
    ensures M.Lookup(After(capacity, limit, events, n + 1), key) == M.Lookup(After(capacity, limit, events, n), key)
  {
    if IsCheck(events, key, n) {
      EntryChecked(capacity, limit, events, n, key);
    } else {
      EntryStays(capacity, limit, events, n, key);
    }
  }

  lemma WindowSize(cache: Cache, capacity: nat, limit: nat, key: string, t: Clocks)
    requires limit >= 1
    ensures CheckStep(cache, capacity, limit, key, t).1 <==>
              || |Live(Stamps(cache, key), Ms(t.cutoff) - MINUTE_MS)| < limit
              || (M.Lookup(cache, key).Some? && M.Expired(M.Lookup(cache, key).value, t.get))
  {
  }

  lemma StampsBeforeCutoff(capacity: nat, limit: nat, events: seq<Event>, n: nat, key: string, marks: Marks)
    requires capacity >= 1 && limit >= 1 && n < |events| && IsCheck(events, key, n)
    requires Sequential(events) && Undisturbed(capacity, limit, events, key)
    requires Admissions(capacity, limit, events, key, marks)
    ensures var cutoff := Ms(events[n].clocks.cutoff);
            |LiveAt(capacity, limit, events, n, key, cutoff - MINUTE_MS)| == Count(marks, n, cutoff - MINUTE_MS, cutoff)
  {
    var cutoff := Ms(events[n].clocks.cutoff);
    forall i | 0 <= i < n && IsCheck(events, key, i) ensures Ms(events[i].clocks.stamp) <= cutoff {
      EarlierStamp(events, i, n);
      assert events[i].clocks.stamp <= events[i].clocks.put <= events[n].clocks.cutoff;
    }
    StampsCount(capacity, limit, events, n, key, marks, cutoff - MINUTE_MS, cutoff);
  }

  /** A check is admitted exactly when fewer than limit of the key's were in the
      minute before its cutoff reading, or the cache has dropped them all: more than
      a minute has passed since the last was stored. */
  lemma CheckAdmittedExactly(capacity: nat, limit: nat, events: seq<Event>, n: nat, key: string, marks: Marks,
      puts: seq<Option<nat>>)
    requires capacity >= 1 && limit >= 1 && n < |events| && IsCheck(events, key, n)
    requires Sequential(events) && Undisturbed(capacity, limit, events, key)
    requires Admissions(capacity, limit, events, key, marks) && Puts(capacity, limit, events, key, puts)
    ensures var t := events[n].clocks;
            Admitted(capacity, limit, events, n) <==>
              || Count(marks, n, Ms(t.cutoff) - MINUTE_MS, Ms(t.cutoff)) < limit
              || forall k :: 0 <= k < n && puts[k].Some? ==> t.get > puts[k].value + MINUTE
  {
    var cache, t := After(capacity, limit, events, n), events[n].clocks;
    StampsBeforeCutoff(capacity, limit, events, n, key, marks);
    ExpiryIsOfLast(capacity, limit, events, n, key, puts);
    WindowSize(cache, capacity, limit, key, t);
  }
}
