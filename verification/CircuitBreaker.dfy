/** The circuit breaker of the model gateway (agent/llm/gateway.go) and what it
    bounds over any run. Times are counted from Go's zero time. */
module CircuitBreaker {
  import opened Wrappers

  datatype State = State(failures: nat, openUntil: nat)

  const CLOSED := State(0, 0)

  datatype Config = Config(threshold: nat, cooldown: nat)

  predicate Allow(s: State, now: nat) {
    s.openUntil <= now
  }

  function Fail(c: Config, s: State, now: nat): State {
    if s.failures + 1 >= c.threshold then State(0, now + c.cooldown) else s.(failures := s.failures + 1)
  }

  function Succeed(s: State): State {
    s.(failures := 0)
  }

  /** The object the gateway keeps for each provider. */
  class Breaker {
    const config: Config
    var failures: nat
    var openUntil: nat

    constructor (config: Config)
      ensures this.config == config && Abstract() == CLOSED
    {
      this.config := config;
      failures, openUntil := 0, 0;
    }

    function Abstract(): State
      reads this
    {
      State(failures, openUntil)
    }

    method RecordFailure(now: nat)
      modifies this
      ensures Abstract() == Fail(config, old(Abstract()), now)
    {
      failures := failures + 1;
      if failures >= config.threshold {
        openUntil := now + config.cooldown;
        failures := 0;
      }
    }

    method RecordSuccess()
      modifies this
      ensures Abstract() == Succeed(old(Abstract()))
    {
      failures := 0;
    }
  }

  // ----- runs of one provider -----

  /** How a call to the provider ended: with success, with a 5xx-class error, or
      with another error, which the breaker does not see. */
  datatype Outcome = Success | Failover | OtherError

  /** A call let through at start that ended at end. */
  datatype Call = Call(start: nat, outcome: Outcome, end: nat)

  function Observe(c: Config, s: State, call: Call): State {
    match call.outcome
    case Success => Succeed(s)
    case Failover => Fail(c, s, call.end)
    case OtherError => s
  }

  /** The breaker after the first n calls. */
  function After(c: Config, calls: seq<Call>, n: nat): State
    requires n <= |calls|
  {
    if n == 0 then CLOSED else Observe(c, After(c, calls, n - 1), calls[n - 1])
  }

  /** Calls one after another on a clock that never goes back. */
  ghost predicate OnClock(calls: seq<Call>) {
    && (forall i :: 0 <= i < |calls| ==> calls[i].start <= calls[i].end)
    && (forall i, j :: 0 <= i < j < |calls| ==> calls[i].end <= calls[j].start)
  }

  /** Call i found the breaker closed. */
  predicate LetThrough(c: Config, calls: seq<Call>, i: nat)
    requires i < |calls|
  {
    Allow(After(c, calls, i), calls[i].start)
  }

  ghost predicate IsRun(c: Config, calls: seq<Call>) {
    OnClock(calls) && forall i :: 0 <= i < |calls| ==> LetThrough(c, calls, i)
  }

  lemma {:induction false} AfterPrefix(c: Config, calls: seq<Call>, call: Call, n: nat)
    requires n <= |calls|
    ensures After(c, calls + [call], n) == After(c, calls, n)
  {
    if n > 0 { AfterPrefix(c, calls, call, n - 1); }
  }

  /** A run goes on with a later call that finds the breaker closed. */
  lemma RunGoesOn(c: Config, calls: seq<Call>, call: Call)
    requires IsRun(c, calls) && Allow(After(c, calls, |calls|), call.start) && call.start <= call.end
    requires forall i :: 0 <= i < |calls| ==> calls[i].end <= call.start
    ensures IsRun(c, calls + [call])
    ensures After(c, calls + [call], |calls| + 1) == Observe(c, After(c, calls, |calls|), call)
  {
    AfterPrefix(c, calls, call, |calls|);
    forall i | 0 <= i < |calls| + 1 ensures LetThrough(c, calls + [call], i) {
      AfterPrefix(c, calls, call, i);
      assert i < |calls| ==> LetThrough(c, calls, i);
    }
  }

  /** How many of the calls from..n ended in a 5xx-class error. */
  function Failovers(calls: seq<Call>, from: nat, n: nat): nat
    requires from <= n <= |calls|
  {
    if n == from then 0
    else Failovers(calls, from, n - 1) + (if calls[n - 1].outcome == Failover then 1 else 0)
  }

  ghost predicate NoSuccess(calls: seq<Call>, from: nat, n: nat)
    requires from <= n <= |calls|
  {
    forall i :: from <= i < n ==> calls[i].outcome != Success
  }

  lemma {:induction false} BelowThreshold(c: Config, calls: seq<Call>, n: nat)
    requires c.threshold >= 1 && n <= |calls|
    ensures After(c, calls, n).failures < c.threshold
  {
    if n > 0 { BelowThreshold(c, calls, n - 1); }
  }

  /** A stretch of calls with neither a success nor an opening. */
  ghost predicate Quiet(c: Config, calls: seq<Call>, from: nat, n: nat)
    requires from <= n <= |calls|
  {
    && NoSuccess(calls, from, n)
    && forall i :: from <= i < n ==> After(c, calls, i + 1).openUntil == After(c, calls, i).openUntil
  }

  /** The counter holds exactly the 5xx-class failures since the last success or
      opening (the call before the returned position; 0 when there was none). */
  lemma {:induction false} CounterCountsFailures(c: Config, calls: seq<Call>, n: nat) returns (from: nat)
    requires c.threshold >= 1 && n <= |calls|
    ensures from <= n && After(c, calls, from).failures == 0
    ensures Quiet(c, calls, from, n)
    ensures After(c, calls, n).failures == Failovers(calls, from, n) < c.threshold
    ensures from > 0 ==> calls[from - 1].outcome == Success ||
                         (calls[from - 1].outcome == Failover &&
                           After(c, calls, from).openUntil == calls[from - 1].end + c.cooldown)
  {
    BelowThreshold(c, calls, n);
    if n == 0 {
      from := 0;
    } else {
      from := CounterCountsFailures(c, calls, n - 1);
      var last := calls[n - 1].outcome;
      if last == Success || (last == Failover && After(c, calls, n - 1).failures + 1 >= c.threshold) {
        from := n;
      }
    }
  }

  /** From call i on, with no success: either the breaker has opened since, or
      the counter has counted every failure. */
  lemma {:induction false} OpenedOrCounted(c: Config, calls: seq<Call>, i: nat, n: nat)
    requires c.threshold >= 1 && OnClock(calls) && i < n <= |calls| && NoSuccess(calls, i, n)
    ensures After(c, calls, n).openUntil >= calls[i].end + c.cooldown
            || After(c, calls, n).failures == After(c, calls, i).failures + Failovers(calls, i, n)
  {
    if i < n - 1 {
      OpenedOrCounted(c, calls, i, n - 1);
      assert calls[i].end <= calls[n - 1].start <= calls[n - 1].end;
    }
  }

  /** Any threshold + 1 of a provider's 5xx-class failures, with no success among
      them, span at least the cooldown. */
  lemma FailuresSpanCooldown(c: Config, calls: seq<Call>, i: nat, j: nat)
    requires c.threshold >= 1 && IsRun(c, calls) && i < j < |calls|
    requires NoSuccess(calls, i, j + 1) && calls[j].outcome == Failover
    requires Failovers(calls, i, j + 1) == c.threshold + 1
    ensures calls[j].end - calls[i].end >= c.cooldown
  {
    OpenedOrCounted(c, calls, i, j);
    BelowThreshold(c, calls, j);
    assert LetThrough(c, calls, j);
  }

  /** Call k fills the counter. */
  ghost predicate FillsCounter(c: Config, calls: seq<Call>, k: nat)
    requires k < |calls|
  {
    calls[k].outcome == Failover && After(c, calls, k).failures + 1 >= c.threshold
  }

  /** At any time after a run the next call is let through exactly when the cooldown
      is over since every call that filled the counter. */
  lemma {:induction false} LetThroughExactly(c: Config, calls: seq<Call>, n: nat, now: nat)
    requires IsRun(c, calls) && n <= |calls|
    ensures Allow(After(c, calls, n), now) <==>
            forall k :: 0 <= k < n && FillsCounter(c, calls, k) ==> calls[k].end + c.cooldown <= now
  {
    if n > 0 {
      LetThroughExactly(c, calls, n - 1, now);
      assert LetThrough(c, calls, n - 1);
      LetThroughExactly(c, calls, n - 1, calls[n - 1].start);
      if FillsCounter(c, calls, n - 1) {
        assert After(c, calls, n).openUntil == calls[n - 1].end + c.cooldown;
      }
    }
  }

  // ----- after the cooldown -----

  /** The breaker is open once call k has ended. */
  predicate Opened(c: Config, calls: seq<Call>, k: nat)
    requires k < |calls|
  {
    !Allow(After(c, calls, k + 1), calls[k].end)
  }

  /** A call of a run opens the breaker exactly when its failure fills the counter. */
  lemma OpenedWhen(c: Config, calls: seq<Call>, k: nat)
    requires c.cooldown > 0 && IsRun(c, calls) && k < |calls|
    ensures Opened(c, calls, k) <==> calls[k].outcome == Failover && After(c, calls, k).failures + 1 >= c.threshold
  {
    assert LetThrough(c, calls, k) && calls[k].start <= calls[k].end;
  }

  /** The breaker has opened again between call k and the n-th. */
  ghost predicate OpenedAgain(c: Config, calls: seq<Call>, k: nat, n: nat)
    requires k < n <= |calls|
  {
    exists i :: k < i < n && Opened(c, calls, i)
  }

  lemma {:induction false} CountsAgain(c: Config, calls: seq<Call>, k: nat, n: nat)
    requires c.threshold >= 1 && c.cooldown > 0 && IsRun(c, calls) && k < n <= |calls|
    requires Opened(c, calls, k) && NoSuccess(calls, k + 1, n)
    ensures OpenedAgain(c, calls, k, n) <==> Failovers(calls, k + 1, n) >= c.threshold
    ensures !OpenedAgain(c, calls, k, n) ==> After(c, calls, n).failures == Failovers(calls, k + 1, n)
  {
    if n == k + 1 {
      OpenedWhen(c, calls, k);
    } else {
      CountsAgain(c, calls, k, n - 1);
      OpenedWhen(c, calls, n - 1);
      assert OpenedAgain(c, calls, k, n) <==> OpenedAgain(c, calls, k, n - 1) || Opened(c, calls, n - 1);
    }
  }

  /** From an opening on, as long as no call succeeds, the breaker has opened
      again exactly when a full threshold of calls has failed since; it does so at
      the failure that completes the threshold. */
  lemma OpensAgain(c: Config, calls: seq<Call>, k: nat, n: nat)
    requires c.threshold >= 1 && c.cooldown > 0 && IsRun(c, calls) && k < n < |calls|
    requires Opened(c, calls, k) && NoSuccess(calls, k + 1, n)
    ensures OpenedAgain(c, calls, k, n) <==> Failovers(calls, k + 1, n) >= c.threshold
    ensures !OpenedAgain(c, calls, k, n) ==>
              (Opened(c, calls, n) <==> calls[n].outcome == Failover && Failovers(calls, k + 1, n + 1) == c.threshold)
  {
    CountsAgain(c, calls, k, n);
    OpenedWhen(c, calls, n);
  }

  /** Once the cooldown is over the breaker is closed, not half open: the first
      call it lets through opens it again exactly when it fails and the threshold
      is one. */
  lemma NoSingleProbe(c: Config, calls: seq<Call>, k: nat)
    requires c.threshold >= 1 && c.cooldown > 0 && IsRun(c, calls) && k + 1 < |calls| && Opened(c, calls, k)
    ensures Opened(c, calls, k + 1) <==> calls[k + 1].outcome == Failover && c.threshold == 1
  {
    OpensAgain(c, calls, k, k + 1);
  }
}
