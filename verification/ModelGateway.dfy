/** ChatCompletion of the model gateway (agent/llm/gateway.go): providers are
    tried in order, past those whose breaker is open. */
module ModelGateway {
  import opened Wrappers
  import opened CircuitBreaker

  const DEFAULT_THRESHOLD := 3
  const DEFAULT_COOLDOWN := 30_000_000_000  // 30 seconds in nanoseconds

  datatype Answer =
    | From(provider: nat)
    | ErrorFrom(provider: nat)
    | AllOpen

  // attempts[i] is what calling provider i now would give.

  predicate Tried(states: seq<State>, attempts: seq<Call>, i: nat)
    requires |states| == |attempts| && i < |states|
  {
    Allow(states[i], attempts[i].start)
  }

  /** Provider i is allowed and settles the request: success, or an error that a
      fallback would only repeat. */
  predicate Settles(states: seq<State>, attempts: seq<Call>, i: nat)
    requires |states| == |attempts| && i < |states|
  {
    Tried(states, attempts, i) && attempts[i].outcome != Failover
  }

  /** Provider i is allowed and no provider before it settles the request. */
  ghost predicate Called(states: seq<State>, attempts: seq<Call>, i: nat)
    requires |states| == |attempts| && i < |states|
  {
    Tried(states, attempts, i) && forall j :: 0 <= j < i ==> !Settles(states, attempts, j)
  }

  /** The allowed ones among the first n providers. */
  function AllowedOf(states: seq<State>, attempts: seq<Call>, n: nat): seq<nat>
    requires |states| == |attempts| && n <= |states|
  {
    if n == 0 then []
    else AllowedOf(states, attempts, n - 1) + (if Tried(states, attempts, n - 1) then [n - 1] else [])
  }

  /** ps are in increasing order exactly the allowed ones among the first n. */
  ghost predicate InOrder(states: seq<State>, attempts: seq<Call>, n: nat, ps: seq<nat>)
    requires |states| == |attempts| && n <= |states|
  {
    && (forall j :: 0 <= j < |ps| ==> ps[j] < n && Tried(states, attempts, ps[j]))
    && (forall k :: 0 <= k < n && Tried(states, attempts, k) ==> k in ps)
    && (forall j, k :: 0 <= j < k < |ps| ==> ps[j] < ps[k])
  }

  lemma {:induction false} AllowedInOrder(states: seq<State>, attempts: seq<Call>, n: nat)
    requires |states| == |attempts| && n <= |states|
    ensures InOrder(states, attempts, n, AllowedOf(states, attempts, n))
  {
    if n > 0 { AllowedInOrder(states, attempts, n - 1); }
  }

  /** What a request does to the breakers: the called providers, in order, are
      exactly the allowed ones up to the first that settles it; the answer is the
      last one's, or the report that every breaker is open; only called breakers
      change. */
  ghost predicate Served(c: Config, before: seq<State>, after: seq<State>, attempts: seq<Call>,
      answer: Answer, tried: seq<nat>)
    requires |before| == |attempts| == |after|
  {
    && (forall j :: 0 <= j < |tried| ==> tried[j] < |before| && Called(before, attempts, tried[j]))
    && (forall k :: 0 <= k < |before| && Called(before, attempts, k) ==> k in tried)
    && (forall j, k :: 0 <= j < k < |tried| ==> tried[j] < tried[k])
    && (match answer
        case From(p) => tried != [] && p == tried[|tried| - 1] && attempts[p].outcome == Success
        case ErrorFrom(p) => tried != [] && p == tried[|tried| - 1] && attempts[p].outcome != Success
        case AllOpen => tried == [])
    && (forall k :: 0 <= k < |before| ==>
          after[k] == if Called(before, attempts, k) then Observe(c, before[k], attempts[k]) else before[k])
  }

  /** The breakers after the first n providers have had their turn. */
  ghost predicate Turned(c: Config, before: seq<State>, after: seq<State>, attempts: seq<Call>, n: nat)
    requires |before| == |attempts| == |after| && n <= |before|
  {
    forall k :: 0 <= k < |before| ==>
      after[k] == if k < n && Tried(before, attempts, k) then Observe(c, before[k], attempts[k]) else before[k]
  }

  lemma SettledAt(c: Config, before: seq<State>, after: seq<State>, attempts: seq<Call>, i: nat)
    requires |before| == |attempts| == |after| && i < |before|
    requires forall k :: 0 <= k < i ==> !Settles(before, attempts, k)
    requires Settles(before, attempts, i) && Turned(c, before, after, attempts, i + 1)
    ensures Served(c, before, after, attempts,
                   if attempts[i].outcome == Success then From(i) else ErrorFrom(i),
                   AllowedOf(before, attempts, i + 1))
  {
    AllowedInOrder(before, attempts, i + 1);
  }

  lemma NoneSettles(c: Config, before: seq<State>, after: seq<State>, attempts: seq<Call>)
    requires |before| == |attempts| == |after|
    requires forall k :: 0 <= k < |before| ==> !Settles(before, attempts, k)
    requires Turned(c, before, after, attempts, |before|)
    ensures var tried := AllowedOf(before, attempts, |before|);
            Served(c, before, after, attempts, if tried == [] then AllOpen else ErrorFrom(tried[|tried| - 1]), tried)
  {
    AllowedInOrder(before, attempts, |before|);
    var tried := AllowedOf(before, attempts, |before|);
    forall j | 0 <= j < |tried| ensures Called(before, attempts, tried[j]) && attempts[tried[j]].outcome == Failover {
      assert !Settles(before, attempts, tried[j]);
    }
  }

  // ----- many requests, one after another -----

  /** What each provider would give each request. Every request finds all calls
      of the requests before it ended. */
  ghost predicate OneClock(requests: seq<seq<Call>>, providers: nat) {
    && (forall r :: 0 <= r < |requests| ==> |requests[r]| == providers)
    && (forall r, p :: 0 <= r < |requests| && 0 <= p < providers ==> requests[r][p].start <= requests[r][p].end)
    && (forall q, r, p :: 0 <= q < r < |requests| && 0 <= p < providers ==> requests[q][p].end <= requests[r][p].start)
  }

  /** The calls provider p got from the first n requests. */
  function CallsTo(requests: seq<seq<Call>>, tried: seq<seq<nat>>, p: nat, n: nat): seq<Call>
    requires n <= |tried| && n <= |requests| && forall r :: 0 <= r < n ==> p < |requests[r]|
  {
    if n == 0 then []
    else CallsTo(requests, tried, p, n - 1) + (if p in tried[n - 1] then [requests[n - 1][p]] else [])
  }

  /** Provider p's breaker according to the calls it got from the first n requests. */
  function StateOf(c: Config, requests: seq<seq<Call>>, tried: seq<seq<nat>>, p: nat, n: nat): State
    requires n <= |tried| && n <= |requests| && forall r :: 0 <= r < n ==> p < |requests[r]|
  {
    var calls := CallsTo(requests, tried, p, n);
    After(c, calls, |calls|)
  }

  function StatesAfter(c: Config, requests: seq<seq<Call>>, tried: seq<seq<nat>>, providers: nat, n: nat)
      : (s: seq<State>)
    requires n <= |tried| && n <= |requests| && forall r :: 0 <= r < n ==> |requests[r]| == providers
    ensures |s| == providers
  {
    seq(providers, p requires 0 <= p < providers => StateOf(c, requests, tried, p, n))
  }

  lemma {:induction false} CallsToPrefix(requests: seq<seq<Call>>, tried: seq<seq<nat>>, more: seq<nat>, p: nat, n: nat)
    requires n <= |tried| && n <= |requests| && forall r :: 0 <= r < n ==> p < |requests[r]|
    ensures CallsTo(requests, tried + [more], p, n) == CallsTo(requests, tried, p, n)
  {
    if n > 0 { CallsToPrefix(requests, tried, more, p, n - 1); }
  }

  lemma {:induction false} CallsEndBy(requests: seq<seq<Call>>, tried: seq<seq<nat>>, p: nat, n: nat, t: nat)
    requires n <= |tried| && n <= |requests| && forall r :: 0 <= r < n ==> p < |requests[r]| && requests[r][p].end <= t
    ensures forall i :: 0 <= i < |CallsTo(requests, tried, p, n)| ==> CallsTo(requests, tried, p, n)[i].end <= t
  {
    if n > 0 { CallsEndBy(requests, tried, p, n - 1, t); }
  }

  /** One more request keeps provider p's calls a run of its breaker. */
  lemma RequestKeepsRun(c: Config, requests: seq<seq<Call>>, tried: seq<seq<nat>>, providers: nat, p: nat, n: nat)
    requires OneClock(requests, providers) && p < providers && n < |tried| && n < |requests|
    requires IsRun(c, CallsTo(requests, tried, p, n))
    requires p in tried[n] ==> Allow(StateOf(c, requests, tried, p, n), requests[n][p].start)
    ensures IsRun(c, CallsTo(requests, tried, p, n + 1))
    ensures StateOf(c, requests, tried, p, n + 1) ==
            if p in tried[n] then Observe(c, StateOf(c, requests, tried, p, n), requests[n][p])
              else StateOf(c, requests, tried, p, n)
  {
    var calls := CallsTo(requests, tried, p, n);
    CallsEndBy(requests, tried, p, n, requests[n][p].start);
    if p in tried[n] {
      RunGoesOn(c, calls, requests[n][p]);
    } else {
      assert calls + [] == calls;
    }
  }

  /** Request r was served as one request is, on the breakers that the requests
      before it left. */
  ghost predicate ServedAt(c: Config, requests: seq<seq<Call>>, answers: seq<Answer>, tried: seq<seq<nat>>,
      providers: nat, r: nat)
    requires r < |answers| && r < |tried| && r < |requests| && forall q :: 0 <= q <= r ==> |requests[q]| == providers
  {
    Served(c, StatesAfter(c, requests, tried, providers, r), StatesAfter(c, requests, tried, providers, r + 1),
           requests[r], answers[r], tried[r])
  }

  /** Every provider's calls so far are a run of its own breaker. */
  ghost predicate AllRuns(c: Config, requests: seq<seq<Call>>, tried: seq<seq<nat>>, providers: nat)
    requires |tried| <= |requests| && forall r :: 0 <= r < |tried| ==> |requests[r]| == providers
  {
    forall p :: 0 <= p < providers ==> IsRun(c, CallsTo(requests, tried, p, |tried|))
  }

  /** All requests were, and every provider's calls are a run of its own breaker. */
  ghost predicate AllServed(c: Config, requests: seq<seq<Call>>, answers: seq<Answer>,
      tried: seq<seq<nat>>, providers: nat)
    requires |answers| == |tried| <= |requests| && forall r :: 0 <= r < |tried| ==> |requests[r]| == providers
  {
    && AllRuns(c, requests, tried, providers)
    && (forall r :: 0 <= r < |tried| ==> ServedAt(c, requests, answers, tried, providers, r))
  }

  lemma StatesPrefix(c: Config, requests: seq<seq<Call>>, tried: seq<seq<nat>>, more: seq<nat>, providers: nat, n: nat)
    requires n <= |tried| && n <= |requests| && forall r :: 0 <= r < n ==> |requests[r]| == providers
    ensures StatesAfter(c, requests, tried + [more], providers, n) == StatesAfter(c, requests, tried, providers, n)
  {
    forall p | 0 <= p < providers
      ensures StateOf(c, requests, tried + [more], p, n) == StateOf(c, requests, tried, p, n) {
      CallsToPrefix(requests, tried, more, p, n);
    }
  }

  /** What one more served request does to provider p. */
  lemma ProviderGoesOn(c: Config, requests: seq<seq<Call>>, tried: seq<seq<nat>>, providers: nat,
      after: seq<State>, answer: Answer, more: seq<nat>, p: nat)
    requires |tried| < |requests| && OneClock(requests, providers) && |after| == providers && p < providers
    requires IsRun(c, CallsTo(requests, tried, p, |tried|))
    requires Served(c, StatesAfter(c, requests, tried, providers, |tried|), after, requests[|tried|], answer, more)
    ensures IsRun(c, CallsTo(requests, tried + [more], p, |tried| + 1))
    ensures StateOf(c, requests, tried + [more], p, |tried| + 1) == after[p]
  {
    CallsToPrefix(requests, tried, more, p, |tried|);
    assert p in more <==> Called(StatesAfter(c, requests, tried, providers, |tried|), requests[|tried|], p);
    RequestKeepsRun(c, requests, tried + [more], providers, p, |tried|);
  }

  /** A later request changes nothing about how an earlier one was served. */
  lemma StaysServed(c: Config, requests: seq<seq<Call>>, answers: seq<Answer>, tried: seq<seq<nat>>, providers: nat,
      answer: Answer, more: seq<nat>, r: nat)
    requires r < |answers| == |tried| < |requests| && forall q :: 0 <= q <= |tried| ==> |requests[q]| == providers
    requires ServedAt(c, requests, answers, tried, providers, r)
    ensures ServedAt(c, requests, answers + [answer], tried + [more], providers, r)
  {
    StatesPrefix(c, requests, tried, more, providers, r);
    StatesPrefix(c, requests, tried, more, providers, r + 1);
  }

  lemma StatesGoOn(c: Config, requests: seq<seq<Call>>, tried: seq<seq<nat>>, providers: nat, after: seq<State>,
      answer: Answer, more: seq<nat>)
    requires |tried| < |requests| && OneClock(requests, providers) && |after| == providers
    requires AllRuns(c, requests, tried, providers)
    requires Served(c, StatesAfter(c, requests, tried, providers, |tried|), after, requests[|tried|], answer, more)
    ensures StatesAfter(c, requests, tried + [more], providers, |tried| + 1) == after
    ensures AllRuns(c, requests, tried + [more], providers)
  {
    var n := |tried| + 1;
    assert |tried + [more]| == n;
    forall p | 0 <= p < providers
      ensures IsRun(c, CallsTo(requests, tried + [more], p, n))
      ensures StateOf(c, requests, tried + [more], p, n) == after[p]
    {
      ProviderGoesOn(c, requests, tried, providers, after, answer, more, p);
    }
    assert forall p :: 0 <= p < providers ==> StatesAfter(c, requests, tried + [more], providers, n)[p] == after[p];
  }

  lemma OneMoreServed(c: Config, requests: seq<seq<Call>>, answers: seq<Answer>, tried: seq<seq<nat>>, providers: nat,
      after: seq<State>, answer: Answer, more: seq<nat>)
    requires |answers| == |tried| < |requests| && OneClock(requests, providers) && |after| == providers
    requires AllServed(c, requests, answers, tried, providers)
    requires Served(c, StatesAfter(c, requests, tried, providers, |tried|), after, requests[|tried|], answer, more)
    ensures StatesAfter(c, requests, tried + [more], providers, |tried| + 1) == after
    ensures AllServed(c, requests, answers + [answer], tried + [more], providers)
  {
    StatesGoOn(c, requests, tried, providers, after, answer, more);
    StatesPrefix(c, requests, tried, more, providers, |tried|);
    assert ServedAt(c, requests, answers + [answer], tried + [more], providers, |tried|);
    forall r | 0 <= r < |tried| ensures ServedAt(c, requests, answers + [answer], tried + [more], providers, r) {
      StaysServed(c, requests, answers, tried, providers, answer, more, r);
    }
  }

  /** Of the calls the gateway makes to one provider, any threshold + 1 5xx-class
      failures with no success among them span at least the cooldown. */
  lemma ProviderIsSpared(c: Config, requests: seq<seq<Call>>, answers: seq<Answer>, tried: seq<seq<nat>>,
      providers: nat, p: nat, i: nat, j: nat)
    requires |answers| == |tried| <= |requests| && OneClock(requests, providers) && p < providers && c.threshold >= 1
    requires AllServed(c, requests, answers, tried, providers)
    requires i < j < |CallsTo(requests, tried, p, |tried|)|
    requires var calls := CallsTo(requests, tried, p, |tried|);
             NoSuccess(calls, i, j + 1) && calls[j].outcome == Failover && Failovers(calls, i, j + 1) == c.threshold + 1
    ensures var calls := CallsTo(requests, tried, p, |tried|); calls[j].end - calls[i].end >= c.cooldown
  {
    FailuresSpanCooldown(c, CallsTo(requests, tried, p, |tried|), i, j);
  }

  class Gateway {
    const config: Config
    const breakers: seq<Breaker>

    ghost predicate Valid()
    {
      && breakers != []
      && (forall i, j :: 0 <= i < j < |breakers| ==> breakers[i] != breakers[j])
      && (forall i :: 0 <= i < |breakers| ==> breakers[i].config == config)
    }

    constructor (providers: nat, threshold: int, cooldown: int)
      requires providers >= 1
      ensures Valid() && |breakers| == providers && fresh(breakers)
      ensures config.threshold == (if threshold <= 0 then DEFAULT_THRESHOLD else threshold) &&
              config.cooldown == (if cooldown <= 0 then DEFAULT_COOLDOWN else cooldown)
      ensures forall i :: 0 <= i < providers ==> breakers[i].Abstract() == CLOSED
    {
      var c := Config(
        if threshold <= 0 then DEFAULT_THRESHOLD else threshold,
        if cooldown <= 0 then DEFAULT_COOLDOWN else cooldown);
      var bs: seq<Breaker> := [];
      for i := 0 to providers
        invariant |bs| == i && fresh(bs)
        invariant forall j, k :: 0 <= j < k < i ==> bs[j] != bs[k]
        invariant forall j :: 0 <= j < i ==> bs[j].config == c && bs[j].Abstract() == CLOSED
      {
        var b := new Breaker(c);
        bs := bs + [b];
      }
      config, breakers := c, bs;
    }

    ghost function States(): (s: seq<State>)
      reads breakers
      ensures |s| == |breakers| && forall i :: 0 <= i < |breakers| ==> s[i] == breakers[i].Abstract()
    {
      seq(|breakers|, i requires 0 <= i < |breakers| reads breakers => breakers[i].Abstract())
    }

    /** One provider: skipped while its breaker is open, else called and its
        breaker told how the call ended. No other breaker changes. */
    method Try(i: nat, attempt: Call) returns (called: bool)
      requires Valid() && i < |breakers|
      modifies breakers[i]
      ensures called == Allow(old(States())[i], attempt.start)
      ensures States() == if called then old(States())[i := Observe(config, old(States())[i], attempt)]
              else old(States())
    {
      var b := breakers[i];
      if b.openUntil > attempt.start {
        return false;
      }
      match attempt.outcome {
        case Success => b.RecordSuccess();
        case OtherError =>
        case Failover => b.RecordFailure(attempt.end);
      }
      return true;
    }

    method ChatCompletion(attempts: seq<Call>) returns (answer: Answer, tried: seq<nat>)
      requires Valid() && |attempts| == |breakers|
      modifies breakers
      ensures Served(config, old(States()), States(), attempts, answer, tried)
    {
      ghost var was := States();
      tried, answer := [], AllOpen;
      for i := 0 to |breakers|
        invariant tried == AllowedOf(was, attempts, i)
        invariant forall k :: 0 <= k < i ==> !Settles(was, attempts, k)
        invariant answer == if tried == [] then AllOpen else ErrorFrom(tried[|tried| - 1])
        invariant Turned(config, was, States(), attempts, i)
      {
        var called := Try(i, attempts[i]);
        if called {
          tried := tried + [i];
          if attempts[i].outcome != Failover {
            answer := if attempts[i].outcome == Success then From(i) else ErrorFrom(i);
            SettledAt(config, was, States(), attempts, i);
            return;
          }
          answer := ErrorFrom(i);
        }
      }
      NoneSettles(config, was, States(), attempts);
    }

    /** Requests one after another: what the breakers hold is what the calls each
        provider got make of a closed breaker, so what every run of one breaker
        satisfies, the gateway's providers do. */
    method Serve(requests: seq<seq<Call>>) returns (answers: seq<Answer>, tried: seq<seq<nat>>)
      requires Valid() && OneClock(requests, |breakers|)
      requires forall p :: 0 <= p < |breakers| ==> breakers[p].Abstract() == CLOSED
      modifies breakers
      ensures |answers| == |tried| == |requests|
      ensures AllServed(config, requests, answers, tried, |breakers|)
      ensures States() == StatesAfter(config, requests, tried, |breakers|, |requests|)
    {
      answers, tried := [], [];
      for r := 0 to |requests|
        invariant |answers| == |tried| == r
        invariant AllServed(config, requests, answers, tried, |breakers|)
        invariant States() == StatesAfter(config, requests, tried, |breakers|, r)
      {
        var answer, order := ChatCompletion(requests[r]);
        OneMoreServed(config, requests, answers, tried, |breakers|, States(), answer, order);
        answers, tried := answers + [answer], tried + [order];
      }
    }
  }
}
