/** The approval round trip of the WebSocket gateway (api/agent.go) as a protocol:
    requests and answers interleave in any order, under one mutex. */
module ApprovalProtocol {
  import opened Wrappers

  const MAX_EARLY_RESPONSES := 16

  datatype Response = Response(actionID: string, approved: bool, serial: nat)

  /** Where a request's select has got to. */
  datatype Phase = Waiting | Returned(response: Response) | TimedOut | Cancelled

  /** pending gives the content of each one-slot channel; blocked is a submit that
      holds the mutex inside its channel send; closed holds the requests whose
      deferred delete has run (or that never registered a channel). */
  datatype State = State(
    early: map<string, Response>,
    pending: map<string, Option<Response>>,
    requests: map<string, Phase>,
    closed: set<string>,
    blocked: Option<Response>)

  datatype Step =
    | Register(id: string)
    | Submit(response: Response)
    | Unblock
    | Receive(id: string)
    | Timeout(id: string)
    | Cancel(id: string)
    | Close(id: string)

  const INITIAL := State(map[], map[], map[], {}, None)

  /** The mutex is free unless a submit sits in its send. Action ids are unique:
      an id is registered at most once. */
  predicate Enabled(s: State, step: Step) {
    match step
    case Register(id) => s.blocked.None? && id !in s.requests
    case Submit(_) => s.blocked.None?
    case Unblock => s.blocked.Some? && s.blocked.value.actionID in s.pending &&
      s.pending[s.blocked.value.actionID].None?
    case Receive(id) => id in s.requests && s.requests[id] == Waiting && id in s.pending && s.pending[id].Some?
    case Timeout(id) => id in s.requests && s.requests[id] == Waiting
    case Cancel(id) => id in s.requests && s.requests[id] == Waiting
    case Close(id) => s.blocked.None? && id in s.requests && s.requests[id] != Waiting && id !in s.closed
  }

  function RegisterStep(s: State, id: string): State {
    if id in s.early then
      s.(early := s.early - {id}, requests := s.requests[id := Returned(s.early[id])], closed := s.closed + {id})
    else
      s.(pending := s.pending[id := None], requests := s.requests[id := Waiting])
  }

  datatype Verdict = Accepted | Dropped | Blocks

  function SubmitVerdict(s: State, r: Response): Verdict {
    if r.actionID in s.pending then (if s.pending[r.actionID].None? then Accepted else Blocks)
    else if |s.early| >= MAX_EARLY_RESPONSES then Dropped
    else Accepted
  }

  function SubmitStep(s: State, r: Response): State {
    match SubmitVerdict(s, r)
    case Dropped => s
    case Blocks => s.(blocked := Some(r))
    case Accepted =>
      if r.actionID in s.pending then s.(pending := s.pending[r.actionID := Some(r)])
      else s.(early := s.early[r.actionID := r])
  }

  function Next(s: State, step: Step): State
    requires Enabled(s, step)
  {
    match step
    case Register(id) => RegisterStep(s, id)
    case Submit(r) => SubmitStep(s, r)
    case Unblock => s.(pending := s.pending[s.blocked.value.actionID := s.blocked], blocked := None)
    case Receive(id) => s.(pending := s.pending[id := None],
      requests := s.requests[id := Returned(s.pending[id].value)])
    case Timeout(id) => s.(requests := s.requests[id := TimedOut])
    case Cancel(id) => s.(requests := s.requests[id := Cancelled])
    case Close(id) => s.(pending := s.pending - {id}, closed := s.closed + {id})
  }

  // ----- safety of every interleaving -----

  /** The early buffer is bounded, files each answer under its own id, and holds
      none for an id with a channel. */
  ghost predicate EarlyInv(early: map<string, Response>, pending: Channels) {
    && (forall id :: id in early ==> id !in pending && early[id].actionID == id)
    && |early| <= MAX_EARLY_RESPONSES
  }

  type Channels = map<string, Option<Response>>
  type Phases = map<string, Phase>

  /** Every answer sits with the request it is for; a request has a channel until
      it closes, and waits only while it has one. */
  ghost predicate SlotsInv(pending: Channels, requests: Phases, closed: set<string>) {
    && (forall id :: id in pending && pending[id].Some? ==> pending[id].value.actionID == id)
    && (forall id :: id in requests && requests[id].Returned? ==> requests[id].response.actionID == id)
    && (forall id :: id in pending <==> id in requests && id !in closed)
    && (forall id :: id in closed ==> id in requests && requests[id] != Waiting)
  }

  ghost predicate Inv(s: State) {
    && EarlyInv(s.early, s.pending)
    && SlotsInv(s.pending, s.requests, s.closed)
    && (s.blocked.Some? ==> s.blocked.value.actionID in s.pending)
  }

  lemma Sizes<K, V>(m: map<K, V>, k: K, v: V)
    ensures |m - {k}| <= |m| && |m[k := v]| <= |m| + 1
  {
    assert (m - {k}).Keys == m.Keys - {k};
    assert m[k := v].Keys == m.Keys + {k};
    assert |m| == |m.Keys| && |m - {k}| == |(m - {k}).Keys| && |m[k := v]| == |m[k := v].Keys|;
  }

  lemma RegisterKeepsInv(s: State, id: string)
    requires Inv(s) && Enabled(s, Register(id))
    ensures Inv(RegisterStep(s, id))
  {
    if id in s.early {
      Sizes(s.early, id, s.early[id]);
      AnsweredEarly(s.pending, s.requests, s.closed, s.early[id]);
    } else {
      NewRequest(s.pending, s.requests, s.closed, id);
    }
  }

  lemma AnsweredEarly(pending: Channels, requests: Phases, closed: set<string>, r: Response)
    requires SlotsInv(pending, requests, closed) && r.actionID !in requests
    ensures SlotsInv(pending, requests[r.actionID := Returned(r)], closed + {r.actionID})
  {
  }

  lemma NewRequest(pending: Channels, requests: Phases, closed: set<string>, id: string)
    requires SlotsInv(pending, requests, closed) && id !in requests
    ensures SlotsInv(pending[id := None], requests[id := Waiting], closed)
  {
  }

  lemma SubmitKeepsInv(s: State, r: Response)
    requires Inv(s) && Enabled(s, Submit(r))
    ensures Inv(SubmitStep(s, r))
  {
    if r.actionID !in s.pending && |s.early| < MAX_EARLY_RESPONSES {
      EarlyGrows(s.early, s.pending, r);
    }
  }

  lemma EarlyGrows(early: map<string, Response>, pending: Channels, r: Response)
    requires EarlyInv(early, pending) && r.actionID !in pending && |early| < MAX_EARLY_RESPONSES
    ensures EarlyInv(early[r.actionID := r], pending)
  {
    var id := r.actionID;
    Sizes(early, id, r);
    var more := early[id := r];
    assert |more| <= MAX_EARLY_RESPONSES;
    assert forall k :: k in more ==> k !in pending && more[k].actionID == k;
  }

  lemma OtherStepsKeepInv(s: State, step: Step)
    requires Inv(s) && Enabled(s, step) && !step.Register? && !step.Submit?
    ensures Inv(Next(s, step))
  {
    match step {
      case Unblock =>
      case Receive(_) =>
      case Timeout(_) =>
      case Cancel(_) =>
      case Close(_) =>
    }
  }

  /** Every step keeps the invariant. */
  lemma StepKeepsInv(s: State, step: Step)
    requires Inv(s) && Enabled(s, step)
    ensures Inv(Next(s, step))
  {
    match step {
      case Register(id) => RegisterKeepsInv(s, id);
      case Submit(r) => SubmitKeepsInv(s, r);
      case _ => OtherStepsKeepInv(s, step);
    }
  }

  /** What a request returned is settled: it is never replaced. */
  lemma ResultsAreFinal(s: State, step: Step, id: string)
    requires Inv(s) && Enabled(s, step) && id in s.requests && s.requests[id] != Waiting
    ensures id in Next(s, step).requests && Next(s, step).requests[id] == s.requests[id]
  {
  }

  // ----- whole runs -----

  ghost predicate IsRun(steps: seq<Step>)
    decreases |steps|, 0
  {
    steps == [] || (IsRun(steps[..|steps| - 1]) && Enabled(After(steps[..|steps| - 1]), steps[|steps| - 1]))
  }

  ghost function After(steps: seq<Step>): State
    requires IsRun(steps)
    decreases |steps|, 1
  {
    if steps == [] then INITIAL else Next(After(steps[..|steps| - 1]), steps[|steps| - 1])
  }

  /** The responses accepted so far: put in a channel slot or the early buffer. */
  ghost function AcceptedIn(steps: seq<Step>): set<Response>
    requires IsRun(steps)
  {
    if steps == [] then {} else
    var before, step := steps[..|steps| - 1], steps[|steps| - 1];
    AcceptedIn(before) +
    (if step.Submit? && SubmitVerdict(After(before), step.response) == Accepted then {step.response}
     else if step.Unblock? then {After(before).blocked.value}
     else {})
  }

  lemma {:induction false} RunKeepsInv(steps: seq<Step>)
    requires IsRun(steps)
    ensures Inv(After(steps))
  {
    if steps != [] {
      RunKeepsInv(steps[..|steps| - 1]);
      StepKeepsInv(After(steps[..|steps| - 1]), steps[|steps| - 1]);
    }
  }

  ghost function Submissions(steps: seq<Step>): (subs: set<Response>)
    ensures forall r :: r in subs <==> Submit(r) in steps
  {
    if steps == [] then {} else
    var n := |steps| - 1;
    assert steps == steps[..n] + [steps[n]];
    Submissions(steps[..n]) + (if steps[n].Submit? then {steps[n].response} else {})
  }

  /** Everything buffered or returned is one of these submissions. */
  ghost predicate Genuine(s: State, subs: set<Response>) {
    && (forall id :: id in s.early ==> s.early[id] in subs)
    && (forall id :: id in s.pending && s.pending[id].Some? ==> s.pending[id].value in subs)
    && (forall id :: id in s.requests && s.requests[id].Returned? ==> s.requests[id].response in subs)
    && (s.blocked.Some? ==> s.blocked.value in subs)
  }

  lemma GenuineStep(s: State, step: Step, subs: set<Response>)
    requires Genuine(s, subs) && Enabled(s, step) && (step.Submit? ==> step.response in subs)
    ensures Genuine(Next(s, step), subs)
  {
    match step {
      case Register(id) =>
      case Submit(r) =>
      case _ =>
    }
  }

  lemma {:induction false} RunIsGenuine(steps: seq<Step>)
    requires IsRun(steps)
    ensures Genuine(After(steps), Submissions(steps))
  {
    if steps != [] {
      RunIsGenuine(steps[..|steps| - 1]);
      GenuineStep(After(steps[..|steps| - 1]), steps[|steps| - 1], Submissions(steps));
    }
  }

  /** In every interleaving: no id is both early and pending, the early buffer
      holds at most 16 answers, a request returns only an answer that was
      submitted for its own id, and so no two requests return the same answer. */
  lemma ProtocolSafety(steps: seq<Step>)
    requires IsRun(steps)
    ensures var s := After(steps);
            && s.early.Keys !! s.pending.Keys && |s.early| <= MAX_EARLY_RESPONSES
            && (forall id :: id in s.requests && s.requests[id].Returned? ==>
                  s.requests[id].response.actionID == id && Submit(s.requests[id].response) in steps)
            && (forall a, b ::
                  && a in s.requests && s.requests[a].Returned?
                  && b in s.requests && s.requests[b].Returned? && a != b ==>
                  s.requests[a].response != s.requests[b].response)
  {
    RunKeepsInv(steps);
    RunIsGenuine(steps);
  }

  // ----- one answer for each id -----

  ghost predicate AnsweredOnce(steps: seq<Step>) {
    forall i, j :: 0 <= i < j < |steps| && steps[i].Submit? && steps[j].Submit? ==>
        steps[i].response.actionID != steps[j].response.actionID
  }

  ghost function AnsweredIds(steps: seq<Step>): set<string> {
    set r | r in Submissions(steps) :: r.actionID
  }

  /** Nothing is held for an id outside ids, and no submit is stuck. */
  ghost predicate Quiet(s: State, ids: set<string>) {
    && s.blocked.None?
    && (forall id :: id in s.early ==> id in ids)
    && (forall id :: id in s.pending && s.pending[id].Some? ==> id in ids)
  }

  lemma QuietStep(s: State, step: Step, ids: set<string>)
    requires Quiet(s, ids) && Enabled(s, step) && (step.Submit? ==> step.response.actionID !in ids)
    ensures Quiet(Next(s, step), ids + (if step.Submit? then {step.response.actionID} else {}))
  {
    match step {
      case Register(id) =>
      case Submit(r) =>
      case _ =>
    }
  }

  lemma LastAnswerIsNew(steps: seq<Step>)
    requires steps != [] && AnsweredOnce(steps)
    ensures var n := |steps| - 1;
            && AnsweredOnce(steps[..n])
            && (steps[n].Submit? ==> steps[n].response.actionID !in AnsweredIds(steps[..n]))
            && AnsweredIds(steps) == AnsweredIds(steps[..n]) +
                 (if steps[n].Submit? then {steps[n].response.actionID} else {})
  {
    var n := |steps| - 1;
    assert steps == steps[..n] + [steps[n]];
    if steps[n].Submit? {
      forall r | r in Submissions(steps[..n]) ensures r.actionID != steps[n].response.actionID {
        var i :| 0 <= i < n && steps[..n][i] == Submit(r);
        assert steps[i] == Submit(r);
      }
    }
  }

  /** While no id is answered twice, no submit is ever stuck in its send with the
      mutex held. */
  lemma {:induction false} NeverBlocks(steps: seq<Step>)
    requires IsRun(steps) && AnsweredOnce(steps)
    ensures Quiet(After(steps), AnsweredIds(steps))
  {
    if steps != [] {
      var n := |steps| - 1;
      LastAnswerIsNew(steps);
      NeverBlocks(steps[..n]);
      QuietStep(After(steps[..n]), steps[n], AnsweredIds(steps[..n]));
    }
  }

  /** Where an accepted answer can be. */
  ghost predicate Accounted(s: State, r: Response) {
    var id := r.actionID;
    if id !in s.requests then id in s.early && s.early[id] == r
    else match s.requests[id]
      case Waiting => id in s.pending && s.pending[id] == Some(r)
      case Returned(got) => got == r
      case _ => true
  }

  lemma AccountedStep(s: State, step: Step, r: Response)
    requires Inv(s) && s.blocked.None? && Accounted(s, r) && Enabled(s, step)
    requires step.Submit? ==> step.response.actionID != r.actionID
    ensures Accounted(Next(s, step), r)
  {
    match step {
      case Register(id) =>
      case Submit(_) =>
      case _ =>
    }
  }

  /** An answer accepted while nothing was held for its id. */
  lemma AcceptedStep(s: State, r: Response, ids: set<string>)
    requires Inv(s) && Quiet(s, ids) && r.actionID !in ids && SubmitVerdict(s, r) == Accepted
    requires !(r.actionID in s.requests && s.requests[r.actionID].Returned?)
    ensures Accounted(SubmitStep(s, r), r)
  {
  }

  lemma {:induction false} AcceptedWereSubmitted(steps: seq<Step>)
    requires IsRun(steps) && AnsweredOnce(steps)
    ensures AcceptedIn(steps) <= Submissions(steps)
  {
    if steps != [] {
      LastAnswerIsNew(steps);
      NeverBlocks(steps[..|steps| - 1]);
      AcceptedWereSubmitted(steps[..|steps| - 1]);
    }
  }

  /** A request that has returned was answered. */
  lemma {:induction false} ReturnedWasAnswered(steps: seq<Step>, id: string)
    requires IsRun(steps) && id in After(steps).requests && After(steps).requests[id].Returned?
    ensures id in AnsweredIds(steps)
  {
    RunIsGenuine(steps);
    RunKeepsInv(steps);
  }

  /** If each id is answered at most once, an accepted answer is waiting in the
      early buffer for its request, is in the channel of its waiting request, or
      was returned by it, unless the request timed out or was cancelled. */
  lemma {:induction false} AcceptedIsReturned(steps: seq<Step>, r: Response)
    requires IsRun(steps) && AnsweredOnce(steps) && r in AcceptedIn(steps)
    ensures Accounted(After(steps), r)
  {
    var n := |steps| - 1;
    var before, step := steps[..n], steps[n];
    LastAnswerIsNew(steps);
    NeverBlocks(before);
    RunKeepsInv(before);
    AcceptedWereSubmitted(before);
    if r in AcceptedIn(before) {
      AcceptedIsReturned(before, r);
      AccountedStep(After(before), step, r);
    } else {
      assert step == Submit(r);
      if r.actionID in After(before).requests && After(before).requests[r.actionID].Returned? {
        ReturnedWasAnswered(before, r.actionID);
      }
      AcceptedStep(After(before), r, AnsweredIds(before));
    }
  }

  ghost predicate HasPhase(s: State, id: string, phase: Phase) {
    id in s.requests && s.requests[id] == phase
  }

  /** A request times out or is cancelled only by a step of its own. */
  lemma {:induction false} GaveUpByStep(steps: seq<Step>, id: string, phase: Phase)
    requires IsRun(steps) && (phase == TimedOut || phase == Cancelled) && HasPhase(After(steps), id, phase)
    ensures (if phase == TimedOut then Timeout(id) else Cancel(id)) in steps
  {
    var n := |steps| - 1;
    var before, step := steps[..n], steps[n];
    if HasPhase(After(before), id, phase) {
      GaveUpByStep(before, id, phase);
      assert forall x :: x in before ==> x in steps;
    } else {
      PhaseChange(After(before), step, id, phase);
    }
  }

  lemma PhaseChange(s: State, step: Step, id: string, phase: Phase)
    requires Enabled(s, step) && (phase == TimedOut || phase == Cancelled)
    requires HasPhase(Next(s, step), id, phase) && !HasPhase(s, id, phase)
    ensures step == if phase == TimedOut then Timeout(id) else Cancel(id)
  {
    match step {
      case Register(_) =>
      case Submit(_) =>
      case _ =>
    }
  }

  /** So, with one answer for each id, an accepted answer reaches its request: once
      that is registered and unless it times out or is cancelled, it has returned
      the answer, or waits with the answer in its channel. */
  lemma AnswerReachesRequest(steps: seq<Step>, r: Response)
    requires IsRun(steps) && AnsweredOnce(steps) && r in AcceptedIn(steps)
    requires r.actionID in After(steps).requests && Timeout(r.actionID) !in steps && Cancel(r.actionID) !in steps
    ensures var s := After(steps);
            || s.requests[r.actionID] == Returned(r)
            || (s.requests[r.actionID] == Waiting && Enabled(s, Receive(r.actionID))
                && Next(s, Receive(r.actionID)).requests[r.actionID] == Returned(r))
  {
    AcceptedIsReturned(steps, r);
    if HasPhase(After(steps), r.actionID, TimedOut) { GaveUpByStep(steps, r.actionID, TimedOut); }
    if HasPhase(After(steps), r.actionID, Cancelled) { GaveUpByStep(steps, r.actionID, Cancelled); }
  }

  // ----- a second answer -----

  /** Exactly when a submit gets stuck in its send with the mutex held. */
  lemma SubmitBlocksWhen(s: State, r: Response)
    requires Inv(s) && Enabled(s, Submit(r))
    ensures Next(s, Submit(r)).blocked.Some? <==> r.actionID in s.pending && s.pending[r.actionID].Some?
  {
  }

  /** A submit is stuck and its request has stopped receiving. */
  ghost predicate Stuck(s: State) {
    && s.blocked.Some?
    && var id := s.blocked.value.actionID;
       id in s.pending && s.pending[id].Some? && id in s.requests && s.requests[id] != Waiting
  }

  /** Such a state is final for the mutex: no later step ever frees it, so no
      request registers or closes and no answer is accepted again. */
  lemma StuckForever(s: State, step: Step)
    requires Inv(s) && Stuck(s) && Enabled(s, step)
    ensures Stuck(Next(s, step)) && Inv(Next(s, step))
    ensures step.Receive? || step.Timeout? || step.Cancel?
  {
    StepKeepsInv(s, step);
  }

  /** The steps can be taken one after another from s. */
  ghost predicate Follows(s: State, steps: seq<Step>)
    decreases |steps|
  {
    steps == [] || (Enabled(s, steps[0]) && Follows(Next(s, steps[0]), steps[1..]))
  }

  ghost function Afterwards(s: State, steps: seq<Step>): State
    requires Follows(s, steps)
    decreases |steps|
  {
    if steps == [] then s else Afterwards(Next(s, steps[0]), steps[1..])
  }

  lemma {:induction false} StuckStays(s: State, steps: seq<Step>)
    requires Inv(s) && Stuck(s) && Follows(s, steps)
    ensures Stuck(Afterwards(s, steps))
    decreases |steps|
  {
    if steps != [] {
      StuckForever(s, steps[0]);
      StuckStays(Next(s, steps[0]), steps[1..]);
    }
  }

  /** Some continuation lets the blocked submit go and frees the mutex. */
  ghost predicate CanBeReleased(s: State) {
    exists steps :: Follows(s, steps) && Afterwards(s, steps).blocked.None?
  }

  lemma UnblockReleases(s: State)
    requires Enabled(s, Unblock)
    ensures CanBeReleased(s)
  {
    assert Follows(Next(s, Unblock), []);
    assert [Unblock][1..] == [];
    assert Follows(s, [Unblock]) && Afterwards(s, [Unblock]) == Next(s, Unblock);
  }

  lemma ReceiveReleases(s: State)
    requires s.blocked.Some? && Enabled(s, Receive(s.blocked.value.actionID))
    ensures CanBeReleased(s)
  {
    var first := Receive(s.blocked.value.actionID);
    UnblockReleases(Next(s, first));
    var steps :| Follows(Next(s, first), steps) && Afterwards(Next(s, first), steps).blocked.None?;
    assert ([first] + steps)[1..] == steps;
    assert Follows(s, [first] + steps);
  }

  /** A blocked submit can still be released exactly when its channel has been
      emptied or its request is still waiting and will empty it. */
  lemma ReleasedExactly(s: State)
    requires Inv(s) && s.blocked.Some?
    ensures CanBeReleased(s) <==>
              s.pending[s.blocked.value.actionID].None? || s.requests[s.blocked.value.actionID] == Waiting
  {
    if Stuck(s) {
      forall steps | Follows(s, steps) ensures Stuck(Afterwards(s, steps)) {
        StuckStays(s, steps);
      }
    } else if s.pending[s.blocked.value.actionID].None? {
      UnblockReleases(s);
    } else {
      ReceiveReleases(s);
    }
  }

  /** The mutex is lost at the moment a submit finds a full channel whose request
      no longer waits. */
  lemma BlockedForGoodExactly(s: State, r: Response)
    requires Inv(s) && Enabled(s, Submit(r)) && SubmitVerdict(s, r) == Blocks
    ensures CanBeReleased(Next(s, Submit(r))) <==> s.requests[r.actionID] == Waiting
  {
    StepKeepsInv(s, Submit(r));
    ReleasedExactly(Next(s, Submit(r)));
  }

  lemma RunAppend(steps: seq<Step>, step: Step)
    requires IsRun(steps) && Enabled(After(steps), step)
    ensures IsRun(steps + [step]) && After(steps + [step]) == Next(After(steps), step)
  {
    assert (steps + [step])[..|steps|] == steps;
  }

  /** It is reached when an answered request times out before it receives, and
      the same id is answered again before the deferred delete. */
  lemma SecondAnswerCanDeadlock(id: string, a: Response, b: Response)
    requires a.actionID == b.actionID == id
    ensures var run := [] + [Register(id)] + [Submit(a)] + [Timeout(id)] + [Submit(b)];
            IsRun(run) && Stuck(After(run))
  {
    var r0: seq<Step> := [];
    var r1 := r0 + [Register(id)];
    RunAppend(r0, Register(id));
    var r2 := r1 + [Submit(a)];
    RunAppend(r1, Submit(a));
    assert After(r2).pending == map[id := Some(a)] && After(r2).requests == map[id := Waiting] &&
      After(r2).blocked.None?;
    RunAppend(r2, Timeout(id));
    RunAppend(r2 + [Timeout(id)], Submit(b));
  }

  /** In a run a submit gets stuck only on a second answer for its id. */
  lemma OnlySecondAnswersBlock(steps: seq<Step>, r: Response)
    requires IsRun(steps) && After(steps).blocked.None? && SubmitVerdict(After(steps), r) == Blocks
    ensures exists first :: Submit(first) in steps && first.actionID == r.actionID
  {
    RunIsGenuine(steps);
    RunKeepsInv(steps);
    SubmitBlocksWhen(After(steps), r);
    var first := After(steps).pending[r.actionID].value;
    assert Submit(first) in steps && first.actionID == r.actionID;
  }

  // ----- late answers -----

  /** The ids whose answer came after their request had closed. */
  ghost function Late(s: State): set<string> {
    s.early.Keys * s.requests.Keys
  }

  /** An answer that arrives after its request has closed stays in the early
      buffer for good. */
  lemma LateAnswersStay(s: State, step: Step, id: string)
    requires Inv(s) && Enabled(s, step) && id in Late(s)
    ensures id in Late(Next(s, step))
  {
    match step {
      case Register(_) =>
      case Submit(_) =>
      case _ =>
    }
  }

  lemma {:induction false} LateStaysLate(s: State, steps: seq<Step>)
    requires Inv(s) && Follows(s, steps)
    ensures Inv(Afterwards(s, steps)) && Late(s) <= Late(Afterwards(s, steps))
    decreases |steps|
  {
    if steps != [] {
      forall id | id in Late(s) ensures id in Late(Next(s, steps[0])) {
        LateAnswersStay(s, steps[0], id);
      }
      StepKeepsInv(s, steps[0]);
      LateStaysLate(Next(s, steps[0]), steps[1..]);
    }
  }

  /** Some continuation gives the early buffer room for an answer. */
  ghost predicate CanGetRoom(s: State) {
    exists steps :: Follows(s, steps) && |Afterwards(s, steps).early| < MAX_EARLY_RESPONSES
  }

  lemma RoomByRegistering(s: State, id: string)
    requires Inv(s) && s.blocked.None? && id in s.early && id !in s.requests
    ensures CanGetRoom(s)
  {
    var next := Next(s, Register(id));
    assert next.early.Keys == s.early.Keys - {id};
    assert |next.early| == |next.early.Keys| && |s.early| == |s.early.Keys|;
    assert [Register(id)][1..] == [];
    assert Follows(next, []);
    assert Follows(s, [Register(id)]) && Afterwards(s, [Register(id)]) == next;
  }

  /** The buffer can get room again exactly while fewer than sixteen late answers
      sit in it: the others leave it when their request registers. */
  lemma RoomExactly(s: State)
    requires Inv(s) && s.blocked.None?
    ensures CanGetRoom(s) <==> |Late(s)| < MAX_EARLY_RESPONSES
  {
    assert |s.early| == |s.early.Keys|;
    if |Late(s)| < MAX_EARLY_RESPONSES {
      if |s.early| < MAX_EARLY_RESPONSES {
        assert Follows(s, []) && Afterwards(s, []) == s;
      } else {
        assert Late(s) != s.early.Keys;
        var id :| id in s.early.Keys && id !in Late(s);
        RoomByRegistering(s, id);
      }
    } else {
      forall steps | Follows(s, steps) ensures |Afterwards(s, steps).early| >= MAX_EARLY_RESPONSES {
        var later := Afterwards(s, steps);
        LateStaysLate(s, steps);
        SetSizes(Late(s), later.early.Keys);
        assert |later.early| == |later.early.Keys|;
      }
    }
  }

  lemma {:induction false} SetSizes<T>(a: set<T>, b: set<T>)
    requires a <= b
    ensures |a| <= |b|
  {
    assert b == a + (b - a);
  }

  /** Some run ends in this state. */
  ghost predicate Reached(s: State) {
    exists steps :: IsRun(steps) && After(steps) == s
  }

  lemma ReachedNext(s: State, step: Step)
    requires Reached(s) && Enabled(s, step)
    ensures Reached(Next(s, step))
  {
    var steps :| IsRun(steps) && After(steps) == s;
    RunAppend(steps, step);
  }

  lemma ReachedKeepsInv(s: State)
    requires Reached(s)
    ensures Inv(s)
  {
    var steps :| IsRun(steps) && After(steps) == s;
    RunKeepsInv(steps);
  }

  /** Only late answers are held, one for each of the ids. */
  ghost predicate OnlyLate(s: State, ids: set<string>) {
    s.blocked.None? && s.pending == map[] && s.early.Keys == ids && s.requests.Keys == ids
  }

  /** A request registers, times out and closes. */
  lemma Closed(s: State, id: string) returns (closed: State)
    requires Reached(s) && s.blocked.None? && s.pending == map[] && id !in s.requests && id !in s.early
    ensures Reached(closed) && closed.pending == map[] && closed.early == s.early && closed.blocked.None?
    ensures closed.requests.Keys == s.requests.Keys + {id}
  {
    var waiting := RegisterFirst(s, id);
    var timedOut := TimeoutOnly(waiting, id);
    closed := CloseLast(timedOut, id);
  }

  lemma RegisterFirst(s: State, id: string) returns (waiting: State)
    requires Reached(s) && s.pending == map[] && id !in s.early && Enabled(s, Register(id))
    ensures Reached(waiting) && waiting == s.(pending := map[id := None], requests := s.requests[id := Waiting])
    ensures id !in waiting.closed
  {
    ReachedKeepsInv(s);
    ReachedNext(s, Register(id));
    waiting := Next(s, Register(id));
  }

  lemma TimeoutOnly(s: State, id: string) returns (timedOut: State)
    requires Reached(s) && Enabled(s, Timeout(id))
    ensures Reached(timedOut) && timedOut == s.(requests := s.requests[id := TimedOut])
  {
    ReachedNext(s, Timeout(id));
    timedOut := Next(s, Timeout(id));
  }

  lemma CloseLast(s: State, id: string) returns (closed: State)
    requires Reached(s) && s.pending == map[id := None] && Enabled(s, Close(id))
    ensures Reached(closed) && closed == s.(pending := map[], closed := s.closed + {id})
  {
    ReachedNext(s, Close(id));
    closed := Next(s, Close(id));
    assert closed.pending == map[];
  }

  /** Any sixteen requests can come to be answered only after they have closed. */
  lemma {:induction false} LateRun(ids: set<string>) returns (s: State)
    requires |ids| <= MAX_EARLY_RESPONSES
    ensures Reached(s) && OnlyLate(s, ids)
  {
    if ids == {} {
      s := INITIAL;
      assert IsRun([]) && After([]) == s;
    } else {
      var id :| id in ids;
      var before := LateRun(ids - {id});
      var closed := Closed(before, id);
      var late := Submit(Response(id, true, 0));
      assert |closed.early| == |closed.early.Keys|;
      ReachedNext(closed, late);
      s := Next(closed, late);
      assert ids == ids - {id} + {id};
    }
  }

  /** From then on no answer for an id without a channel is accepted, whatever
      happens: sixteen late answers leave no room for early ones. */
  lemma LateAnswersFillBuffer(ids: set<string>)
    requires |ids| == MAX_EARLY_RESPONSES
    ensures exists s :: Reached(s) && OnlyLate(s, ids) && NeverAcceptsEarly(s)
  {
    var s := LateRun(ids);
    ReachedKeepsInv(s);
    assert Late(s) == ids;
    RoomExactly(s);
    forall steps, r: Response | Follows(s, steps) && r.actionID !in Afterwards(s, steps).pending
      ensures SubmitVerdict(Afterwards(s, steps), r) == Dropped
    {
      assert |Afterwards(s, steps).early| >= MAX_EARLY_RESPONSES;
    }
  }

  ghost predicate NeverAcceptsEarly(s: State) {
    forall steps, r: Response :: Follows(s, steps) && r.actionID !in Afterwards(s, steps).pending ==>
      SubmitVerdict(Afterwards(s, steps), r) == Dropped
  }
}
