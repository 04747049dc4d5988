/** The agent runtime (agent/runtime): ReAct turns, plan mode and the executor's
    approval gate, changing one session. The model, the approval gateway, plan
    parsing and validation, and tool handlers are arbitrary: each call may fail
    or answer anything. */
module AgentRuntime {
  import opened Wrappers
  import opened Strings
  import opened Transcript
  import opened RunLog
  import S = Safety
  import T = ToolNames

  datatype ChatResponse = ChatResponse(content: string, toolCalls: seq<ToolCall>)
  datatype PlanStep = PlanStep(operation: string, args: S.Args)
  datatype Answer = Answer(approved: bool, payload: Option<S.Args>)
  datatype Outcome = Outcome(observation: string, recordCount: Option<nat>)
  datatype Response = Response(content: string, toolCalls: nat)
  datatype Error = Rejected | ModelFailed | TooManySteps

  const CORRECTION_PROMPT := "Your previous plan was rejected before any step executed. Produce a corrected plan."

  /** One conversation's state (session.go). */
  class Session {
    var transcript: seq<Message>
    var seen: set<string>
    var targetDoc: string
    var targetCount: nat

    constructor ()
      ensures transcript == [] && seen == {} && targetCount == 0
    {
      transcript, seen, targetDoc, targetCount := [], {}, "", 0;
    }

    /** The count applies only to the DocType it was recorded for. */
    function TargetCount(docType: string): nat
      reads this
    {
      if docType == "" || targetDoc != docType then 0 else targetCount
    }
  }

  method HasDataDependency(calls: seq<ToolCall>) returns (found: bool)
    ensures found <==> DataDependency(calls)
  {
    for i := 0 to |calls|
      invariant forall p, q: nat :: 0 <= q < p < i ==> !Contains(calls[p].arguments, REF_PREFIX + Itoa(q))
    {
      for j := 0 to i
        invariant forall q: nat :: 0 <= q < j ==> !Contains(calls[i].arguments, REF_PREFIX + Itoa(q))
      {
        if Contains(calls[i].arguments, REF_PREFIX + Itoa(j)) {
          return true;
        }
      }
    }
    return false;
  }

  // ----- references between plan steps -----

  /** What the policy is asked about a plan's step: no recorded target count. */
  function StepInfo(step: PlanStep): S.ToolCallInfo {
    S.ToolCallInfo(S.VerbFor(step.operation, step.args), step.operation, step.args, 0)
  }

  /** resolveRefs; None when a reference cannot be resolved. */
  method ResolveRefs(args: S.Args) returns (resolved: Option<S.Args>)
    ensures resolved.Some? ==> Resolves(args, resolved.value)
  {
    var out: S.Args := map[];
    var todo := args.Keys;
    while todo != {}
      invariant todo <= args.Keys && out.Keys == args.Keys - todo
      invariant forall k :: k in out && !IsRef(args[k]) ==> out[k] == args[k]
      decreases todo
    {
      var k :| k in todo;  // the map's own order
      todo := todo - {k};
      var v := args[k];
      if IsRef(v) {
        var found: bool := *;
        if !found {
          return None;
        }
        v := *;  // a field of an earlier step's result
      }
      out := out[k := v];
    }
    resolved := Some(out);
  }

  /** No reference has become an array of more than limit elements. */
  ghost predicate RefsWithin(args: S.Args, resolved: S.Args, limit: int) {
    forall k :: k in args && k in resolved && IsRef(args[k]) && resolved[k].Array? ==> resolved[k].length <= limit
  }

  /** A plan is gated on its steps as the model wrote them and dispatches them
      resolved. A step that ran unasked would still do so exactly when no reference
      has become an array over the bulk limit and the verb, if a reference named
      it, is still one that runs unasked. */
  lemma ResolvedRunsUnasked(p: S.Policy, roles: seq<string>, step: PlanStep, resolved: S.Args)
    requires Resolves(step.args, resolved) && S.RunsUnasked(p, roles, StepInfo(step))
    ensures var info := StepInfo(PlanStep(step.operation, resolved));
            S.RunsUnasked(p, roles, info) <==>
              && S.VerbRunsUnasked(p, roles, S.VerbOf(info))
              && (p.maxBulkOperations > 0 ==> RefsWithin(step.args, resolved, p.maxBulkOperations))
  {
    var was, info := StepInfo(step), StepInfo(PlanStep(step.operation, resolved));
    if p.maxBulkOperations > 0 && RefsWithin(step.args, resolved, p.maxBulkOperations) {
      forall k | k in resolved && resolved[k].Array? ensures resolved[k].length <= p.maxBulkOperations {
        assert k in step.args;
      }
    }
  }

  /** The verb stays unless a workflow action's name is itself a reference. */
  lemma ResolvedVerb(step: PlanStep, resolved: S.Args)
    requires Resolves(step.args, resolved)
    requires HasPrefix(step.operation, "execute_action_") && "action" in step.args ==> !IsRef(step.args["action"])
    ensures S.VerbFor(step.operation, resolved) == S.VerbFor(step.operation, step.args)
  {
  }

  /** A step whose one argument refers to an earlier result runs unasked, whatever
      array the reference then becomes. */
  lemma ReferenceHidesBulk(p: S.Policy, roles: seq<string>, operation: string, key: string, ref: string, n: nat)
    requires 0 < p.maxBulkOperations < n && HasPrefix(ref, REF_PREFIX)
    requires S.RunsUnasked(p, roles, StepInfo(PlanStep(operation, map[key := S.Str(ref)])))
    ensures Resolves(map[key := S.Str(ref)], map[key := S.Array(n)])
    ensures !S.RunsUnasked(p, roles, StepInfo(PlanStep(operation, map[key := S.Array(n)])))
  {
    var resolved: S.Args := map[key := S.Array(n)];
    ResolvedRunsUnasked(p, roles, PlanStep(operation, map[key := S.Str(ref)]), resolved);
    assert resolved[key].length == n;
  }

  function Rank(r: S.Reason): int {
    match r
    case AlwaysRequireApproval => 3
    case BulkLimit => 2
    case RoleOverride => 1
    case RequireApproval => 0
    case NoReason => -1
  }

  predicate Stricter(candidate: S.Reason, current: S.Reason) {
    current == S.NoReason || Rank(candidate) > Rank(current)
  }

  /** strict is the strictest reason that f gives for the first n steps. */
  ghost predicate Strictest(f: PlanStep -> S.Reason, plan: seq<PlanStep>, n: nat, strict: S.Reason)
    requires n <= |plan|
  {
    && (forall k :: 0 <= k < n ==> Rank(f(plan[k])) <= Rank(strict))
    && (strict != S.NoReason ==> exists k :: 0 <= k < n && f(plan[k]) == strict)
  }

  lemma StrictestNext(f: PlanStep -> S.Reason, plan: seq<PlanStep>, n: nat, strict: S.Reason, reason: S.Reason)
    requires n < |plan| && Strictest(f, plan, n, strict) && f(plan[n]) == reason
    ensures Strictest(f, plan, n + 1, if reason != S.NoReason && Stricter(reason, strict) then reason else strict)
  {
  }

  ghost predicate EndsWith(ms: seq<Message>, content: string) {
    ms != [] && ms[|ms| - 1] == Assistant(content, [])
  }

  /** One call and its result for each step, in order. */
  ghost predicate Recorded(ms: seq<Message>, plan: seq<PlanStep>) {
    if plan == [] then ms == [] else
    && |ms| >= 2
    && RecordedStep(ms[|ms| - 2..], plan[|plan| - 1])
    && Recorded(ms[..|ms| - 2], plan[..|plan| - 1])
  }

  ghost predicate RecordedStep(pair: seq<Message>, step: PlanStep) {
    && |pair| == 2
    && pair[0].Assistant? && |pair[0].toolCalls| == 1 && pair[0].toolCalls[0].name == step.operation
    && pair[1].Tool? && pair[1].name == step.operation
  }

  lemma RecordOne(ms: seq<Message>, plan: seq<PlanStep>, pair: seq<Message>, step: PlanStep)
    requires Recorded(ms, plan) && RecordedStep(pair, step)
    ensures Recorded(ms + pair, plan + [step])
  {
    assert (ms + pair)[|ms|..] == pair && (ms + pair)[..|ms|] == ms;
    assert (plan + [step])[..|plan|] == plan;
  }

  ghost predicate HasStep(plan: seq<PlanStep>, tool: string) {
    exists k :: 0 <= k < |plan| && plan[k].operation == tool
  }

  /** Among these events only steps of the plan were dispatched. */
  ghost predicate DispatchedOnly(plan: seq<PlanStep>, events: seq<Entry>) {
    forall e :: e in events && e.event.Dispatch? ==> HasStep(plan, e.event.tool)
  }

  /** Among these events the plan was put to the human and refused. */
  ghost predicate PlanDenied(events: seq<Entry>) {
    exists e :: e in events && e.event.PlanAnswer? && !e.event.approved
  }

  lemma JoinEvents(plan: seq<PlanStep>, a: seq<Entry>, b: seq<Entry>)
    requires DispatchedOnly(plan, a) || DispatchedOnly([], a)
    requires DispatchedOnly(plan, b)
    ensures DispatchedOnly(plan, a + b)
    ensures PlanDenied(a + b) <==> PlanDenied(a) || PlanDenied(b)
  {
    forall e ensures e in a + b <==> e in a || e in b {}
  }

  ghost predicate DispatchesOnly(plan: seq<PlanStep>, events: seq<Entry>) {
    forall e :: e in events ==> e.event.Dispatch? && HasStep(plan, e.event.tool)
  }

  lemma DispatchesAppend(plan: seq<PlanStep>, a: seq<Entry>, b: seq<Entry>)
    requires DispatchesOnly(plan, a) && DispatchesOnly(plan, b)
    ensures DispatchesOnly(plan, a + b)
  {
  }

  function ToolNames(calls: seq<ToolCall>): (names: seq<string>)
    ensures |names| == |calls|
    ensures forall i :: 0 <= i < |calls| ==> names[i] == calls[i].name
  {
    seq(|calls|, i requires 0 <= i < |calls| => calls[i].name)
  }

  lemma OneMoreResult(base: seq<Message>, calls: seq<ToolCall>, i: nat, results: seq<Message>, obs: string)
    requires i < |calls| && Answers(calls[..i], results)
    ensures var more := results + [Tool(calls[i].name, calls[i].id, obs)];
            && Answers(calls[..i + 1], more)
            && (base + ([Assistant("", calls)] + results)) + [Tool(calls[i].name, calls[i].id, obs)] ==
                 base + ([Assistant("", calls)] + more)
    ensures ToolNames(calls[..i + 1]) == ToolNames(calls[..i]) + [calls[i].name]
  {
    var tool := [Tool(calls[i].name, calls[i].id, obs)];
    Assoc(base, [Assistant("", calls)] + results, tool);
    Assoc([Assistant("", calls)], results, tool);
  }

  /** The policy asked: the trail so far, with the dispatch to come if approved. */
  lemma AskedTrail(c: Config, turn: nat, info: S.ToolCallInfo, answers: seq<Entry>, newArgs: Option<S.Args>)
    requires S.IsToolAllowed(c.policy, info.toolName) && !S.RunsUnasked(c.policy, c.roles, info)
    requires newArgs.None? ==> answers == [] || exists p ::
             answers == [Entry(turn, CallAnswer(info.toolName, false, p))]
    requires newArgs.Some? ==> exists p ::
             answers == [Entry(turn, CallAnswer(info.toolName, true, p))] && newArgs.value == Amended(info.args, p)
    ensures var events := [Entry(turn, CallPolicy(info, true))] + answers;
            CallTrail(c, turn, info.toolName, info.args,
              if newArgs.Some? then events + [Entry(turn, Dispatch(info.toolName, newArgs.value))] else events)
  {
    var first := [Entry(turn, CallPolicy(info, true))];
    assert (first + answers)[1..] == answers;
    if newArgs.Some? {
      var last := [Entry(turn, Dispatch(info.toolName, newArgs.value))];
      assert (first + answers + last)[1..] == answers + last;
      assert (answers + last)[1..] == last;
    }
  }

  /** The first i steps of a plan have left their messages and their events. */
  ghost predicate StepsDone(log0: seq<Entry>, log: seq<Entry>, transcript0: seq<Message>, transcript: seq<Message>,
      plan: seq<PlanStep>, i: nat, added: seq<Message>, events: seq<Entry>)
    requires i <= |plan|
  {
    log == log0 + events && DispatchesOnly(plan, events) && transcript == transcript0 + added &&
      Recorded(added, plan[..i])
  }

  lemma OneMoreStep(log0: seq<Entry>, log: seq<Entry>, transcript0: seq<Message>, transcript: seq<Message>,
      plan: seq<PlanStep>, i: nat, added: seq<Message>, events: seq<Entry>, pair: seq<Message>, new_: seq<Entry>)
    requires i < |plan| && StepsDone(log0, log, transcript0, transcript, plan, i, added, events)
    requires RecordedStep(pair, plan[i]) && DispatchesOnly(plan, new_)
    ensures StepsDone(log0, log + new_, transcript0, transcript + pair, plan, i + 1, added + pair, events + new_)
  {
    RecordOne(added, plan[..i], pair, plan[i]);
    NextPrefix(plan, i);
    DispatchesAppend(plan, events, new_);
    Assoc(log0, events, new_);
    Assoc(transcript0, added, pair);
  }

  class Runtime {
    const config: Config
    const docTypeByTool: map<string, string>
    const hasGateway: bool
    const session: Session
    ghost var log: seq<Entry>
    ghost var turn: nat
    ghost var denied: bool  // a plan has been refused in this turn
    ghost var steps: nat    // the steps of calls in this turn

    constructor (config: Config, maxSteps: int, docTypeByTool: map<string, string>, hasGateway: bool)
      ensures Valid() && log == [] && turn == 0 && !denied && steps == 0 && fresh(session) && session.transcript == []
      ensures this.config == config.(policy := S.WithDefaults(config.policy),
                                     maxSteps := if maxSteps <= 0 then 10 else maxSteps)
    {
      this.config := config.(policy := S.WithDefaults(config.policy),
                             maxSteps := if maxSteps <= 0 then 10 else maxSteps);
      this.docTypeByTool, this.hasGateway := docTypeByTool, hasGateway;
      session := new Session();
      log, turn, denied, steps := [], 0, false, 0;
    }

    /** Between turns, and at every model call: the transcript is in the grammar
        and everything done so far was allowed. */
    ghost predicate Valid()
      reads this, session
    {
      WellFormed(session.transcript) && Acceptable()
    }

    ghost predicate Acceptable()
      reads this
    {
      && Sound(config, log) && (log != [] ==> log[|log| - 1].turn <= turn)
      && (!denied ==> NoDenial(log, turn)) && steps == StepsIn(log, turn)
    }

    method AddMessage(m: Message)
      modifies session`transcript
      ensures session.transcript == old(session.transcript) + [m]
    {
      session.transcript := session.transcript + [m];
    }

    method AddPrompt(content: string)
      requires Valid()
      modifies session`transcript
      ensures Valid() && session.transcript == old(session.transcript) + [User(content)]
    {
      AppendUser(session.transcript, content);
      AddMessage(User(content));
    }

    method AddText(content: string)
      requires Valid()
      modifies session`transcript
      ensures Valid() && session.transcript == old(session.transcript) + [Assistant(content, [])]
    {
      AppendText(session.transcript, content);
      AddMessage(Assistant(content, []));
    }

    ghost method Record(e: Event)
      requires Acceptable() && EventOk(config, log, turn, e) && (IsDenial(e) ==> denied) && !e.Calls?
      modifies `log
      ensures Acceptable() && log == old(log) + [Entry(turn, e)]
    {
      SoundAppend(config, log, turn, e);
      log := log + [Entry(turn, e)];
    }

    ghost method RecordCalls(calls: seq<ToolCall>)
      requires Acceptable() && EventOk(config, log, turn, Calls(calls))
      modifies `log, `steps
      ensures Acceptable() && log == old(log) + [Entry(turn, Calls(calls))] && steps == old(steps) + 1
    {
      SoundAppend(config, log, turn, Calls(calls));
      log, steps := log + [Entry(turn, Calls(calls))], steps + 1;
    }

    // ----- talking to the model -----

    method Chat() returns (r: Result<ChatResponse, Error>)
      requires Valid()
      modifies `log
      ensures Valid() && old(log) <= log
      ensures log == old(log) || log == old(log) + [Entry(turn, LLMCall([System(config.system)] + session.transcript))]
      ensures r.Ok? ==> log != old(log)
      ensures r.Err? ==> r.error == Rejected || r.error == ModelFailed
    {
      var overBudget: bool := *;
      if overBudget {
        return Err(Rejected);
      }
      ghost var sent := [System(config.system)] + session.transcript;
      assert sent[1..] == session.transcript;
      Record(LLMCall(sent));
      var failed: bool := *;
      if failed {
        return Err(ModelFailed);
      }
      var answer: ChatResponse := *;
      return Ok(answer);
    }

    // ----- the executor -----

    /** gateApproval: no answer without a gateway or when it fails; an approval goes
        on with the human's arguments, if the answer has any. */
    method GateApproval(args: S.Args, ghost info: S.ToolCallInfo)
        returns (newArgs: Option<S.Args>, ghost answers: seq<Entry>)
      requires Acceptable() && log != [] && log[|log| - 1] == Entry(turn, CallPolicy(info, true)) && info.args == args
      modifies `log
      ensures Acceptable() && log == old(log) + answers
      ensures newArgs.None? ==> answers == [] || exists p ::
              answers == [Entry(turn, CallAnswer(info.toolName, false, p))]
      ensures newArgs.Some? ==> exists p ::
              answers == [Entry(turn, CallAnswer(info.toolName, true, p))] && newArgs.value == Amended(args, p)
    {
      answers := [];
      AddNothing(log);
      var failed: bool := *;
      if !hasGateway || failed {
        return None, answers;
      }
      var answer: Answer := *;
      Record(CallAnswer(info.toolName, answer.approved, answer.payload));
      answers := [Entry(turn, CallAnswer(info.toolName, answer.approved, answer.payload))];
      if !answer.approved {
        return None, answers;
      }
      newArgs := Some(match answer.payload case Some(p) => p case None => args);
    }

    /** What the policy is asked about: discovery tools only read, and the count
        is the one last recorded for the call's DocType. */
    function InfoFor(name: string, args: S.Args): S.ToolCallInfo
      reads session
    {
      S.ToolCallInfo(if name in T.DISCOVERY_TOOLS then "read" else S.VerbFor(name, args), name, args,
                     session.TargetCount(T.Snake(T.DocTypeFor(docTypeByTool, name))))
    }

    /** What the gate relies on: once a list or search result of one DocType has
        been counted, each of that DocType's operation tools is gated with the count,
        so none runs unasked when it is over the bulk limit, and no other DocType's
        tool is. */
    lemma CountedBulkAsks(docs: seq<string>, counted: string, i: nat, d: string, args: S.Args)
      requires T.DocNames(docs) && T.Indexes(docTypeByTool, docs) && counted in docs && d in docs &&
               i < |T.OPERATION_PREFIXES|
      requires session.targetDoc == T.Snake(counted)
      ensures var info := InfoFor(T.OPERATION_PREFIXES[i] + T.Snake(d), args);
              && info.targetCount == (if d == counted then session.targetCount else 0)
              && (d == counted && 0 < config.policy.maxBulkOperations < session.targetCount ==>
                     !S.RunsUnasked(config.policy, config.roles, info))
    {
      T.ToolNameRoundTrip(docs, docTypeByTool, i, d);
      T.SnakeInjective(d, counted);
      assert T.Snake(d) != "";
    }

    method CallInfo(name: string, args: S.Args) returns (info: S.ToolCallInfo)
      ensures info == InfoFor(name, args)
    {
      var verb := if name in T.DISCOVERY_TOOLS then "read" else S.VerbFor(name, args);
      var docType := T.DocTypeFor(docTypeByTool, name);
      var snake := "";
      if docType != "" {
        snake := T.SnakeCase(docType);
      }
      info := S.ToolCallInfo(verb, name, args, session.TargetCount(snake));
    }

    /** The gate of one call: the policy, and the gateway when it asks. */
    method Gate(name: string, args: S.Args) returns (newArgs: Option<S.Args>, ghost events: seq<Entry>)
      requires Acceptable() && S.IsToolAllowed(config.policy, name) && CalledIn(log, turn, name)
      modifies `log
      ensures Acceptable() && log == old(log) + events
      ensures events != [] && events[0].event.CallPolicy? && events[0].event.info == InfoFor(name, args)
      ensures newArgs.Some? ==> ClearedByCall(log, turn, name, newArgs.value)
      ensures CallTrail(config, turn, name, args,
              if newArgs.Some? then events + [Entry(turn, Dispatch(name, newArgs.value))] else events)
    {
      var info := CallInfo(name, args);
      var a := S.RequiresApprovalWithReason(config.policy, config.roles, info);
      Record(CallPolicy(info, a.required));
      events := [Entry(turn, CallPolicy(info, a.required))];
      if !a.required {
        UnaskedClears(old(log), turn, info);
        return Some(args), events;
      }
      ghost var answers;
      newArgs, answers := GateApproval(args, info);
      Assoc(old(log), events, answers);
      if newArgs.Some? {
        ghost var p :| answers == [Entry(turn, CallAnswer(info.toolName, true, p))] &&
            newArgs.value == Amended(args, p);
        ApprovalClears(old(log), turn, info, p);
      }
      AskedTrail(config, turn, info, answers, newArgs);
      events := events + answers;
    }

    /** executeTool: allowlist, approval gate (skipped for the steps of a cleared
        plan), dispatch, then the session's bookkeeping. */
    method ExecuteTool(name: string, args: S.Args, planApproved: bool)
        returns (observation: string, ghost events: seq<Entry>)
      requires Acceptable() && !denied
      requires if planApproved then ClearedByPlan(log, turn, name, args) else CalledIn(log, turn, name)
      modifies `log, session`seen, session`targetDoc, session`targetCount
      ensures Acceptable() && log == old(log) + events
      ensures planApproved ==>
                events ==
                if S.IsToolAllowed(config.policy, name) then [Entry(turn, Dispatch(name, args))] else []
      ensures !planApproved ==> CallTrail(config, turn, name, args, events)
    {
      events := [];
      AddNothing(log);
      if !S.IsToolAllowed(config.policy, name) {
        return "error: tool is blocked by the safety policy tool allowlist", events;
      }
      var args' := args;
      if !planApproved {
        var newArgs;
        newArgs, events := Gate(name, args);
        if newArgs.None? {
          return "error: not approved", events;
        }
        args' := newArgs.value;
      }
      Record(Dispatch(name, args'));
      Assoc(old(log), events, [Entry(turn, Dispatch(name, args'))]);
      events := events + [Entry(turn, Dispatch(name, args'))];
      var outcome: Outcome := *;
      MarkSeen(name, args', outcome);
      return outcome.observation, events;
    }

    /** The DocTypes a call brings into the session. */
    function SeenBy(name: string, args: S.Args): set<string> {
      if name == "describe_document" then
        if "doc_type" in args && args["doc_type"].Str? && args["doc_type"].text != "" then
          {T.Snake(args["doc_type"].text)} else {}
      else
        var snake := T.SplitOperationTool(name).1;
        if snake != "" then {snake} else {}
    }

    /** markDocTypesSeen, and the record count of a list or search result, kept
        only for a DocType's own operation tool. */
    method MarkSeen(name: string, args: S.Args, outcome: Outcome)
      modifies session`seen, session`targetDoc, session`targetCount
      ensures session.seen == old(session.seen) + SeenBy(name, args)
      ensures var docType := T.DocTypeFor(docTypeByTool, name);
              if outcome.recordCount.Some? && docType != ""
              then session.targetDoc == T.Snake(docType) && session.targetCount == outcome.recordCount.value
              else session.targetDoc == old(session.targetDoc) && session.targetCount == old(session.targetCount)
    {
      if name == "describe_document" {
        if "doc_type" in args && args["doc_type"].Str? && args["doc_type"].text != "" {
          var snake := T.SnakeCase(args["doc_type"].text);
          session.seen := session.seen + {snake};
        }
      } else {
        var (_, snake) := T.SplitOperationTool(name);
        if snake != "" {
          session.seen := session.seen + {snake};
        }
      }
      var docType := T.DocTypeFor(docTypeByTool, name);
      if outcome.recordCount.Some? && docType != "" {
        var snake := T.SnakeCase(docType);
        session.targetDoc, session.targetCount := snake, outcome.recordCount.value;
      }
    }

    // ----- a ReAct step -----

    /** The assistant's calls, none of which needs another's result, then each call
        gated and executed in order and its result appended. */
    method ReActStep(calls: seq<ToolCall>) returns (ghost events: seq<Entry>)
      requires Valid() && !denied && calls != [] && !DataDependency(calls) && steps < config.maxSteps
      modifies this`log, this`steps, session
      ensures Valid() && steps == old(steps) + 1
      ensures log == old(log) + [Entry(turn, Calls(calls))] + events
      ensures CallTrails(config, turn, ToolNames(calls), events)
      ensures exists results ::
                && Answers(calls, results)
                && session.transcript == old(session.transcript) + ([Assistant("", calls)] + results)
    {
      ghost var base := session.transcript;
      ghost var results: seq<Message> := [];
      events := [];
      RecordCalls(calls);
      ghost var called := log;
      AddNothing(log);
      AddMessage(Assistant("", calls));
      for i := 0 to |calls|
        invariant Acceptable() && log == called + events && CallTrails(config, turn, ToolNames(calls[..i]), events)
        invariant Answers(calls[..i], results) && steps == old(steps) + 1
        invariant session.transcript == base + ([Assistant("", calls)] + results)
      {
        var args: S.Args := *;  // decoded from the call's JSON; an empty map when that fails
        CallsAreCalled(called, calls, events, i);
        var obs, trail := ExecuteTool(calls[i].name, args, false);
        AppendTrail(config, turn, ToolNames(calls[..i]), events, calls[i].name, args, trail);
        Assoc(called, events, trail);
        events := events + trail;
        AddMessage(Tool(calls[i].name, calls[i].id, obs));
        OneMoreResult(base, calls, i, results, obs);
        results := results + [Tool(calls[i].name, calls[i].id, obs)];
      }
      AllOf(calls);
      AppendCalls(base, "", calls, results);
    }

    lemma CallsAreCalled(called: seq<Entry>, calls: seq<ToolCall>, events: seq<Entry>, i: nat)
      requires called != [] && called[|called| - 1] == Entry(turn, Calls(calls)) && i < |calls|
      ensures CalledIn(called + events, turn, calls[i].name)
    {
      assert (called + events)[|called| - 1] == Entry(turn, Calls(calls));
      assert HasCall(Calls(calls), calls[i].name);
    }

    // ----- plan mode -----

    /** requestPlanWith: an optional correction prompt, one model call, and the
        plan recorded as assistant text. None: no parseable plan. */
    method RequestPlanWith(extraPrompt: string) returns (plan: Option<seq<PlanStep>>, ghost added: seq<Message>)
      requires Valid()
      modifies this`log, session`transcript
      ensures Valid() && old(log) <= log
      ensures session.transcript == old(session.transcript) + added
      ensures plan.None? ==> added == Prompted(extraPrompt)
      ensures plan.Some? ==> exists text :: added == Prompted(extraPrompt) + [Assistant(text, [])]
    {
      added := Prompted(extraPrompt);
      AddNothing(session.transcript);
      if extraPrompt != "" {
        AddPrompt(extraPrompt);
      }
      var r := Chat();
      if r.Err? {
        return None, added;
      }
      plan := *;
      if plan.Some? {
        Assoc(old(session.transcript), added, [Assistant(r.value.content, [])]);
        AddText(r.value.content);
        added := added + [Assistant(r.value.content, [])];
      }
    }

    function Prompted(extraPrompt: string): seq<Message> {
      if extraPrompt != "" then [User(extraPrompt)] else []
    }

    /** Ends a turn with an assistant text. */
    method Finish(content: string, toolCalls: nat) returns (r: Response)
      requires Valid()
      modifies session`transcript
      ensures Valid() && r == Response(content, toolCalls)
      ensures session.transcript == old(session.transcript) + [Assistant(content, [])]
    {
      AddText(content);
      return Response(content, toolCalls);
    }

    ghost function StepReason(): PlanStep -> S.Reason {
      step => S.ReasonOf(config.policy, config.roles, StepInfo(step))
    }

    /** The strictest reason among the steps that ask; none when none asks. */
    method EvaluatePlan(plan: seq<PlanStep>) returns (strict: S.Reason)
      ensures Strictest(StepReason(), plan, |plan|, strict)
    {
      strict := S.NoReason;
      for i := 0 to |plan|
        invariant Strictest(StepReason(), plan, i, strict)
      {
        var a := S.RequiresApprovalWithReason(config.policy, config.roles, StepInfo(plan[i]));
        assert a.required <==> a.reason != S.NoReason;
        StrictestNext(StepReason(), plan, i, strict, a.reason);
        if a.required && Stricter(a.reason, strict) {
          strict := a.reason;
        }
      }
    }

    function StepInfos(plan: seq<PlanStep>): (infos: seq<S.ToolCallInfo>)
      ensures |infos| == |plan| && forall k :: 0 <= k < |plan| ==> infos[k] == StepInfo(plan[k])
    {
      seq(|plan|, k requires 0 <= k < |plan| => StepInfo(plan[k]))
    }

    /** Whether a plan needs confirmation, from the strictest reason. */
    lemma PlanAsks(plan: seq<PlanStep>, strict: S.Reason)
      requires Strictest(StepReason(), plan, |plan|, strict)
      ensures strict != S.NoReason <==>
                exists k :: 0 <= k < |plan| && !S.RunsUnasked(config.policy, config.roles, StepInfos(plan)[k])
    {
      if strict != S.NoReason {
        var k :| 0 <= k < |plan| && StepReason()(plan[k]) == strict;
        assert !S.RunsUnasked(config.policy, config.roles, StepInfos(plan)[k]);
      } else {
        forall k | 0 <= k < |plan| ensures S.RunsUnasked(config.policy, config.roles, StepInfos(plan)[k]) {
          assert Rank(StepReason()(plan[k])) <= -1;
        }
      }
    }

    /** Whether the policy wants the plan confirmed; the verdict goes into the log. */
    method PlanVerdict(plan: seq<PlanStep>, ghost infos: seq<S.ToolCallInfo>) returns (needs: bool)
      requires Acceptable() && infos == StepInfos(plan)
      modifies `log
      ensures Acceptable() && log == old(log) + [Entry(turn, PlanPolicy(infos, needs))]
    {
      var strict := EvaluatePlan(plan);
      PlanAsks(plan, strict);
      needs := strict != S.NoReason;
      Record(PlanPolicy(infos, needs));
    }

    /** The one confirmation of a plan that needs it. */
    method AskForPlan(ghost infos: seq<S.ToolCallInfo>) returns (approved: bool, ghost answers: seq<Entry>)
      requires Acceptable() && !denied && log != [] && log[|log| - 1] == Entry(turn, PlanPolicy(infos, true))
      modifies `log, `denied
      ensures Acceptable() && log == old(log) + answers && (approved ==> !denied)
      ensures (answers == [] && !approved) || answers == [Entry(turn, PlanAnswer(infos, approved))]
    {
      answers := [];
      AddNothing(log);
      var failed: bool := *;
      if !hasGateway || failed {
        return false, answers;
      }
      var answer: Answer := *;  // to a request that names the strictest reason
      denied := !answer.approved;
      Record(PlanAnswer(infos, answer.approved));
      return answer.approved, [Entry(turn, PlanAnswer(infos, answer.approved))];
    }

    /** planApproval: one combined confirmation with the strictest reason when
        any step needs it. The events are the policy's verdict on the plan and, if
        it was asked, the answer. */
    method PlanApproval(plan: seq<PlanStep>)
        returns (approved: bool, needs: bool, ghost infos: seq<S.ToolCallInfo>, ghost events: seq<Entry>)
      requires Acceptable() && !denied
      modifies `log, `denied
      ensures Acceptable() && log == old(log) + events && (approved ==> !denied)
      ensures IsPlanGate(events, infos, needs, approved)
      ensures infos == StepInfos(plan)
      ensures approved ==>
                log[|log| - 1] == Entry(turn, if needs then PlanAnswer(infos, true) else PlanPolicy(infos, false))
    {
      infos := StepInfos(plan);
      needs := PlanVerdict(plan, infos);
      ghost var verdict, answers := [Entry(turn, PlanPolicy(infos, needs))], [];
      approved, answers := Confirm(infos, needs);
      Assoc(old(log), verdict, answers);
      GateOf(infos, needs, approved, answers);
      events := verdict + answers;
    }

    lemma GateOf(infos: seq<S.ToolCallInfo>, needs: bool, approved: bool, answers: seq<Entry>)
      requires if !needs then approved && answers == []
               else (answers == [] && !approved) || answers == [Entry(turn, PlanAnswer(infos, approved))]
      ensures IsPlanGate([Entry(turn, PlanPolicy(infos, needs))] + answers, infos, needs, approved)
    {
    }

    /** Nobody is asked about a plan that needs no confirmation. */
    method Confirm(ghost infos: seq<S.ToolCallInfo>, needs: bool) returns (approved: bool, ghost answers: seq<Entry>)
      requires Acceptable() && !denied && log != [] && log[|log| - 1] == Entry(turn, PlanPolicy(infos, needs))
      modifies `log, `denied
      ensures Acceptable() && log == old(log) + answers && (approved ==> !denied)
      ensures if !needs then approved && answers == []
              else (answers == [] && !approved) || answers == [Entry(turn, PlanAnswer(infos, approved))]
      ensures approved ==>
                log[|log| - 1] == Entry(turn, if needs then PlanAnswer(infos, true) else PlanPolicy(infos, false))
    {
      if !needs {
        AddNothing(log);
        return true, [];
      }
      approved, answers := AskForPlan(infos);
    }

    ghost predicate IsPlanGate(events: seq<Entry>, infos: seq<S.ToolCallInfo>, needs: bool, approved: bool)
      reads this
    {
      && events != [] && events[0] == Entry(turn, PlanPolicy(infos, needs))
      && (|events| == 1 ==> (approved <==> !needs))
      && (|events| > 1 ==> needs && |events| == 2 && events[1] == Entry(turn, PlanAnswer(infos, approved)))
    }

    lemma GateDispatchesNothing(events: seq<Entry>, infos: seq<S.ToolCallInfo>, needs: bool, approved: bool)
      requires IsPlanGate(events, infos, needs, approved)
      ensures DispatchedOnly([], events) && (PlanDenied(events) ==> !approved)
    {
      forall e | e in events ensures e == events[0] || (|events| == 2 && e == events[1]) {}
    }

    /** The steps of a cleared plan: each, executed or not, leaves one call with
        its result in the transcript. */
    method RunSteps(plan: seq<PlanStep>, ghost j: nat)
        returns (steps: nat, ghost added: seq<Message>, ghost events: seq<Entry>)
      requires Valid() && !denied && j < |log| && log[j].turn == turn
      requires ClearsPlan(log[j].event) && forall k :: 0 <= k < |plan| ==> StepInfo(plan[k]) in log[j].event.steps
      modifies this`log, session
      ensures Valid() && steps <= |plan|
      ensures log == old(log) + events && DispatchesOnly(plan, events)
      ensures session.transcript == old(session.transcript) + added && Recorded(added, plan)
    {
      steps, added, events := 0, [], [];
      AddNothing(log);
      AddNothing(session.transcript);
      for i := 0 to |plan|
        invariant Valid() && steps <= i
        invariant StepsDone(old(log), log, old(session.transcript), session.transcript, plan, i, added, events)
      {
        assert log[j] == old(log)[j] && StepInfo(plan[i]) in log[j].event.steps;
        ghost var logBefore, before := log, session.transcript;
        var ran, pair, new_ := RunStep(plan[i], j);
        steps := if ran then steps + 1 else steps;
        assert HasStep(plan, plan[i].operation);
        OneMoreStep(old(log), logBefore, old(session.transcript), before, plan, i, added, events, pair, new_);
        added, events := added + pair, events + new_;
      }
      AllOf(plan);
    }

    lemma StepIsCleared(e: Event, step: PlanStep, args: S.Args)
      requires ClearsPlan(e) && StepInfo(step) in e.steps && Resolves(step.args, args)
      ensures ClearsStep(e, step.operation, args)
    {
      var k :| 0 <= k < |e.steps| && e.steps[k] == StepInfo(step);
      assert IsStepFor(e.steps[k], step.operation, args);
    }

    /** One iteration: resolve, validate, execute, record. */
    method RunStep(step: PlanStep, ghost j: nat) returns (ran: bool, ghost pair: seq<Message>, ghost events: seq<Entry>)
      requires Valid() && !denied && j < |log| && log[j].turn == turn
      requires ClearsPlan(log[j].event) && StepInfo(step) in log[j].event.steps
      modifies this`log, session
      ensures Valid() && log == old(log) + events
      ensures events == [] || (ran &&
              exists args :: Resolves(step.args, args) && events == [Entry(turn, Dispatch(step.operation, args))])
      ensures ran && S.IsToolAllowed(config.policy, step.operation) ==> events != []
      ensures session.transcript == old(session.transcript) + pair && RecordedStep(pair, step)
    {
      var callID: string := *;  // a fresh ULID
      var args := ResolveRefs(step.args);
      var valid: bool := *;  // planner.ValidateArgs on the resolved arguments
      var obs := "error";
      ran := args.Some? && valid;
      events := [];
      AddNothing(log);
      if ran {
        StepIsCleared(log[j].event, step, args.value);
        obs, events := ExecuteTool(step.operation, args.value, true);
      }
      var call := AppendPlanStep(callID, step.operation, obs);
      pair := [Assistant("", [call])] + [Tool(step.operation, callID, obs)];
    }

    /** The part of runValidatedPlan after the confirmation. */
    method RunClearedPlan(plan: seq<PlanStep>, ghost infos: seq<S.ToolCallInfo>)
        returns (r: Response, ghost events: seq<Entry>)
      requires Valid() && !denied && log != [] && log[|log| - 1].turn == turn
      requires log[|log| - 1].event == PlanPolicy(infos, false) || log[|log| - 1].event == PlanAnswer(infos, true)
      requires |infos| == |plan| && forall k :: 0 <= k < |plan| ==> infos[k] == StepInfo(plan[k])
      modifies this`log, session
      ensures Valid() && r.toolCalls <= |plan|
      ensures log == old(log) + events && DispatchedOnly(plan, events) && !PlanDenied(events)
      ensures exists added ::
                && Recorded(added, plan)
                && session.transcript == old(session.transcript) + added + [Assistant(r.content, [])]
    {
      assert forall k :: 0 <= k < |plan| ==> StepInfo(plan[k]) == infos[k] && infos[k] in infos;
      var steps, added, dispatches := RunSteps(plan, |log| - 1);
      var final, calls := SynthesizeSummary();
      Assoc(old(log), dispatches, calls);
      JoinEvents(plan, dispatches, calls);
      events := dispatches + calls;
      r := Finish(final, steps);
    }

    /** runValidatedPlan: nothing is dispatched unless the plan was cleared. */
    method RunValidatedPlan(plan: seq<PlanStep>) returns (r: Response, ghost events: seq<Entry>)
      requires Valid() && !denied
      modifies this`log, this`denied, session
      ensures Valid() && EndsWith(session.transcript, r.content) && r.toolCalls <= |plan|
      ensures old(session.transcript) <= session.transcript
      ensures log == old(log) + events && DispatchedOnly(plan, events)
      ensures PlanDenied(events) ==>
                DispatchedOnly([], events) && session.transcript == old(session.transcript) + [Assistant(r.content, [])]
    {
      var approved, needs, infos, gate := PlanApproval(plan);
      GateDispatchesNothing(gate, infos, needs, approved);
      events := gate;
      if needs && !approved {
        r := Finish("The plan was not approved; no steps were executed.", 0);
      } else {
        ghost var rest;
        r, rest := RunClearedPlan(plan, infos);
        Assoc(old(log), gate, rest);
        JoinEvents(plan, gate, rest);
        events := gate + rest;
      }
    }

    /** appendPlanStep: the call, then its result. */
    method AppendPlanStep(callID: string, toolName: string, obs: string) returns (call: ToolCall)
      requires Valid()
      modifies session`transcript
      ensures Valid() && call.id == callID && call.name == toolName
      ensures session.transcript == old(session.transcript) + ([Assistant("", [call])] + [Tool(toolName, callID, obs)])
    {
      var arguments: string := *;  // the arguments as JSON
      call := ToolCall(callID, toolName, arguments);
      AppendCalls(session.transcript, "", [call], [Tool(toolName, callID, obs)]);
      ghost var base := session.transcript;
      AddMessage(Assistant("", [call]));
      AddMessage(Tool(toolName, callID, obs));
      assert session.transcript == base + ([Assistant("", [call])] + [Tool(toolName, callID, obs)]);
      assert Answers([call], [Tool(toolName, callID, obs)]);
    }

    method SynthesizeSummary() returns (final: string, ghost events: seq<Entry>)
      requires Valid()
      modifies `log
      ensures Valid() && log == old(log) + events && forall e :: e in events ==> e.event.LLMCall?
    {
      var r := Chat();
      events := log[|old(log)|..];
      if r.Ok? {
        final := r.value.content;
        return;
      }
      final := *;  // the deterministic summary of the last observations
    }

    /** Up to two requests for a plan, the second after a correction prompt. Without
        a valid plan the turn's closing text says why. */
    method ObtainPlan() returns (plan: Option<seq<PlanStep>>, failure: string)
      requires Valid()
      modifies this`log, session`transcript
      ensures Valid() && old(log) <= log
      ensures old(session.transcript) <= session.transcript
    {
      failure := "The model could not produce a parseable plan.";
      ghost var first, second;
      plan, first := RequestPlanWith("");
      Longer(old(session.transcript), first);
      if plan.None? {
        return;
      }
      var valid: bool := *;  // planner.Validate
      if valid {
        return;
      }
      plan, second := RequestPlanWith(CORRECTION_PROMPT);
      Assoc(old(session.transcript), first, second);
      Longer(old(session.transcript), first + second);
      if plan.None? {
        return;
      }
      valid := *;
      if !valid {
        plan, failure := None, "The model could not produce a valid plan. No operations were performed.";
      }
    }

    /** executePlanMode: at most one correction turn, and nothing is dispatched
        unless a validated plan is run. */
    method ExecutePlanMode() returns (r: Response)
      requires Valid() && !denied
      modifies this`log, this`denied, session
      ensures Valid() && old(log) <= log
      ensures EndsWith(session.transcript, r.content)
      ensures old(session.transcript) <= session.transcript
    {
      var plan, failure := ObtainPlan();
      if plan.None? {
        r := Finish(failure, 0);
        return;
      }
      ghost var events;
      r, events := RunValidatedPlan(plan.value);
    }

    // ----- a turn -----

    /** One iteration of the loop below: a step of calls, and the model's answer. */
    method ReActAndChat(calls: seq<ToolCall>) returns (next: Result<ChatResponse, Error>)
      requires Valid() && !denied && calls != [] && !DataDependency(calls) && steps < config.maxSteps
      modifies this`log, this`steps, session
      ensures Valid() && steps == old(steps) + 1
      ensures old(log) <= log && old(session.transcript) <= session.transcript
      ensures next.Err? ==> next.error != TooManySteps
    {
      ghost var _ := ReActStep(calls);
      next := Chat();
    }

    /** The loop of a turn: ReAct steps until the model answers in text, or plan mode
        as soon as its calls depend on each other. */
    method Continue(first: ChatResponse) returns (r: Result<Response, Error>)
      requires Valid() && !denied && steps == 0
      modifies this`log, this`denied, this`steps, session
      ensures Valid() && old(log) <= log && old(session.transcript) <= session.transcript
      ensures r.Ok? ==> EndsWith(session.transcript, r.value.content)
      ensures r.Err? && r.error == TooManySteps ==> steps == config.maxSteps
    {
      var resp := first;
      var toolSteps := 0;
      while resp.toolCalls != []
        invariant Valid() && !denied && toolSteps == steps <= config.maxSteps
        invariant old(log) <= log && old(session.transcript) <= session.transcript
        decreases config.maxSteps - toolSteps
      {
        toolSteps := toolSteps + 1;
        if toolSteps > config.maxSteps {
          return Err(TooManySteps);
        }
        var dependent := HasDataDependency(resp.toolCalls);
        if dependent {
          var p := ExecutePlanMode();
          return Ok(p);
        }
        var next := ReActAndChat(resp.toolCalls);
        if next.Err? {
          return Err(next.error);
        }
        resp := next.value;
      }
      var f := Finish(resp.content, toolSteps);
      return Ok(f);
    }

    lemma TurnIsNew()
      requires Acceptable()
      ensures NoDenial(log, turn + 1) && StepsIn(log, turn + 1) == 0
    {
      forall j | 0 <= j < |log| ensures log[j].turn <= turn {
        TurnsMoveOn(config, log, j, |log| - 1);
      }
      NoSteps(log, turn + 1);
    }

    /** Execute: one turn. Either it is rejected before anything is said, or the
        user's message comes next in the transcript. */
    method Execute(userMessage: string) returns (r: Result<Response, Error>)
      requires Valid()
      modifies this`log, this`turn, this`denied, this`steps, session
      ensures Valid() && old(log) <= log && turn == old(turn) + 1
      ensures session.transcript == old(session.transcript) ||
              old(session.transcript) + [User(userMessage)] <= session.transcript
      ensures r.Ok? ==> EndsWith(session.transcript, r.value.content)
    {
      TurnIsNew();
      turn, denied, steps := turn + 1, false, 0;
      var rateLimited: bool := *;  // the rate limit and the token budget
      if rateLimited {
        return Err(Rejected);
      }
      AddPrompt(userMessage);
      var resp := Chat();
      if resp.Err? {
        return Err(resp.error);
      }
      r := Continue(resp.value);
    }

    /** Any number of turns on the session, including turns after failed ones. */
    method Conversation(messages: seq<string>)
      requires Valid()
      modifies this`log, this`turn, this`denied, this`steps, session
      ensures Valid() && old(log) <= log
    {
      for i := 0 to |messages|
        invariant Valid() && old(log) <= log
      {
        var _ := Execute(messages[i]);
      }
    }
  }
}
