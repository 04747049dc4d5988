/** What the agent runtime does that matters outside it, as a log of events, and
    when such a log is acceptable. */
module RunLog {
  import opened Wrappers
  import opened Strings
  import opened Transcript
  import S = Safety
  import T = ToolNames

  datatype Event =
    | LLMCall(messages: seq<Message>)
    | Calls(calls: seq<ToolCall>)                                 // the model's calls, about to be executed
    | CallPolicy(info: S.ToolCallInfo, required: bool)            // the gate of one tool call
    | CallAnswer(tool: string, approved: bool, payload: Option<S.Args>)  // the gateway's answer for it
    | PlanPolicy(steps: seq<S.ToolCallInfo>, required: bool)      // the gate of a whole plan
    | PlanAnswer(steps: seq<S.ToolCallInfo>, approved: bool)
    | Dispatch(tool: string, args: S.Args)

  /** An event and the turn it happened in. */
  datatype Entry = Entry(turn: nat, event: Event)

  datatype Config = Config(policy: S.Policy, roles: seq<string>, system: string, maxSteps: nat)

  const REF_PREFIX := "ref:"

  /** Some call's arguments mention the result of an earlier call of the list. */
  ghost predicate DataDependency(calls: seq<ToolCall>) {
    exists i, j: nat :: 0 <= j < i < |calls| && Contains(calls[i].arguments, REF_PREFIX + Itoa(j))
  }

  predicate IsRef(v: S.Value) {
    v.Str? && HasPrefix(v.text, REF_PREFIX)
  }

  /** Only references are replaced, by anything an earlier result may hold. */
  ghost predicate Resolves(args: S.Args, resolved: S.Args) {
    && resolved.Keys == args.Keys
    && forall k :: k in args && !IsRef(args[k]) ==> resolved[k] == args[k]
  }

  /** A step of the plan is this tool, with arguments that resolve to these. */
  ghost predicate HasStepFor(steps: seq<S.ToolCallInfo>, tool: string, args: S.Args) {
    exists k :: 0 <= k < |steps| && IsStepFor(steps[k], tool, args)
  }

  ghost predicate IsStepFor(step: S.ToolCallInfo, tool: string, args: S.Args) {
    step.toolName == tool && Resolves(step.args, args)
  }

  ghost predicate IsPolicyFor(e: Event, tool: string, required: bool) {
    e.CallPolicy? && e.info.toolName == tool && e.required == required
  }

  /** The arguments a call goes on with: the human's amended ones, if any. */
  function Amended(args: S.Args, payload: Option<S.Args>): S.Args {
    if payload.Some? then payload.value else args
  }

  /** The call itself was cleared just now, with these arguments: by a policy that
      does not ask, or by an approval of what the policy asked for. */
  ghost predicate ClearedByCall(before: seq<Entry>, turn: nat, tool: string, args: S.Args) {
    var n := |before|;
    && n >= 1 && before[n - 1].turn == turn
    && var last := before[n - 1].event;
       || (IsPolicyFor(last, tool, false) && args == last.info.args)
       || (last.CallAnswer? && last.tool == tool && last.approved
           && n >= 2 && before[n - 2].turn == turn && IsPolicyFor(before[n - 2].event, tool, true)
           && args == Amended(before[n - 2].event.info.args, last.payload))
  }

  /** Exactly what one gated call may leave in the log: nothing when the tool is off
      the allowlist; else the policy's verdict, then the dispatch if it did not ask,
      or the answer, if one came, and the dispatch if that approved. */
  ghost predicate CallTrail(c: Config, turn: nat, tool: string, args: S.Args, events: seq<Entry>) {
    if !S.IsToolAllowed(c.policy, tool) then events == [] else
    && events != [] && events[0].turn == turn && events[0].event.CallPolicy?
    && var verdict := events[0].event;
       && verdict.info.toolName == tool && verdict.info.args == args
       && (verdict.required <==> !S.RunsUnasked(c.policy, c.roles, verdict.info))
       && if !verdict.required then events[1..] == [Entry(turn, Dispatch(tool, args))]
          else |events| == 1 || Answered(turn, tool, args, events[1..])
  }

  /** The answer to a question, and the dispatch exactly when it approves. */
  ghost predicate Answered(turn: nat, tool: string, args: S.Args, events: seq<Entry>) {
    && events != [] && events[0].turn == turn && events[0].event.CallAnswer? && events[0].event.tool == tool
    && events[1..] == if events[0].event.approved then
         [Entry(turn, Dispatch(tool, Amended(args, events[0].event.payload)))] else []
  }

  /** The trails of a list of calls, one after another. */
  ghost predicate CallTrails(c: Config, turn: nat, tools: seq<string>, events: seq<Entry>) {
    if tools == [] then events == [] else
    var n := |tools| - 1;
    exists k: nat, args ::
      k <= |events| && CallTrails(c, turn, tools[..n], events[..k]) && CallTrail(c, turn, tools[n], args, events[k..])
  }

  lemma AppendTrail(c: Config, turn: nat, tools: seq<string>, events: seq<Entry>, tool: string,
      args: S.Args, more: seq<Entry>)
    requires CallTrails(c, turn, tools, events) && CallTrail(c, turn, tool, args, more)
    ensures CallTrails(c, turn, tools + [tool], events + more)
  {
    var all, k := events + more, |events|;
    assert (tools + [tool])[..|tools|] == tools && (tools + [tool])[|tools|] == tool;
    assert all[..k] == events && all[k..] == more;
    assert CallTrails(c, turn, (tools + [tool])[..|tools|], all[..k]) &&
      CallTrail(c, turn, (tools + [tool])[|tools|], args, all[k..]);
  }

  lemma UnaskedClears(before: seq<Entry>, turn: nat, info: S.ToolCallInfo)
    ensures ClearedByCall(before + [Entry(turn, CallPolicy(info, false))], turn, info.toolName, info.args)
  {
  }

  lemma ApprovalClears(before: seq<Entry>, turn: nat, info: S.ToolCallInfo, payload: Option<S.Args>)
    ensures ClearedByCall(before + [Entry(turn, CallPolicy(info, true))] +
            [Entry(turn, CallAnswer(info.toolName, true, payload))], turn,
                          info.toolName, Amended(info.args, payload))
  {
  }

  /** The event clears the steps of a plan. */
  ghost predicate ClearsPlan(e: Event) {
    (e.PlanPolicy? && !e.required) || (e.PlanAnswer? && e.approved)
  }

  ghost predicate ClearsStep(e: Event, tool: string, args: S.Args) {
    ClearsPlan(e) && HasStepFor(e.steps, tool, args)
  }

  ghost predicate ClearedByPlan(before: seq<Entry>, turn: nat, tool: string, args: S.Args) {
    exists j :: 0 <= j < |before| && before[j].turn == turn && ClearsStep(before[j].event, tool, args)
  }

  /** What the policy is asked about one call: discovery tools only read. */
  predicate JudgedCall(info: S.ToolCallInfo) {
    info.verb == if info.toolName in T.DISCOVERY_TOOLS then "read" else S.VerbFor(info.toolName, info.args)
  }

  /** And about a plan's step: no recorded target count. */
  predicate JudgedStep(info: S.ToolCallInfo) {
    info.verb == S.VerbFor(info.toolName, info.args) && info.targetCount == 0
  }

  /** The model's calls of one step have the tool among them. */
  ghost predicate HasCall(e: Event, tool: string) {
    e.Calls? && exists k :: 0 <= k < |e.calls| && e.calls[k].name == tool
  }

  ghost predicate CalledIn(before: seq<Entry>, turn: nat, tool: string) {
    exists j :: 0 <= j < |before| && before[j].turn == turn && HasCall(before[j].event, tool)
  }

  /** How many steps of calls a turn has had. */
  function StepsIn(log: seq<Entry>, turn: nat): nat {
    if log == [] then 0 else
    var last := log[|log| - 1];
    StepsIn(log[..|log| - 1], turn) + (if last.turn == turn && last.event.Calls? then 1 else 0)
  }

  lemma StepsAppend(log: seq<Entry>, e: Entry, turn: nat)
    ensures StepsIn(log + [e], turn) == StepsIn(log, turn) + (if e.turn == turn && e.event.Calls? then 1 else 0)
  {
    assert (log + [e])[..|log|] == log;
  }

  lemma {:induction false} NoSteps(log: seq<Entry>, turn: nat)
    requires forall j :: 0 <= j < |log| ==> log[j].turn < turn
    ensures StepsIn(log, turn) == 0
  {
    if log != [] { NoSteps(log[..|log| - 1], turn); }
  }

  predicate IsDenial(e: Event) {
    e.PlanAnswer? && !e.approved
  }

  /** No plan has been put to the human and refused in this turn. */
  ghost predicate NoDenial(before: seq<Entry>, turn: nat) {
    forall j :: 0 <= j < |before| && before[j].turn == turn ==> !IsDenial(before[j].event)
  }

  ghost predicate EventOk(c: Config, before: seq<Entry>, turn: nat, e: Event) {
    var n := |before|;
    match e
    case LLMCall(ms) => ms != [] && ms[0] == System(c.system) && WellFormed(ms[1..])
    case Calls(calls) => calls != [] && !DataDependency(calls) && StepsIn(before, turn) < c.maxSteps
    case CallPolicy(info, required) =>
      && JudgedCall(info) && CalledIn(before, turn, info.toolName)
      && (required <==> !S.RunsUnasked(c.policy, c.roles, info))
    case CallAnswer(tool, _, _) => n > 0 && before[n - 1].turn == turn && IsPolicyFor(before[n - 1].event, tool, true)
    case PlanPolicy(steps, required) =>
      && (forall k :: 0 <= k < |steps| ==> JudgedStep(steps[k]))
      && (required <==> exists k :: 0 <= k < |steps| && !S.RunsUnasked(c.policy, c.roles, steps[k]))
    case PlanAnswer(steps, _) => n > 0 && before[n - 1] == Entry(turn, PlanPolicy(steps, true))
    case Dispatch(tool, args) =>
      && S.IsToolAllowed(c.policy, tool) && NoDenial(before, turn)
      && (ClearedByCall(before, turn, tool, args) || ClearedByPlan(before, turn, tool, args))
  }

  /** Every event was acceptable when it happened, and turns only move on. */
  ghost predicate Sound(c: Config, log: seq<Entry>) {
    log == [] || (
      var n := |log| - 1;
      && Sound(c, log[..n])
      && EventOk(c, log[..n], log[n].turn, log[n].event)
      && (n > 0 ==> log[n - 1].turn <= log[n].turn))
  }

  /** One more acceptable event. */
  lemma SoundAppend(c: Config, log: seq<Entry>, turn: nat, e: Event)
    requires Sound(c, log) && EventOk(c, log, turn, e) && (log != [] ==> log[|log| - 1].turn <= turn)
    ensures Sound(c, log + [Entry(turn, e)])
    ensures StepsIn(log + [Entry(turn, e)], turn) == StepsIn(log, turn) + (if e.Calls? then 1 else 0)
    ensures NoDenial(log, turn) && !IsDenial(e) ==> NoDenial(log + [Entry(turn, e)], turn)
  {
    assert (log + [Entry(turn, e)])[..|log|] == log;
    StepsAppend(log, Entry(turn, e), turn);
  }

  lemma {:induction false} SoundAt(c: Config, log: seq<Entry>, i: nat)
    requires Sound(c, log) && i < |log|
    ensures EventOk(c, log[..i], log[i].turn, log[i].event)
  {
    if i < |log| - 1 {
      SoundAt(c, log[..|log| - 1], i);
      assert log[..|log| - 1][..i] == log[..i];
    }
  }

  lemma {:induction false} TurnsMoveOn(c: Config, log: seq<Entry>, i: nat, j: nat)
    requires Sound(c, log) && i <= j < |log|
    ensures log[i].turn <= log[j].turn
  {
    var n := |log| - 1;
    if j < n {
      TurnsMoveOn(c, log[..n], i, j);
    } else if i < n {
      TurnsMoveOn(c, log[..n], i, n - 1);
    }
  }

  /** Once a plan has been refused nothing is dispatched in that turn any more, not
      even a call that would run unasked. */
  lemma DenialEndsTurn(c: Config, log: seq<Entry>, j: nat, i: nat)
    requires Sound(c, log) && j < i < |log| && IsDenial(log[j].event) && log[i].event.Dispatch?
    ensures log[j].turn < log[i].turn
  {
    SoundAt(c, log, i);
    TurnsMoveOn(c, log, j, i);
    assert log[..i][j] == log[j];
  }

  /** An approval of the call itself, given right before entry i, with the arguments
      it is dispatched with. */
  ghost predicate OwnApproval(log: seq<Entry>, i: nat)
    requires i < |log| && log[i].event.Dispatch?
  {
    && i >= 2 && log[i - 1].turn == log[i].turn && log[i - 2].turn == log[i].turn
    && log[i - 1].event.CallAnswer? && log[i - 1].event.approved && log[i - 1].event.tool == log[i].event.tool
    && IsPolicyFor(log[i - 2].event, log[i].event.tool, true)
    && log[i].event.args == Amended(log[i - 2].event.info.args, log[i - 1].event.payload)
  }

  /** An approval of a plan with a step that resolves to this call. */
  ghost predicate ApprovesPlan(e: Event, tool: string, args: S.Args) {
    e.PlanAnswer? && e.approved && HasStepFor(e.steps, tool, args)
  }

  /** Entry i is a step of a plan that was approved in the same turn. */
  ghost predicate InApprovedPlan(log: seq<Entry>, i: nat)
    requires i < |log| && log[i].event.Dispatch?
  {
    exists j ::
      && 0 <= j < i && log[j].turn == log[i].turn
      && ApprovesPlan(log[j].event, log[i].event.tool, log[i].event.args)
  }

  /** In the same turn a plan that need not be asked about has this step. */
  ghost predicate UnaskedStep(log: seq<Entry>, i: nat, step: S.ToolCallInfo)
    requires i < |log|
  {
    exists j :: 0 <= j < i && log[j].turn == log[i].turn && log[j].event.PlanPolicy? && step in log[j].event.steps
  }

  /** The policy has just let the call go without asking. */
  ghost predicate UnaskedCall(log: seq<Entry>, i: nat, info: S.ToolCallInfo)
    requires i < |log|
  {
    i >= 1 && log[i - 1] == Entry(log[i].turn, CallPolicy(info, false))
  }

  /** How a dispatch was cleared: by an approval of its own or of its plan; or by
      the policy, as it stands or as an unresolved step of a plan. */
  lemma HowCleared(c: Config, log: seq<Entry>, i: nat) returns (unasked: S.ToolCallInfo)
    requires Sound(c, log) && i < |log| && log[i].event.Dispatch?
    ensures !OwnApproval(log, i) && !InApprovedPlan(log, i) ==>
              && unasked.toolName == log[i].event.tool && S.RunsUnasked(c.policy, c.roles, unasked)
              && (|| (JudgedCall(unasked) && unasked.args == log[i].event.args && UnaskedCall(log, i, unasked))
                  || (JudgedStep(unasked) && Resolves(unasked.args, log[i].event.args) && UnaskedStep(log, i, unasked)))
  {
    var tool, args, before := log[i].event.tool, log[i].event.args, log[..i];
    unasked := S.ToolCallInfo("", tool, args, 0);
    SoundAt(c, log, i);
    if ClearedByCall(before, log[i].turn, tool, args) {
      SoundAt(c, log, i - 1);
      if log[i - 1].event.CallPolicy? { unasked := log[i - 1].event.info; }
    } else {
      var j :| 0 <= j < i && before[j].turn == log[i].turn && ClearsStep(before[j].event, tool, args);
      SoundAt(c, log, j);
      var k :| 0 <= k < |log[j].event.steps| && IsStepFor(log[j].event.steps[k], tool, args);
      unasked := log[j].event.steps[k];
      if log[j].event.PlanAnswer? {
        assert ApprovesPlan(log[j].event, tool, args);
      } else {
        assert unasked in log[j].event.steps;
      }
    }
  }

  /** Every dispatched tool is on the allowlist, and every dispatch of a delete_
      tool has an approval of its own, or is a step of a plan approved in the same
      turn, whatever the configured policy. */
  lemma DeleteNeedsApproval(c: Config, log: seq<Entry>, i: nat)
    requires Sound(c, log) && i < |log| && log[i].event.Dispatch?
    ensures S.IsToolAllowed(c.policy, log[i].event.tool)
    ensures HasPrefix(log[i].event.tool, "delete_") ==> OwnApproval(log, i) || InApprovedPlan(log, i)
  {
    SoundAt(c, log, i);
    var unasked := HowCleared(c, log, i);
  }

  /** Every transcript sent to the model is in the grammar. */
  lemma CallsWellFormed(c: Config, log: seq<Entry>, i: nat)
    requires Sound(c, log) && i < |log| && log[i].event.LLMCall?
    ensures var ms := log[i].event.messages; ms != [] && ms[0] == System(c.system) && WellFormed(ms[1..])
  {
    SoundAt(c, log, i);
  }

  /** A call that is gated by itself belongs to an earlier step of its turn. */
  lemma GatedIsCalled(c: Config, log: seq<Entry>, i: nat)
    requires Sound(c, log) && i < |log| && log[i].event.CallPolicy?
    ensures exists j :: 0 <= j < i && log[j].turn == log[i].turn && HasCall(log[j].event, log[i].event.info.toolName)
                        && !DataDependency(log[j].event.calls)
  {
    SoundAt(c, log, i);
    var before := log[..i];
    var j :| 0 <= j < i && before[j].turn == log[i].turn && HasCall(before[j].event, log[i].event.info.toolName);
    SoundAt(c, log, j);
  }

  /** No turn has more steps of calls than the limit. */
  lemma {:induction false} StepsLimited(c: Config, log: seq<Entry>, turn: nat)
    requires Sound(c, log)
    ensures StepsIn(log, turn) <= c.maxSteps
  {
    if log != [] { StepsLimited(c, log[..|log| - 1], turn); }
  }

  /** A call approved by itself runs with what the human put in its arguments'
      place, and with its own arguments when that is nothing. */
  lemma HumansArgumentsWin(c: Config, log: seq<Entry>, i: nat)
    requires Sound(c, log) && i < |log| && log[i].event.Dispatch? && OwnApproval(log, i)
    ensures match log[i - 1].event.payload
            case Some(amended) => log[i].event.args == amended
            case None => log[i].event.args == log[i - 2].event.info.args
  {
  }
}
