/** What the approval policy makes of the generated operation tools, and what that
    means for everything that is ever dispatched. */
module PolicyVerbs {
  import opened Wrappers
  import opened Strings
  import opened RunLog
  import S = Safety
  import T = ToolNames

  /** The verb of each operation, in the order of the prefixes: a workflow tool goes
      by the action it is called with. */
  function OperationVerb(i: nat, args: S.Args): string {
    match i
    case 0 => "create"
    case 1 => "update"
    case 2 => "delete"
    case 3 => "read"
    case 4 => "list"
    case 5 => "search"
    case _ =>
      if "action" in args && args["action"].Str? && args["action"].text != "" then ToLower(args["action"].text)
      else "execute_action"
  }

  /** A list or a role demands approval of the verb, or none grants it. */
  ghost predicate Demanded(p: S.Policy, roles: seq<string>, verb: string) {
    || (exists v :: v in p.alwaysRequireApproval && EqualFold(v, verb))
    || (exists v :: v in p.requireApproval && EqualFold(v, verb))
    || (exists r :: r in roles && r in p.requireApprovalForRoles
                    && (p.requireApprovalForRoles[r] == []
                        || exists v :: v in p.requireApprovalForRoles[r] && EqualFold(v, verb)))
    || (forall v :: v in p.autoApprove ==> !EqualFold(v, verb))
  }

  lemma DemandedIsNotUnasked(p: S.Policy, roles: seq<string>, verb: string)
    ensures S.VerbRunsUnasked(p, roles, verb) <==> !Demanded(p, roles, verb)
  {
    assert S.ContainsFold(p.alwaysRequireApproval, verb) <==>
        exists v :: v in p.alwaysRequireApproval && EqualFold(v, verb);
    assert S.ContainsFold(p.requireApproval, verb) <==> exists v :: v in p.requireApproval && EqualFold(v, verb);
  }

  /** Some array argument is over the bulk limit, or so is the recorded count. */
  ghost predicate TooMany(p: S.Policy, info: S.ToolCallInfo) {
    p.maxBulkOperations > 0 &&
      if info.targetCount != 0 then info.targetCount > p.maxBulkOperations
      else exists k :: k in info.args && info.args[k].Array? && info.args[k].length > p.maxBulkOperations
  }

  lemma CountedExactly(p: S.Policy, info: S.ToolCallInfo)
    ensures TooMany(p, info) <==> p.maxBulkOperations > 0 && S.CountOf(info) > p.maxBulkOperations
  {
    S.BulkCountExists(info.args);
    if info.targetCount == 0 && p.maxBulkOperations > 0 {
      var n := S.CountOf(info);
      assert S.IsBulkCount(info.args, n);
    }
  }

  lemma VerbOfOperation(i: nat, rest: string, args: S.Args)
    requires i < |T.OPERATION_PREFIXES|
    ensures S.VerbFor(T.OPERATION_PREFIXES[i] + rest, args) == OperationVerb(i, args)
  {
    var prefix := T.OPERATION_PREFIXES[i];
    var name := prefix + rest;
    if i < 6 {
      T.PrefixInitials(i, 6);
      assert name[0] == prefix[0];
      var n := |prefix| - 1;
      assert prefix[n] == '_' && forall j :: 0 <= j < n ==> prefix[j] != '_';
      assert forall j :: 0 <= j <= n ==> name[j] == prefix[j];
      assert IndexByte(name, '_') == n;
      assert name[..n] == prefix[..n];
    }
  }

  /** When an operation tool runs unasked, by its operation and arguments alone. */
  lemma OperationRunsUnasked(p: S.Policy, roles: seq<string>, i: nat, rest: string, args: S.Args, count: nat)
    requires i < |T.OPERATION_PREFIXES|
    ensures var info := S.ToolCallInfo("", T.OPERATION_PREFIXES[i] + rest, args, count);
            S.RunsUnasked(p, roles, info) <==>
              i != 2 && !TooMany(p, info) && !Demanded(p, roles, OperationVerb(i, args))
  {
    var info := S.ToolCallInfo("", T.OPERATION_PREFIXES[i] + rest, args, count);
    VerbOfOperation(i, rest, args);
    DeletePrefix(i, rest);
    DemandedIsNotUnasked(p, roles, OperationVerb(i, args));
    CountedExactly(p, info);
  }

  lemma DeletePrefix(i: nat, rest: string)
    requires i < |T.OPERATION_PREFIXES|
    ensures HasPrefix(T.OPERATION_PREFIXES[i] + rest, "delete_") <==> i == 2
  {
    if i < 2 { T.PrefixInitials(i, 2); }
    if i > 2 { T.PrefixInitials(2, i); }
    assert "delete_"[0] == 'd';
  }

  /** Likewise for a call or a step as the runtime asks about it. */
  lemma JudgedRunsUnasked(p: S.Policy, roles: seq<string>, i: nat, rest: string, info: S.ToolCallInfo)
    requires i < |T.OPERATION_PREFIXES| && info.toolName == T.OPERATION_PREFIXES[i] + rest
    requires info.toolName !in T.DISCOVERY_TOOLS && (JudgedCall(info) || JudgedStep(info))
    requires S.RunsUnasked(p, roles, info)
    ensures i != 2 && !TooMany(p, info) && !Demanded(p, roles, OperationVerb(i, info.args))
  {
    VerbOfOperation(i, rest, info.args);
    DeletePrefix(i, rest);
    DemandedIsNotUnasked(p, roles, OperationVerb(i, info.args));
    CountedExactly(p, info);
  }

  /** A recorded count within the limit hides an argument over it: the arguments are
      counted only when there is no count on record. */
  lemma CountHidesBulk(p: S.Policy, roles: seq<string>, i: nat, rest: string, key: string, n: nat, count: nat)
    requires i < |T.OPERATION_PREFIXES| && i != 2 && key != "action"
    requires 0 < count <= p.maxBulkOperations < n
    requires !Demanded(p, roles, OperationVerb(i, map[key := S.Array(n)]))
    ensures var name, args := T.OPERATION_PREFIXES[i] + rest, map[key := S.Array(n)];
            && S.RunsUnasked(p, roles, S.ToolCallInfo("", name, args, count))
            && !S.RunsUnasked(p, roles, S.ToolCallInfo("", name, args, 0))
  {
    var args: S.Args := map[key := S.Array(n)];
    OperationRunsUnasked(p, roles, i, rest, args, count);
    OperationRunsUnasked(p, roles, i, rest, args, 0);
    assert args[key].length > p.maxBulkOperations;
  }

  /** The reason a request for approval gives: the first of these that applies. */
  lemma ReasonGiven(p: S.Policy, roles: seq<string>, i: nat, rest: string, args: S.Args, count: nat)
    requires i < |T.OPERATION_PREFIXES|
    ensures var info := S.ToolCallInfo("", T.OPERATION_PREFIXES[i] + rest, args, count);
            var verb := OperationVerb(i, args);
            var always := i == 2 || exists v :: v in p.alwaysRequireApproval && EqualFold(v, verb);
            var byRole := exists r :: r in roles && r in p.requireApprovalForRoles
                                      && (p.requireApprovalForRoles[r] == []
                                          || exists v :: v in p.requireApprovalForRoles[r] && EqualFold(v, verb));
            && (S.ReasonOf(p, roles, info) == S.AlwaysRequireApproval <==> always)
            && (S.ReasonOf(p, roles, info) == S.BulkLimit <==> !always && TooMany(p, info))
            && (S.ReasonOf(p, roles, info) == S.RoleOverride <==> !always && !TooMany(p, info) && byRole)
            && (S.ReasonOf(p, roles, info) == S.RequireApproval <==>
                  !always && !TooMany(p, info) && !byRole && Demanded(p, roles, verb))
  {
    var info := S.ToolCallInfo("", T.OPERATION_PREFIXES[i] + rest, args, count);
    VerbOfOperation(i, rest, args);
    DeletePrefix(i, rest);
    OperationRunsUnasked(p, roles, i, rest, args, count);
    CountedExactly(p, info);
  }

  // ----- what is dispatched -----

  /** In the same turn a plan that need not be asked about has this tool with an
      action that is a reference, and the reference itself is a verb for automatic
      approval. */
  ghost predicate ActionIsListedReference(c: Config, log: seq<Entry>, i: nat)
    requires i < |log| && log[i].event.Dispatch?
  {
    exists step ::
      && UnaskedStep(log, i, step) && step.toolName == log[i].event.tool
      && ListedReference(c.policy, step.args)
  }

  ghost predicate ListedReference(p: S.Policy, args: S.Args) {
    && "action" in args && IsRef(args["action"])
    && exists v :: v in p.autoApprove && EqualFold(v, ToLower(args["action"].text))
  }

  /** In every acceptable log, an operation whose verb a list or role puts under
      approval, or that no list lets run, has an approval of its own or is a step
      of a plan approved in the same turn. Only a workflow action can escape, in a
      plan that names it by a reference which is itself listed. */
  lemma DemandedIsApproved(c: Config, log: seq<Entry>, i: nat, k: nat, rest: string)
    requires Sound(c, log) && i < |log| && log[i].event.Dispatch?
    requires k < |T.OPERATION_PREFIXES| && log[i].event.tool == T.OPERATION_PREFIXES[k] + rest
    requires log[i].event.tool !in T.DISCOVERY_TOOLS
    requires k == 2 || Demanded(c.policy, c.roles, OperationVerb(k, log[i].event.args))
    ensures OwnApproval(log, i) || InApprovedPlan(log, i) || (k == 6 && ActionIsListedReference(c, log, i))
  {
    var unasked := HowCleared(c, log, i);
    if !OwnApproval(log, i) && !InApprovedPlan(log, i) {
      var args := log[i].event.args;
      JudgedRunsUnasked(c.policy, c.roles, k, rest, unasked);
      assert OperationVerb(k, unasked.args) != OperationVerb(k, args);
      assert k == 6 && JudgedStep(unasked);
      VerbChanges(unasked.args, args);
      assert ListedReference(c.policy, unasked.args);
    }
  }

  /** The verb of a workflow action changes only with a reference for it. */
  lemma VerbChanges(args: S.Args, resolved: S.Args)
    requires Resolves(args, resolved) && OperationVerb(6, args) != OperationVerb(6, resolved)
    ensures "action" in args && IsRef(args["action"]) && OperationVerb(6, args) == ToLower(args["action"].text)
  {
    assert args["action"].text != "";
  }

  /** The policy counted the records of the last list or search, not the arguments. */
  ghost predicate CountedInstead(c: Config, log: seq<Entry>, i: nat)
    requires i < |log| && log[i].event.Dispatch?
  {
    exists info :: UnaskedCall(log, i, info) && 0 < info.targetCount <= c.policy.maxBulkOperations
  }

  /** And a call with more records than the bulk limit in one argument, unless a
      plan's reference became that argument, or a count on record, within the limit,
      was looked at in its place. */
  lemma BulkIsApproved(c: Config, log: seq<Entry>, i: nat, key: string)
    requires Sound(c, log) && i < |log| && log[i].event.Dispatch?
    requires key in log[i].event.args && log[i].event.args[key].Array?
    requires 0 < c.policy.maxBulkOperations < log[i].event.args[key].length
    ensures || OwnApproval(log, i) || InApprovedPlan(log, i) || CountedInstead(c, log, i)
            || exists step :: UnaskedStep(log, i, step) && step.toolName == log[i].event.tool
                              && key in step.args && IsRef(step.args[key])
  {
    var unasked := HowCleared(c, log, i);
    if !OwnApproval(log, i) && !InApprovedPlan(log, i) {
      CountedExactly(c.policy, unasked);
    }
  }
}
