/** The approval policy of the agent safety layer (agent/safety/safety.go). */
module Safety {
  import opened Wrappers
  import opened Strings

  /** An argument value, as far as the policy looks at it. */
  datatype Value = Str(text: string) | Array(length: nat) | Other

  type Args = map<string, Value>

  datatype Policy = Policy(
    autoApprove: seq<string>,
    requireApproval: seq<string>,
    alwaysRequireApproval: seq<string>,
    maxBulkOperations: int,
    requireApprovalForRoles: map<string, seq<string>>,
    toolAllowlist: seq<string>)

  datatype Reason = NoReason | AlwaysRequireApproval | BulkLimit | RoleOverride | RequireApproval

  datatype Approval = Approval(required: bool, reason: Reason, targetCount: nat)

  datatype ToolCallInfo = ToolCallInfo(verb: string, toolName: string, args: Args, targetCount: nat)

  const DEFAULT_MAX_BULK := 5

  /** NewLayer's default for the bulk limit. */
  function WithDefaults(p: Policy): Policy {
    if p.maxBulkOperations == 0 then p.(maxBulkOperations := DEFAULT_MAX_BULK) else p
  }

  predicate ContainsFold(list: seq<string>, v: string) {
    exists s :: s in list && EqualFold(s, v)
  }

  function VerbFor(toolName: string, args: Args): string {
    if HasPrefix(toolName, "execute_action_") then
      if "action" in args && args["action"].Str? && args["action"].text != "" then ToLower(args["action"].text)
      else "execute_action"
    else
      var i := IndexByte(toolName, '_');
      if 0 < i < |toolName| then
        if toolName[..i] == "get" then "read" else toolName[..i]
      else toolName
  }

  predicate RoleOverrides(roles: seq<string>, m: map<string, seq<string>>, verb: string) {
    exists r :: r in roles && r in m && (m[r] == [] || ContainsFold(m[r], verb))
  }

  /** bulkCount: the size of the largest array argument, 0 when there is none.
      Go ranges over the map in an arbitrary order; the maximum does not depend
      on it. */
  ghost predicate IsBulkCount(args: Args, n: nat) {
    && (forall k :: k in args && args[k].Array? ==> args[k].length <= n)
    && (n == 0 || exists k :: k in args && args[k].Array? && args[k].length == n)
  }

  method BulkCount(args: Args) returns (largest: nat)
    ensures IsBulkCount(args, largest)
  {
    largest := 0;
    var todo := args.Keys;
    while todo != {}
      invariant todo <= args.Keys
      invariant forall k :: k in args && k !in todo && args[k].Array? ==> args[k].length <= largest
      invariant largest == 0 || exists k :: k in args && args[k].Array? && args[k].length == largest
      decreases todo
    {
      var k :| k in todo;
      if args[k].Array? && args[k].length > largest {
        largest := args[k].length;
      }
      todo := todo - {k};
    }
  }

  ghost function CountOf(info: ToolCallInfo): nat {
    if info.targetCount != 0 then info.targetCount else
    BulkCountExists(info.args);
    var n :| IsBulkCount(info.args, n); n
  }

  lemma {:induction false} BulkCountExists(args: Args)
    ensures exists n: nat :: IsBulkCount(args, n)
    decreases args.Keys
  {
    if args == map[] {
      assert IsBulkCount(args, 0);
    } else {
      var k :| k in args;
      BulkCountExists(args - {k});
      var n: nat :| IsBulkCount(args - {k}, n);
      assert forall x :: x in args && x != k ==> x in args - {k};
      var m := if args[k].Array? && args[k].length > n then args[k].length else n;
      assert IsBulkCount(args, m);
    }
  }

  ghost function VerbOf(info: ToolCallInfo): string {
    if info.verb == "" then VerbFor(info.toolName, info.args) else info.verb
  }

  /** No list or role demands approval of the verb, and it is listed for automatic
      approval. */
  predicate VerbRunsUnasked(p: Policy, roles: seq<string>, verb: string) {
    && !ContainsFold(p.alwaysRequireApproval, verb)
    && !ContainsFold(p.requireApproval, verb)
    && !RoleOverrides(roles, p.requireApprovalForRoles, verb)
    && ContainsFold(p.autoApprove, verb)
  }

  /** Exactly when a call runs without asking: never a delete_ tool, never more
      records than the bulk limit, no list or role that demands approval, and a
      verb that is listed for automatic approval. Anything else fails closed. */
  ghost predicate RunsUnasked(p: Policy, roles: seq<string>, info: ToolCallInfo) {
    && !HasPrefix(info.toolName, "delete_")
    && (p.maxBulkOperations > 0 ==> CountOf(info) <= p.maxBulkOperations)
    && VerbRunsUnasked(p, roles, VerbOf(info))
  }

  predicate OverBulkLimit(p: Policy, count: nat) {
    p.maxBulkOperations > 0 && count > p.maxBulkOperations
  }

  /** The strictest reason that applies; none exactly when the call runs unasked. */
  ghost function ReasonOf(p: Policy, roles: seq<string>, info: ToolCallInfo): (reason: Reason)
    ensures reason == NoReason <==> RunsUnasked(p, roles, info)
  {
    if HasPrefix(info.toolName, "delete_") || ContainsFold(p.alwaysRequireApproval, VerbOf(info)) then
      AlwaysRequireApproval
    else if OverBulkLimit(p, CountOf(info)) then BulkLimit
    else if RoleOverrides(roles, p.requireApprovalForRoles, VerbOf(info)) then RoleOverride
    else if RunsUnasked(p, roles, info) then NoReason
    else RequireApproval
  }

  /** RequiresApprovalWithReason: required exactly when the call does not run
      unasked, under the strictest reason, with the number of records it counted. */
  method RequiresApprovalWithReason(p: Policy, roles: seq<string>, info: ToolCallInfo) returns (a: Approval)
    ensures a.required <==> !RunsUnasked(p, roles, info)
    ensures a.reason == ReasonOf(p, roles, info)
    ensures a.targetCount == if a.reason == AlwaysRequireApproval then info.targetCount else CountOf(info)
  {
    var verb := if info.verb == "" then VerbFor(info.toolName, info.args) else info.verb;
    if HasPrefix(info.toolName, "delete_") || ContainsFold(p.alwaysRequireApproval, verb) {
      return Approval(true, AlwaysRequireApproval, info.targetCount);
    }
    var count := info.targetCount;
    if count == 0 {
      count := BulkCount(info.args);
    }
    if p.maxBulkOperations > 0 && count > p.maxBulkOperations {
      return Approval(true, BulkLimit, count);
    }
    if RoleOverrides(roles, p.requireApprovalForRoles, verb) {
      return Approval(true, RoleOverride, count);
    }
    if ContainsFold(p.requireApproval, verb) {
      return Approval(true, RequireApproval, count);
    }
    if ContainsFold(p.autoApprove, verb) {
      return Approval(false, NoReason, count);
    }
    return Approval(true, RequireApproval, count);
  }

  /** An empty allowlist allows every tool. */
  predicate IsToolAllowed(p: Policy, toolName: string) {
    p.toolAllowlist == [] || ContainsFold(p.toolAllowlist, toolName)
  }
}
