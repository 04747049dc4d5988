/** The workflow engine (workflow/engine.go) on one document type: which
    transitions a caller may take, and Execute inside its transaction. */
module Workflow {
  import opened Wrappers
  import opened Strings
  import opened Values

  const STATE_COLUMN := "workflow_state"
  const ADMINISTRATOR := "System Administrator"

  datatype Transition = Transition(from: string, to: string, action: string, allowedRoles: seq<string>)

  /** A transition as the audit log has it, with the caller's roles and the verb
      of the call. */
  datatype Entry = Entry(docID: string, roles: seq<string>, verb: string, oldState: string, newState: string)

  type Table = map<string, Row>

  datatype Error = NotFound | ReadFailed | NoTransition | Denied | GuardFailed | WriteFailed | EventFailed
      | HandlerFailed | AuditFailed | CommitFailed

  /** What fails in one call: the read, the guard, the update, the event, the
      handler, the audit write or the commit. */
  datatype Faults = Faults(read: bool, guard: bool, write: bool, event: bool, handler: bool, audit: bool, commit: bool)

  /** doc["workflow_state"].(string), "" when it is no string. */
  function StateOf(row: Row): string {
    if Get(row, STATE_COLUMN).Str? then Get(row, STATE_COLUMN).text else ""
  }

  predicate Leaves(t: Transition, state: string) {
    EqualFold(t.from, state) || t.from == "" || t.from == "*"
  }

  predicate Allowed(allowedRoles: seq<string>, roles: seq<string>) {
    || allowedRoles == []
    || (exists r :: r in roles && EqualFold(r, ADMINISTRATOR))
    || "*" in allowedRoles
    || exists a, r :: a in allowedRoles && r in roles && EqualFold(r, a)
  }

  /** CheckRoles of the permission engine. */
  method CheckRoles(allowedRoles: seq<string>, roles: seq<string>) returns (ok: bool)
    ensures ok <==> Allowed(allowedRoles, roles)
  {
    if |allowedRoles| == 0 {
      return true;
    }
    for i := 0 to |roles|
      invariant forall k :: 0 <= k < i ==> !EqualFold(roles[k], ADMINISTRATOR)
    {
      if EqualFold(roles[i], ADMINISTRATOR) {
        return true;
      }
    }
    for i := 0 to |allowedRoles|
      invariant forall k :: 0 <= k < i ==> allowedRoles[k] != "*"
      invariant forall k, r :: 0 <= k < i && r in roles ==> !EqualFold(r, allowedRoles[k])
    {
      if allowedRoles[i] == "*" {
        return true;
      }
      for j := 0 to |roles|
        invariant forall k :: 0 <= k < j ==> !EqualFold(roles[k], allowedRoles[i])
      {
        if EqualFold(roles[j], allowedRoles[i]) {
          return true;
        }
      }
    }
    return false;
  }

  /** The transitions out of a state that the caller may take, in order. */
  function Available(transitions: seq<Transition>, state: string, roles: seq<string>): seq<Transition> {
    if transitions == [] then [] else
    var t := transitions[|transitions| - 1];
    Available(transitions[..|transitions| - 1], state, roles)
    + (if Leaves(t, state) && Allowed(t.allowedRoles, roles) then [t] else [])
  }

  method AvailableTransitions(transitions: seq<Transition>, currentState: string, roles: seq<string>)
      returns (available: seq<Transition>)
    ensures available == Available(transitions, currentState, roles)
  {
    available := [];
    for i := 0 to |transitions|
      invariant available == Available(transitions[..i], currentState, roles)
    {
      var t := transitions[i];
      assert transitions[..i + 1][..i] == transitions[..i];
      if !EqualFold(t.from, currentState) && t.from != "" && t.from != "*" {
        continue;
      }
      var ok := CheckRoles(t.allowedRoles, roles);
      if !ok {
        continue;
      }
      available := available + [t];
    }
    assert transitions[..|transitions|] == transitions;
  }

  lemma {:induction false} AvailableMember(transitions: seq<Transition>, state: string,
      roles: seq<string>, t: Transition)
    ensures t in Available(transitions, state, roles) <==>
              t in transitions && Leaves(t, state) && Allowed(t.allowedRoles, roles)
    ensures t in Available(transitions, state, roles) <==>
              && t in transitions
              && (EqualFold(t.from, state) || t.from == "" || t.from == "*")
              && (|| t.allowedRoles == [] || "*" in t.allowedRoles
                  || exists r :: r in roles && (EqualFold(r, "System Administrator")
                                                || exists a :: a in t.allowedRoles && EqualFold(r, a)))
  {
    if transitions != [] {
      var n := |transitions| - 1;
      AvailableMember(transitions[..n], state, roles, t);
      assert transitions == transitions[..n] + [transitions[n]];
    }
  }

  predicate Fires(t: Transition, state: string, verb: string) {
    Leaves(t, state) && EqualFold(t.action, verb)
  }

  /** The transition Execute takes: the first that leaves the state under the verb. */
  ghost predicate IsChosen(transitions: seq<Transition>, state: string, verb: string, i: nat) {
    i < |transitions| && Fires(transitions[i], state, verb) &&
      forall k :: 0 <= k < i ==> !Fires(transitions[k], state, verb)
  }

  method Choose(transitions: seq<Transition>, state: string, verb: string) returns (chosen: Option<nat>)
    ensures chosen.Some? ==> IsChosen(transitions, state, verb, chosen.value)
    ensures chosen.None? ==> forall k :: 0 <= k < |transitions| ==> !Fires(transitions[k], state, verb)
  {
    for i := 0 to |transitions|
      invariant forall k :: 0 <= k < i ==> !Fires(transitions[k], state, verb)
    {
      if Fires(transitions[i], state, verb) {
        return Some(i);
      }
    }
    return None;
  }

  /** A call goes through the role check exactly when its chosen transition is
      available to the caller: a later one with the same verb is never tried. */
  lemma ChosenAvailable(transitions: seq<Transition>, state: string, verb: string, i: nat, roles: seq<string>)
    requires IsChosen(transitions, state, verb, i)
    ensures Allowed(transitions[i].allowedRoles, roles) <==> transitions[i] in Available(transitions, state, roles)
  {
    AvailableMember(transitions, state, roles, transitions[i]);
    assert transitions[i] in transitions;
  }

  /** An available transition can be out of reach: another of the same verb stands
      before it. It is the one Execute takes exactly when none does. */
  lemma AvailableChosen(transitions: seq<Transition>, state: string, i: nat, j: nat, roles: seq<string>)
    requires i < |transitions| && transitions[i] in Available(transitions, state, roles)
    requires IsChosen(transitions, state, transitions[i].action, j)
    ensures j <= i
    ensures j == i <==> forall k :: 0 <= k < i ==> !Fires(transitions[k], state, transitions[i].action)
  {
    AvailableMember(transitions, state, roles, transitions[i]);
    assert Fires(transitions[i], state, transitions[i].action);
  }

  // ----- one call as a function from state to state -----

  /** The record table and the audit log. */
  datatype State = State(table: Table, log: seq<Entry>)

  function Moved(row: Row, to: string, now: Value): Row {
    row[STATE_COLUMN := Str(to)]["updated_at" := now]
  }

  predicate Found(table: Table, id: string) {
    id in table && SqlEquals(table[id], "deleted", Bool(false))
  }

  /** The transaction of a transition: everything, or nothing but an entry that a
      log outside the transaction keeps when the commit fails. */
  function TransitionWith(transactional: bool, s: State, id: string, t: Transition, roles: seq<string>, verb: string,
      now: Value, f: Faults): (State, Option<Error>)
    requires id in s.table
  {
    var logged := s.log + [Entry(id, roles, verb, StateOf(s.table[id]), t.to)];
    if f.guard then (s, Some(GuardFailed))
    else if f.write then (s, Some(WriteFailed))
    else if f.event then (s, Some(EventFailed))
    else if f.handler then (s, Some(HandlerFailed))
    else if f.audit then (s, Some(AuditFailed))
    else if f.commit then (if transactional then s else s.(log := logged), Some(CommitFailed))
    else (State(s.table[id := Moved(s.table[id], t.to, now)], logged), None)
  }

  class Engine {
    const transitions: seq<Transition>
    const transactional: bool  // whether the audit log takes part in the transaction
    var table: Table
    var log: seq<Entry>

    constructor (transitions: seq<Transition>, transactional: bool, table: Table)
      ensures this.transitions == transitions && this.transactional == transactional && Current() == State(table, [])
    {
      this.transitions, this.transactional, this.table := transitions, transactional, table;
      log := [];
    }

    ghost function Current(): State
      reads this
    {
      State(table, log)
    }

    /** Guard, update, event, handler, audit and commit; any failure puts back what
        the transaction covers. */
    method TransitionInTx(id: string, t: Transition, roles: seq<string>, verb: string, now: Value, f: Faults)
        returns (e: Option<Error>)
      requires id in table
      modifies this
      ensures (Current(), e) == TransitionWith(transactional, old(Current()), id, t, roles, verb, now, f)
    {
      var savedTable, savedLog := table, log;
      var currentState := StateOf(table[id]);
      if f.guard {
        return Some(GuardFailed);
      }
      if f.write {
        return Some(WriteFailed);
      }
      table := table[id := table[id][STATE_COLUMN := Str(t.to)]["updated_at" := now]];
      if f.event {
        table := savedTable;
        return Some(EventFailed);
      }
      if f.handler {
        table := savedTable;
        return Some(HandlerFailed);
      }
      if f.audit {
        table := savedTable;
        return Some(AuditFailed);
      }
      log := log + [Entry(id, roles, verb, currentState, t.to)];
      if f.commit {
        table := savedTable;
        if transactional {
          log := savedLog;
        }
        return Some(CommitFailed);
      }
      return None;
    }

    /** Execute: a record that can be found takes the first transition that fires,
        if the caller may; otherwise nothing happens. */
    method Execute(id: string, verb: string, roles: seq<string>, now: Value, f: Faults) returns (e: Option<Error>)
      modifies this
      ensures Executes(transitions, transactional, old(Current()), id, verb, roles, now, f, Current(), e)
    {
      if f.read {
        return Some(ReadFailed);
      }
      if id !in table || !SqlEquals(table[id], "deleted", Bool(false)) {
        return Some(NotFound);
      }
      var currentState := StateOf(table[id]);
      var chosen := Choose(transitions, currentState, verb);
      if chosen.None? {
        return Some(NoTransition);
      }
      var t := transitions[chosen.value];
      var allowed := CheckRoles(t.allowedRoles, roles);
      if !allowed {
        return Some(Denied);
      }
      e := TransitionInTx(id, t, roles, verb, now, f);
    }
  }

  /** What a call of Execute does. */
  ghost predicate Executes(transitions: seq<Transition>, transactional: bool, s: State, id: string, verb: string,
      roles: seq<string>, now: Value, f: Faults, t: State, e: Option<Error>) {
    if f.read then (t, e) == (s, Some(ReadFailed))
    else if !Found(s.table, id) then (t, e) == (s, Some(NotFound))
    else if exists i: nat :: IsChosen(transitions, StateOf(s.table[id]), verb, i) then
      var i: nat :| IsChosen(transitions, StateOf(s.table[id]), verb, i);
      if !Allowed(transitions[i].allowedRoles, roles) then (t, e) == (s, Some(Denied))
      else (t, e) == TransitionWith(transactional, s, id, transitions[i], roles, verb, now, f)
    else (t, e) == (s, Some(NoTransition))
  }

  // ----- what a caller gets -----

  predicate NoFaults(f: Faults) {
    !f.read && !f.guard && !f.write && !f.event && !f.handler && !f.audit && !f.commit
  }

  /** The record is in the transition's new state, stamped now, and otherwise as it
      was, like all other records; the log tells of exactly that move. */
  ghost predicate MovesBy(s: State, id: string, tr: Transition, roles: seq<string>, verb: string, now: Value, t: State)
    requires id in s.table
  {
    && t.table.Keys == s.table.Keys
    && (forall k :: k in s.table && k != id ==> t.table[k] == s.table[k])
    && StateOf(t.table[id]) == tr.to && Get(t.table[id], "updated_at") == now
    && (forall column :: column != "workflow_state" && column != "updated_at" ==>
          && (column in t.table[id] <==> column in s.table[id])
          && Get(t.table[id], column) == Get(s.table[id], column))
    && t.log == s.log + [Entry(id, roles, verb, StateOf(s.table[id]), tr.to)]
  }

  lemma TransitionMoves(transactional: bool, s: State, id: string, tr: Transition, roles: seq<string>, verb: string,
      now: Value, f: Faults)
    requires id in s.table && NoFaults(f)
    ensures var (t, e) := TransitionWith(transactional, s, id, tr, roles, verb, now, f);
            e.None? && MovesBy(s, id, tr, roles, verb, now, t)
  {
  }

  lemma TransitionFails(transactional: bool, s: State, id: string, tr: Transition, roles: seq<string>, verb: string,
      now: Value, f: Faults)
    requires id in s.table && !f.read && !NoFaults(f)
    ensures var (t, e) := TransitionWith(transactional, s, id, tr, roles, verb, now, f);
            && e.Some? && t.table == s.table
            && (t.log == s.log || (!transactional && f.commit))
  {
  }

  /** The record can be found, and transition i, the first that fires, is open to
      the caller. */
  ghost predicate Takes(transitions: seq<Transition>, s: State, id: string, verb: string, roles: seq<string>, i: nat) {
    && Found(s.table, id) && IsChosen(transitions, StateOf(s.table[id]), verb, i)
    && Allowed(transitions[i].allowedRoles, roles)
  }

  lemma TakenOutcome(transitions: seq<Transition>, transactional: bool, s: State, id: string, verb: string,
      roles: seq<string>, now: Value, f: Faults, t: State, e: Option<Error>, i: nat)
    requires Executes(transitions, transactional, s, id, verb, roles, now, f, t, e)
    requires !f.read && Takes(transitions, s, id, verb, roles, i)
    ensures (t, e) == TransitionWith(transactional, s, id, transitions[i], roles, verb, now, f)
  {
    assert forall j: nat :: IsChosen(transitions, StateOf(s.table[id]), verb, j) ==> j == i;
  }

  lemma UntakenOutcome(transitions: seq<Transition>, transactional: bool, s: State, id: string, verb: string,
      roles: seq<string>, now: Value, f: Faults, t: State, e: Option<Error>)
    requires Executes(transitions, transactional, s, id, verb, roles, now, f, t, e)
    requires f.read || forall i: nat :: !Takes(transitions, s, id, verb, roles, i)
    ensures t == s && e.Some?
  {
    if !f.read && Found(s.table, id) {
      forall i: nat | IsChosen(transitions, StateOf(s.table[id]), verb, i)
        ensures !Allowed(transitions[i].allowedRoles, roles)
      {
        assert !Takes(transitions, s, id, verb, roles, i);
      }
    }
  }

  /** Execute succeeds exactly when nothing fails, the record can be found, and the
      first transition that fires is open to the caller; it then moves the record
      by that transition. A call that fails leaves every record as it was. */
  lemma ExecuteMoves(transitions: seq<Transition>, transactional: bool, s: State, id: string, verb: string,
      roles: seq<string>, now: Value, f: Faults, t: State, e: Option<Error>)
    requires Executes(transitions, transactional, s, id, verb, roles, now, f, t, e)
    ensures e.None? <==> NoFaults(f) && exists i: nat :: Takes(transitions, s, id, verb, roles, i)
    ensures e.None? ==> forall i: nat :: Takes(transitions, s, id, verb, roles, i) ==>
                          MovesBy(s, id, transitions[i], roles, verb, now, t)
    ensures e.Some? ==> t.table == s.table && (t.log == s.log || (!transactional && f.commit))
  {
    if !f.read && exists i: nat :: Takes(transitions, s, id, verb, roles, i) {
      forall i: nat | Takes(transitions, s, id, verb, roles, i)
        ensures e.None? <==> NoFaults(f)
        ensures e.None? ==> MovesBy(s, id, transitions[i], roles, verb, now, t)
        ensures e.Some? ==> t.table == s.table && (t.log == s.log || (!transactional && f.commit))
      {
        TakenOutcome(transitions, transactional, s, id, verb, roles, now, f, t, e, i);
        if NoFaults(f) {
          TransitionMoves(transactional, s, id, transitions[i], roles, verb, now, f);
        } else {
          TransitionFails(transactional, s, id, transitions[i], roles, verb, now, f);
        }
      }
    } else {
      UntakenOutcome(transitions, transactional, s, id, verb, roles, now, f, t, e);
    }
  }

  /** Why a call is refused before its transaction. */
  lemma ExecuteRefuses(transitions: seq<Transition>, transactional: bool, s: State, id: string, verb: string,
      roles: seq<string>, now: Value, f: Faults, t: State, e: Option<Error>)
    requires Executes(transitions, transactional, s, id, verb, roles, now, f, t, e)
    ensures e == Some(ReadFailed) <==> f.read
    ensures e == Some(NotFound) <==> !f.read && !Found(s.table, id)
    ensures e == Some(NoTransition) <==>
              && !f.read && Found(s.table, id)
              && forall k :: 0 <= k < |transitions| ==> !Fires(transitions[k], StateOf(s.table[id]), verb)
    ensures e == Some(Denied) <==>
              && !f.read && Found(s.table, id)
              && exists i: nat :: IsChosen(transitions, StateOf(s.table[id]), verb, i)
                                  && !Allowed(transitions[i].allowedRoles, roles)
  {
    if !f.read && Found(s.table, id) {
      var state := StateOf(s.table[id]);
      if k :| 0 <= k < |transitions| && Fires(transitions[k], state, verb) {
        var i := FirstFires(transitions, state, verb, k);
      }
      assert forall i: nat, j: nat ::
          IsChosen(transitions, state, verb, i) && IsChosen(transitions, state, verb, j) ==> i == j;
    }
  }

  lemma {:induction false} FirstFires(transitions: seq<Transition>, state: string, verb: string, k: nat)
      returns (i: nat)
    requires k < |transitions| && Fires(transitions[k], state, verb)
    ensures IsChosen(transitions, state, verb, i)
  {
    if j :| 0 <= j < k && Fires(transitions[j], state, verb) {
      i := FirstFires(transitions, state, verb, j);
    } else {
      i := k;
    }
  }
}
