/** Runs of the workflow engine beside other writers that leave workflow_state
    alone, with an audit log inside or outside the transaction: each record's
    audit entries are a walk through the transition graph, unless a commit fails
    after the entry was written to a log outside the transaction. */
module WorkflowRuns {
  import opened Wrappers
  import opened Strings
  import opened Values
  import opened Workflow

  /** transactional: whether the log's writes are part of the transaction. */
  datatype Config = Config(transitions: seq<Transition>, transactional: bool)

  datatype Op =
    | Execute(id: string, verb: string, roles: seq<string>, now: Value, faults: Faults)
    | Other(after: Table)  // any other writer

  /** The other writer adds or changes records, but no known record's state. */
  ghost predicate LeavesStates(before: Table, after: Table) {
    forall id :: id in before ==> id in after && StateOf(after[id]) == StateOf(before[id])
  }

  ghost predicate Next(c: Config, s: State, op: Op, t: State) {
    match op
    case Execute(id, verb, roles, now, f) =>
      exists e :: Executes(c.transitions, c.transactional, s, id, verb, roles, now, f, t, e)
    case Other(after) => t == s.(table := after) && LeavesStates(s.table, after)
  }

  ghost predicate StepAt(c: Config, states: seq<State>, ops: seq<Op>, i: nat)
    requires i < |ops| && |states| == |ops| + 1
  {
    Next(c, states[i], ops[i], states[i + 1])
  }

  ghost predicate IsRun(c: Config, states: seq<State>, ops: seq<Op>) {
    |states| == |ops| + 1 && states[0].log == [] && forall i :: 0 <= i < |ops| ==> StepAt(c, states, ops, i)
  }

  /** The entry is an edge of the definition that was offered to its caller. */
  ghost predicate Offered(transitions: seq<Transition>, e: Entry) {
    exists t :: t in Available(transitions, e.oldState, e.roles) && t.to == e.newState && EqualFold(t.action, e.verb)
  }

  ghost predicate Unmoved(s: State, t: State) {
    t.log == s.log && LeavesStates(s.table, t.table)
  }

  /** One new entry, for a known record and from its state. */
  ghost predicate OneEntry(s: State, t: State) {
    && |t.log| == |s.log| + 1 && t.log[..|s.log|] == s.log
    && var e := t.log[|s.log|]; e.docID in s.table && StateOf(s.table[e.docID]) == e.oldState
  }

  /** One record moves as the one new entry says. */
  ghost predicate OneMove(s: State, t: State) {
    && OneEntry(s, t)
    && var e := t.log[|s.log|];
       forall id :: id in s.table ==>
         id in t.table && StateOf(t.table[id]) == if id == e.docID then e.newState else StateOf(s.table[id])
  }

  /** The new entry tells of a move to another state that the record did not make. */
  ghost predicate LostMove(s: State, t: State, id: string) {
    && OneEntry(s, t) && t.table == s.table && t.log[|s.log|].docID == id
    && t.log[|s.log|].newState != StateOf(s.table[id])
  }

  /** Nothing but the commit fails. */
  predicate OnlyCommitFails(f: Faults) {
    f == Faults(false, false, false, false, false, false, true)
  }

  /** The call takes a transition to another state, and its commit fails after the
      entry went to a log outside the transaction. */
  ghost predicate LosesMove(c: Config, s: State, op: Op, id: string) {
    && !c.transactional && op.Execute? && op.id == id && OnlyCommitFails(op.faults) && Found(s.table, id)
    && exists i: nat :: TakesTo(c, StateOf(s.table[id]), op, i) && c.transitions[i].to != StateOf(s.table[id])
  }

  /** The transition that a call takes, which its caller may. */
  ghost predicate TakesTo(c: Config, state: string, op: Op, i: nat)
    requires op.Execute?
  {
    IsChosen(c.transitions, state, op.verb, i) && Allowed(c.transitions[i].allowedRoles, op.roles)
  }

  /** What one step does: nothing to any known state, one offered move of one
      record with its entry, or an offered entry alone. */
  ghost predicate Effect(transitions: seq<Transition>, s: State, t: State) {
    || Unmoved(s, t)
    || (OneEntry(s, t) && Offered(transitions, t.log[|s.log|]) &&
         (OneMove(s, t) || LostMove(s, t, t.log[|s.log|].docID)))
  }

  /** An entry is written and nothing else, exactly when the call loses its move. */
  lemma StepEffect(c: Config, s: State, op: Op, t: State, id: string)
    requires Next(c, s, op, t)
    ensures Effect(c.transitions, s, t)
    ensures LosesMove(c, s, op, id) <==> LostMove(s, t, id)
  {
    if op.Execute? {
      var e :| Executes(c.transitions, c.transactional, s, op.id, op.verb, op.roles, op.now, op.faults, t, e);
      if t.log != s.log {
        var i: nat :| TakesTo(c, StateOf(s.table[op.id]), op, i)
                      && (t, e) == TransitionWith(c.transactional, s, op.id, c.transitions[i], op.roles, op.verb,
                           op.now, op.faults);
        EntryEffect(c, s, op, t, e, i, id);
      }
    }
  }

  lemma EntryEffect(c: Config, s: State, op: Op, t: State, e: Option<Error>, i: nat, id: string)
    requires op.Execute? && Found(s.table, op.id) && !op.faults.read && TakesTo(c, StateOf(s.table[op.id]), op, i)
    requires (t, e) == TransitionWith(c.transactional, s, op.id, c.transitions[i], op.roles, op.verb, op.now, op.faults)
    requires t.log != s.log
    ensures Effect(c.transitions, s, t)
    ensures LosesMove(c, s, op, id) <==> LostMove(s, t, id)
  {
    var old_, to := StateOf(s.table[op.id]), c.transitions[i].to;
    var entry := Workflow.Entry(op.id, op.roles, op.verb, old_, to);
    ChosenAvailable(c.transitions, old_, op.verb, i, op.roles);
    assert t.log == s.log + [entry];
    assert Offered(c.transitions, entry);
    if e.None? {
      assert Get(t.table[op.id], STATE_COLUMN) == Str(to);
      assert OneMove(s, t);
    }
  }

  /** In a run, a call whose transition the caller may take moves its record by it
      when nothing fails: table and log change as one move, and by nothing else. */
  lemma CallMoves(c: Config, states: seq<State>, ops: seq<Op>, i: nat, j: nat)
    requires IsRun(c, states, ops) && i < |ops| && ops[i].Execute?
    requires Takes(c.transitions, states[i], ops[i].id, ops[i].verb, ops[i].roles, j)
    ensures NoFaults(ops[i].faults) ==>
              && MovesBy(states[i], ops[i].id, c.transitions[j], ops[i].roles, ops[i].verb, ops[i].now, states[i + 1])
              && OneMove(states[i], states[i + 1])
    ensures !NoFaults(ops[i].faults) ==> states[i + 1].table == states[i].table
  {
    var s, op, t := states[i], ops[i], states[i + 1];
    assert StepAt(c, states, ops, i);
    var e :| Executes(c.transitions, c.transactional, s, op.id, op.verb, op.roles, op.now, op.faults, t, e);
    ExecuteMoves(c.transitions, c.transactional, s, op.id, op.verb, op.roles, op.now, op.faults, t, e);
    if NoFaults(op.faults) {
      assert e.None?;
      MoveIsOne(s, op.id, c.transitions[j], op.roles, op.verb, op.now, t);
    }
  }

  lemma MoveIsOne(s: State, id: string, tr: Transition, roles: seq<string>, verb: string, now: Value, t: State)
    requires id in s.table && MovesBy(s, id, tr, roles, verb, now, t)
    ensures OneMove(s, t)
  {
    assert t.log[..|s.log|] == s.log;
  }

  lemma EffectAt(c: Config, states: seq<State>, ops: seq<Op>, i: nat, id: string)
    requires IsRun(c, states, ops) && i < |ops|
    ensures Effect(c.transitions, states[i], states[i + 1])
    ensures LosesMove(c, states[i], ops[i], id) <==> LostMove(states[i], states[i + 1], id)
  {
    assert StepAt(c, states, ops, i);
    StepEffect(c, states[i], ops[i], states[i + 1], id);
  }

  // ----- chains -----

  function EntriesOf(log: seq<Entry>, id: string): seq<Entry> {
    if log == [] then [] else
    EntriesOf(log[..|log| - 1], id) + (if log[|log| - 1].docID == id then [log[|log| - 1]] else [])
  }

  /** The entries lead from one state to another, each from where the last ended. */
  ghost predicate Chain(from: string, es: seq<Entry>, to: string) {
    if es == [] then from == to
    else es[|es| - 1].newState == to && Chain(from, es[..|es| - 1], es[|es| - 1].oldState)
  }

  /** What the run has logged since state k. */
  function Since(states: seq<State>, k: nat, n: nat): seq<Entry>
    requires k < |states| && n < |states|
  {
    if |states[k].log| <= |states[n].log| then states[n].log[|states[k].log|..] else []
  }

  lemma {:induction false} LogGrows(c: Config, states: seq<State>, ops: seq<Op>, k: nat, n: nat)
    requires IsRun(c, states, ops) && k <= n <= |ops|
    ensures |states[k].log| <= |states[n].log| && states[n].log[..|states[k].log|] == states[k].log
    decreases n
  {
    if k < n {
      LogGrows(c, states, ops, k, n - 1);
      EffectAt(c, states, ops, n - 1, "");
    }
  }

  /** None of the steps k..n loses a move of the record. */
  ghost predicate KeepsMoves(c: Config, states: seq<State>, ops: seq<Op>, k: nat, n: nat, id: string)
    requires n <= |ops| && |states| == |ops| + 1
  {
    forall i :: k <= i < n ==> !LosesMove(c, states[i], ops[i], id)
  }

  lemma KeepsOneMore(c: Config, states: seq<State>, ops: seq<Op>, k: nat, n: nat, id: string)
    requires k < n <= |ops| && |states| == |ops| + 1
    ensures KeepsMoves(c, states, ops, k, n, id) <==>
            KeepsMoves(c, states, ops, k, n - 1, id) && !LosesMove(c, states[n - 1], ops[n - 1], id)
  {
  }

  /** From any moment on, a record's transition entries form a chain from its state
      then to its stored state now, exactly when no call since has lost its move. */
  lemma {:induction false} EntriesChain(c: Config, states: seq<State>, ops: seq<Op>, k: nat, n: nat, id: string)
    requires IsRun(c, states, ops) && k <= n <= |ops| && id in states[k].table
    ensures id in states[n].table
    ensures Chain(StateOf(states[k].table[id]), EntriesOf(Since(states, k, n), id), StateOf(states[n].table[id])) <==>
            KeepsMoves(c, states, ops, k, n, id)
    decreases n
  {
    if k < n {
      EntriesChain(c, states, ops, k, n - 1, id);
      LogGrows(c, states, ops, k, n - 1);
      EffectAt(c, states, ops, n - 1, id);
      ChainStep(states[n - 1], states[n], StateOf(states[k].table[id]), |states[k].log|, id);
      KeepsOneMore(c, states, ops, k, n, id);
    }
  }

  /** With a log inside the transaction, or when no commit fails, no move is lost. */
  lemma NothingLost(c: Config, states: seq<State>, ops: seq<Op>, k: nat, n: nat, id: string)
    requires IsRun(c, states, ops) && n <= |ops|
    requires c.transactional || forall i :: k <= i < n && ops[i].Execute? ==> !ops[i].faults.commit
    ensures KeepsMoves(c, states, ops, k, n, id)
  {
  }

  lemma EntriesOneMore(before: seq<Entry>, after: seq<Entry>, m: nat, id: string)
    requires m <= |before| && |after| == |before| + 1 && after[..|before|] == before
    ensures var e := after[|before|];
            EntriesOf(after[m..], id) ==
              if e.docID == id then EntriesOf(before[m..], id) + [e] else EntriesOf(before[m..], id)
  {
    var n := |before|;
    var tail := after[m..];
    assert tail[..n - m] == before[m..] && tail[n - m] == after[n] && |tail| == n - m + 1;
  }

  lemma ChainStep(s: State, t: State, from: string, m: nat, id: string)
    requires Unmoved(s, t) || OneMove(s, t) || (OneEntry(s, t) && LostMove(s, t, t.log[|s.log|].docID))
    requires m <= |s.log| && id in s.table
    ensures m <= |t.log| && id in t.table
    ensures Chain(from, EntriesOf(t.log[m..], id), StateOf(t.table[id])) <==>
            Chain(from, EntriesOf(s.log[m..], id), StateOf(s.table[id])) && !LostMove(s, t, id)
  {
    if t.log != s.log {
      EntriesOneMore(s.log, t.log, m, id);
      var es, e := EntriesOf(s.log[m..], id), t.log[|s.log|];
      assert (es + [e])[..|es|] == es;
    }
  }

  /** The record is there after n steps and was not before the last of them. */
  predicate AppearsAt(states: seq<State>, n: nat, id: string)
    requires n < |states|
  {
    id in states[n].table && (n == 0 || id !in states[n - 1].table)
  }

  /** A record that is not there yet, or has only just appeared, has no entries. */
  lemma {:induction false} NoEntriesBefore(c: Config, states: seq<State>, ops: seq<Op>, n: nat, id: string)
    requires IsRun(c, states, ops) && n <= |ops| && (id !in states[n].table || AppearsAt(states, n, id))
    ensures EntriesOf(states[n].log, id) == []
  {
    if n > 0 {
      EffectAt(c, states, ops, n - 1, "");
      assert id !in states[n - 1].table;
      NoEntriesBefore(c, states, ops, n - 1, id);
    }
  }

  lemma {:induction false} EntriesSplit(before: seq<Entry>, after: seq<Entry>, id: string)
    requires EntriesOf(before, id) == []
    ensures EntriesOf(before + after, id) == EntriesOf(after, id)
  {
    if after == [] {
      assert before + after == before;
    } else {
      var n := |after| - 1;
      assert (before + after)[..|before + after| - 1] == before + after[..n];
      EntriesSplit(before, after[..n], id);
    }
  }

  lemma {:induction false} FirstAppears(states: seq<State>, n: nat, id: string) returns (k: nat)
    requires n < |states| && id in states[n].table
    ensures k <= n && AppearsAt(states, k, id)
  {
    if n > 0 && id in states[n - 1].table {
      k := FirstAppears(states, n - 1, id);
    } else {
      k := n;
    }
  }

  /** All of a record's entries, from the log's beginning, form one chain from the
      state it first appeared with to its stored state, exactly when none of its
      calls has lost its move. */
  lemma WholeChain(c: Config, states: seq<State>, ops: seq<Op>, n: nat, id: string) returns (k: nat)
    requires IsRun(c, states, ops) && n <= |ops| && id in states[n].table
    ensures k <= n && AppearsAt(states, k, id)
    ensures Chain(StateOf(states[k].table[id]), EntriesOf(states[n].log, id), StateOf(states[n].table[id])) <==>
            KeepsMoves(c, states, ops, k, n, id)
  {
    k := FirstAppears(states, n, id);
    NoEntriesBefore(c, states, ops, k, id);
    LogGrows(c, states, ops, k, n);
    EntriesSplit(states[k].log, Since(states, k, n), id);
    assert states[n].log == states[k].log + Since(states, k, n);
    EntriesChain(c, states, ops, k, n, id);
  }

  /** Every entry ever logged is an edge that leaves its old state and was among the
      transitions available to its caller there. */
  lemma {:induction false} EntriesOffered(c: Config, states: seq<State>, ops: seq<Op>, n: nat, e: Entry)
    requires IsRun(c, states, ops) && n <= |ops| && e in states[n].log
    ensures Offered(c.transitions, e)
  {
    if n > 0 {
      EffectAt(c, states, ops, n - 1, "");
      if e in states[n - 1].log {
        EntriesOffered(c, states, ops, n - 1, e);
      }
    }
  }

  /** A run of one call whose commit fails, on a record with a move to another
      state: the entry stays, the record does not move, and the chain is broken. */
  lemma FailedCommitBreaksChain(c: Config, s: State, op: Op, t: State, i: nat)
    requires !c.transactional && s.log == [] && op.Execute? && OnlyCommitFails(op.faults) && Found(s.table, op.id)
    requires TakesTo(c, StateOf(s.table[op.id]), op, i) && c.transitions[i].to != StateOf(s.table[op.id])
    requires t == TransitionWith(false, s, op.id, c.transitions[i], op.roles, op.verb, op.now, op.faults).0
    ensures IsRun(c, [s, t], [op]) && t.table == s.table
    ensures !Chain(StateOf(s.table[op.id]), EntriesOf(t.log, op.id), StateOf(t.table[op.id]))
  {
    var states, ops := [s, t], [op];
    assert Executes(c.transitions, false, s, op.id, op.verb, op.roles, op.now, op.faults, t, Some(CommitFailed));
    assert StepAt(c, states, ops, 0);
    assert LosesMove(c, states[0], ops[0], op.id);
    EntriesChain(c, states, ops, 0, 1, op.id);
    assert Since(states, 0, 1) == t.log;
  }
}
