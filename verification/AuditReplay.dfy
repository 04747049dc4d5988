/** What replaying the audit log gives, over runs of the document engine: the
    stored rows, up to printed values, and exactly when not. */
module AuditReplay {
  import opened Wrappers
  import opened SchemaTypes
  import opened Values
  import opened Dialects
  import opened Audit
  import opened DocumentModel
  import opened DocumentRuns

  /** The hook may fail, but does not change its map. */
  ghost predicate Quiet(hook: Hook) {
    forall row :: hook(row).Some? ==> hook(row) == Some(row)
  }

  ghost predicate HasDelete(log: seq<Entry>, id: string) {
    exists e :: e in log && e.action == DeleteAction && e.docID == id
  }

  ghost predicate HasEntry(log: seq<Entry>, id: string) {
    exists e :: e in log && e.docID == id
  }

  /** Of each record: replaying its entries gives its row, up to printed values;
      once deleted it is no longer live, and the replay has lost its id. */
  ghost predicate Recorded(s: State, id: string) {
    if id !in s.table then !HasEntry(s.log, id)
    else if HasDelete(s.log, id) then !Live(s.table[id]) && Get(Replay(s.log, id), "id") == Null
    else SamePrinted(Replay(s.log, id), s.table[id])
  }

  ghost predicate Faithful(s: State) {
    Keyed(s.table) && forall id :: Recorded(s, id)
  }

  lemma {:induction false} ReplayNothing(log: seq<Entry>, id: string)
    requires !HasEntry(log, id)
    ensures Replay(log, id) == map[]
  {
    if log != [] {
      var n := |log| - 1;
      assert log[n] in log && forall e :: e in log[..n] ==> e in log;
      ReplayNothing(log[..n], id);
    }
  }

  lemma EntriesAppend(log: seq<Entry>, e: Entry, id: string)
    ensures HasEntry(log + [e], id) <==> HasEntry(log, id) || e.docID == id
    ensures HasDelete(log + [e], id) <==> HasDelete(log, id) || (e.docID == id && e.action == DeleteAction)
  {
    assert e in log + [e] && forall x :: x in log ==> x in log + [e];
  }

  /** A new entry leaves the other records as they were recorded. */
  lemma OthersRecorded(s: State, t: State, e: Entry, id: string)
    requires Recorded(s, id) && e.docID != id && t.log == s.log + [e]
    requires (id in t.table <==> id in s.table) && (id in s.table ==> t.table[id] == s.table[id])
    ensures Recorded(t, id)
  {
    ReplayAppend(s.log, e, id);
    EntriesAppend(s.log, e, id);
  }

  /** An entry that is no deletion carries the replay to the row that was diffed:
      the record stays recorded exactly when that row prints like the stored one. */
  lemma EntryRecorded(s: State, t: State, e: Entry, seen: Row)
    requires var id := e.docID;
             && e.action != DeleteAction && t.log == s.log + [e] && id in t.table
             && Recorded(s, id) && !HasDelete(s.log, id)
             && e.changes == DiffOf(if id in s.table then s.table[id] else map[], seen)
    ensures Recorded(t, e.docID) <==> SamePrinted(seen, t.table[e.docID])
  {
    var id, log := e.docID, s.log;
    var before := if id in s.table then s.table[id] else map[];
    ReplayAppend(log, e, id);
    EntriesAppend(log, e, id);
    if id !in s.table {
      ReplayNothing(log, id);
      assert SamePrinted(Replay(log, id), before);
    }
    PatchRebuilds(Replay(log, id), before, seen, e.changes);
    if SamePrinted(seen, t.table[id]) { SamePrintedTransitive(Replay(t.log, id), seen, t.table[id]); }
    if SamePrinted(Replay(t.log, id), t.table[id]) { SamePrintedTransitive(seen, Replay(t.log, id), t.table[id]); }
  }

  // ----- how a call ends -----

  ghost predicate QuietAfter(env: Env) {
    Quiet(env.afterWrite) && Quiet(env.afterSave)
  }

  /** The hooks that run between the write and the entry, and before_delete, whose
      map is the one that is diffed, change nothing. */
  ghost predicate QuietOp(op: Op) {
    match op
    case Create(_, env) => QuietAfter(env)
    case Update(_, _, env) => QuietAfter(env)
    case Delete(_, env) => Quiet(env.beforeWrite) && Quiet(env.afterWrite)
  }

  /** The commit failed with the entry already in a log outside the transaction. */
  predicate EntryLeft(c: Config, r: Result<string, Error>) {
    !c.transactional && r == Err(CommitFailed)
  }

  /** A call that got as far as its entry ends with table and entry, or with the
      entry alone. */
  ghost predicate Ends(c: Config, s: State, outcome: Outcome, table: Table, e: Entry) {
    && (outcome.1.Ok? ==> outcome.0 == State(table, s.log + [e]))
    && (EntryLeft(c, outcome.1) ==> outcome.0 == s.(log := s.log + [e]))
  }

  /** Any other call changes nothing. */
  lemma ElseUnchanged(c: Config, s: State, op: Op)
    requires Step(c, s, op).1.Err? && !EntryLeft(c, Step(c, s, op).1)
    ensures Step(c, s, op).0 == s
  {
  }

  // ----- create -----

  ghost function CreateEntry(row: Row): Entry {
    Entry(CreateAction, IdText(row), DiffOf(map[], row))
  }

  lemma CreateEnds(c: Config, s: State, norm: Row, env: Env) returns (row: Row)
    requires QuietAfter(env)
    requires var r := CreateWith(c, s, norm, env).1; r.Ok? || EntryLeft(c, r)
    ensures IdText(row) != "" && IdText(row) !in s.table
    ensures Ends(c, s, CreateWith(c, s, norm, env), s.table[IdText(row) := row], CreateEntry(row))
  {
    row := InsertRow(c, Prepared(norm, env).value, env.now, env.freshID);
  }

  lemma InsertedIsRecorded(s: State, t: State, row: Row)
    requires Faithful(s) && IdText(row) != "" && IdText(row) !in s.table
    requires t == State(s.table[IdText(row) := row], s.log + [CreateEntry(row)])
    ensures Faithful(t)
  {
    var e := CreateEntry(row);
    assert Recorded(s, e.docID);
    assert SamePrinted(row, row);
    EntryRecorded(s, t, e, row);
    forall id ensures Recorded(t, id) {
      if id != e.docID {
        assert Recorded(s, id);
        OthersRecorded(s, t, e, id);
      }
    }
  }

  /** A create is recorded when it succeeds, and not when it leaves only its entry. */
  lemma CreateRecorded(c: Config, s: State, norm: Row, env: Env)
    requires Faithful(s) && QuietAfter(env)
    requires var r := CreateWith(c, s, norm, env).1; r.Ok? || EntryLeft(c, r)
    ensures Faithful(CreateWith(c, s, norm, env).0) <==> CreateWith(c, s, norm, env).1.Ok?
  {
    var row := CreateEnds(c, s, norm, env);
    var (t, r) := CreateWith(c, s, norm, env);
    if r.Ok? {
      InsertedIsRecorded(s, t, row);
    } else {
      EntriesAppend(s.log, CreateEntry(row), IdText(row));
      assert !Recorded(t, IdText(row));
    }
  }

  // ----- update -----

  /** The record after before_save carries its own id, up to what SQLite ignores. */
  predicate IdKept(d: Dialect, id: string, merged: Row) {
    "id" !in merged || (if d.Sqlite? then ValuesEqual(merged["id"], Str(id)) else merged["id"] == Str(id))
  }

  /** With quiet after-hooks the audited row prints like the stored one exactly when
      the record kept its id: SQLite never writes the id column. */
  lemma IdDecides(old_: Row, row: Row, id: string)
    requires Get(old_, "id") == Str(id)
    ensures SamePrinted(old_ + row, old_ + (row - {"id"})) <==> IdKept(Sqlite, id, row)
  {
    if IdKept(Sqlite, id, row) {
      forall k ensures ValuesEqual(Get(old_ + row, k), Get(old_ + (row - {"id"}), k)) {
        if k != "id" { assert Get(old_ + row, k) == Get(old_ + (row - {"id"}), k); }
      }
    } else {
      assert Get(old_ + row, "id") == row["id"] && Get(old_ + (row - {"id"}), "id") == Str(id);
    }
  }

  lemma StoredKeepsPrint(d: Dialect, table: Table, id: string, row: Row)
    requires Keyed(table) && id in table && IdKept(d, id, row)
    ensures Stored(d, table, id, row).Some?
    ensures var after := Stored(d, table, id, row).value;
            && after.Keys == table.Keys && (forall k :: k in table && k != id ==> after[k] == table[k])
            && IdText(after[id]) == id && SamePrinted(table[id] + row, after[id])
  {
    assert Get(table[id], "id") == Str(id);
    if d.Sqlite? {
      IdDecides(table[id], row, id);
      assert Get(table[id] + (row - {"id"}), "id") == Get(table[id], "id");
    } else {
      assert Get(table[id] + row, "id") == Str(id);
    }
  }

  lemma OthersStayRecorded(s: State, t: State, e: Entry)
    requires Faithful(s) && t.log == s.log + [e] && t.table.Keys == s.table.Keys
    requires forall k :: k in s.table && k != e.docID ==> t.table[k] == s.table[k]
    ensures forall k :: k != e.docID ==> Recorded(t, k)
  {
    forall k | k != e.docID ensures Recorded(t, k) {
      assert Recorded(s, k);
      OthersRecorded(s, t, e, k);
    }
  }

  ghost function UpdateEntry(s: State, id: string, row: Row): Entry
    requires id in s.table
  {
    Entry(UpdateAction, id, DiffOf(s.table[id], s.table[id] + row))
  }

  lemma UpdateEnds(c: Config, s: State, id: string, merged: Row, env: Env)
    requires id in s.table && QuietAfter(env)
    requires var r := UpdateTx(c, s, id, merged, env).1; r.Ok? || EntryLeft(c, r)
    ensures var row := UpdateRow(merged, env.now);
            && Stored(c.dialect, s.table, id, row).Some?
            && Ends(c, s, UpdateTx(c, s, id, merged, env), Stored(c.dialect, s.table, id, row).value,
                 UpdateEntry(s, id, row))
  {
  }

  lemma LiveHasNoDelete(s: State, id: string)
    requires Faithful(s) && id in s.table && Live(s.table[id])
    ensures Recorded(s, id) && !HasDelete(s.log, id)
  {
    assert Recorded(s, id);
  }

  lemma KeptIsRecorded(d: Dialect, s: State, t: State, id: string, row: Row)
    requires Faithful(s) && id in s.table && Live(s.table[id]) && IdKept(d, id, row)
    requires Stored(d, s.table, id, row).Some? &&
             t == State(Stored(d, s.table, id, row).value, s.log + [UpdateEntry(s, id, row)])
    ensures Faithful(t)
  {
    var e := UpdateEntry(s, id, row);
    StoredKeepsPrint(d, s.table, id, row);
    LiveHasNoDelete(s, id);
    EntryRecorded(s, t, e, s.table[id] + row);
    OthersStayRecorded(s, t, e);
  }

  /** SQLite leaves the id column out and the entry does not; PostgreSQL moves the
      record to the other id and files the entry under the old one. */
  lemma ChangedIsNotRecorded(d: Dialect, s: State, t: State, id: string, row: Row)
    requires Faithful(s) && id in s.table && Live(s.table[id]) && !IdKept(d, id, row)
    requires Stored(d, s.table, id, row).Some? &&
             t == State(Stored(d, s.table, id, row).value, s.log + [UpdateEntry(s, id, row)])
    ensures !Recorded(t, id)
  {
    var e := UpdateEntry(s, id, row);
    LiveHasNoDelete(s, id);
    if d.Sqlite? {
      IdDecides(s.table[id], row, id);
      EntryRecorded(s, t, e, s.table[id] + row);
    } else {
      assert Get(s.table[id] + row, "id") == row["id"];
      EntriesAppend(s.log, e, id);
    }
  }

  /** An entry without its update is right exactly when the update would have
      changed nothing that prints. */
  lemma LeftUpdate(s: State, t: State, id: string, row: Row)
    requires Faithful(s) && id in s.table && Live(s.table[id]) && t == s.(log := s.log + [UpdateEntry(s, id, row)])
    ensures Faithful(t) <==> SamePrinted(s.table[id] + row, s.table[id])
  {
    var e := UpdateEntry(s, id, row);
    LiveHasNoDelete(s, id);
    EntryRecorded(s, t, e, s.table[id] + row);
    OthersStayRecorded(s, t, e);
  }

  /** A successful update of a recorded table leaves it recorded exactly when the
      record it wrote kept its id. */
  lemma UpdateRecorded(c: Config, s: State, id: string, norm: Row, env: Env)
    requires Faithful(s) && QuietAfter(env)
    requires id in s.table && Live(s.table[id]) && UpdateWith(c, s, id, norm, env).1.Ok?
    ensures Faithful(UpdateWith(c, s, id, norm, env).0) <==> IdKept(c.dialect, id, Merged(s, id, norm, env).value)
  {
    var merged := Merged(s, id, norm, env).value;
    var row := UpdateRow(merged, env.now);
    var t := UpdateTx(c, s, id, merged, env).0;
    UpdateEnds(c, s, id, merged, env);
    assert IdKept(c.dialect, id, row) <==> IdKept(c.dialect, id, merged);
    if IdKept(c.dialect, id, row) {
      KeptIsRecorded(c.dialect, s, t, id, row);
    } else {
      ChangedIsNotRecorded(c.dialect, s, t, id, row);
    }
  }

  lemma UpdateLeft(c: Config, s: State, id: string, norm: Row, env: Env)
    requires Faithful(s) && QuietAfter(env)
    requires id in s.table && Live(s.table[id]) && EntryLeft(c, UpdateWith(c, s, id, norm, env).1)
    ensures Faithful(UpdateWith(c, s, id, norm, env).0) <==>
            SamePrinted(s.table[id] + UpdateRow(Merged(s, id, norm, env).value, env.now), s.table[id])
  {
    var merged := Merged(s, id, norm, env).value;
    UpdateEnds(c, s, id, merged, env);
    LeftUpdate(s, UpdateTx(c, s, id, merged, env).0, id, UpdateRow(merged, env.now));
  }

  // ----- delete -----

  ghost function DeleteEntry(s: State, id: string): Entry
    requires id in s.table
  {
    Entry(DeleteAction, id, DiffOf(s.table[id], map["deleted" := Bool(true)]))
  }

  function DeleteRow(now: Value): Row {
    map["deleted" := Bool(true), "updated_at" := now]
  }

  lemma DeleteEnds(c: Config, s: State, id: string, env: Env)
    requires id in s.table && Quiet(env.beforeWrite) && Quiet(env.afterWrite)
    requires var r := DeleteTx(c, s, id, env).1; r.Ok? || EntryLeft(c, r)
    ensures var row := DeleteRow(env.now);
            && Stored(c.dialect, s.table, id, row).Some?
            && Ends(c, s, DeleteTx(c, s, id, env), Stored(c.dialect, s.table, id, row).value, DeleteEntry(s, id))
  {
  }

  /** The entry of a deletion takes the id, like all else, out of the replay. */
  lemma DeletionRecorded(s: State, t: State, id: string)
    requires id in s.table && Get(s.table[id], "id") == Str(id)
    requires t.log == s.log + [DeleteEntry(s, id)] && id in t.table
    ensures Recorded(t, id) <==> !Live(t.table[id])
  {
    var e := DeleteEntry(s, id);
    ReplayAppend(s.log, e, id);
    EntriesAppend(s.log, e, id);
    assert Differs(s.table[id], map["deleted" := Bool(true)], "id");
    assert e.changes["id"] == Change(Str(id), Null);
  }

  lemma DeletedIsRecorded(d: Dialect, s: State, t: State, id: string, now: Value)
    requires Faithful(s) && id in s.table && Stored(d, s.table, id, DeleteRow(now)).Some?
    requires t == State(Stored(d, s.table, id, DeleteRow(now)).value, s.log + [DeleteEntry(s, id)])
    ensures Faithful(t)
  {
    assert Get(s.table[id], "id") == Str(id);
    StoredKeepsPrint(d, s.table, id, DeleteRow(now));
    DeletionRecorded(s, t, id);
    OthersStayRecorded(s, t, DeleteEntry(s, id));
  }

  lemma LeftDeletion(s: State, t: State, id: string)
    requires Faithful(s) && id in s.table && Live(s.table[id]) && t == s.(log := s.log + [DeleteEntry(s, id)])
    ensures !Faithful(t)
  {
    assert Get(s.table[id], "id") == Str(id);
    DeletionRecorded(s, t, id);
  }

  /** A deletion is recorded when it succeeds, and not when it leaves only its entry. */
  lemma DeleteRecorded(c: Config, s: State, id: string, env: Env)
    requires Faithful(s) && Quiet(env.beforeWrite) && Quiet(env.afterWrite) && id in s.table && Live(s.table[id])
    requires var r := DeleteTx(c, s, id, env).1; r.Ok? || EntryLeft(c, r)
    ensures Faithful(DeleteTx(c, s, id, env).0) <==> DeleteTx(c, s, id, env).1.Ok?
  {
    var (t, r) := DeleteTx(c, s, id, env);
    DeleteEnds(c, s, id, env);
    if r.Ok? {
      DeletedIsRecorded(c.dialect, s, t, id, env.now);
    } else {
      LeftDeletion(s, t, id);
    }
  }

  // ----- any call -----

  /** If the call is an update that succeeds, the record it writes has its own id. */
  ghost predicate WritesOwnId(c: Config, s: State, op: Op) {
    op.Update? && Step(c, s, op).1.Ok? ==> IdKept(c.dialect, op.id, Merged(s, op.id, op.norm, op.env).value)
  }

  /** The update would have changed nothing that prints. */
  ghost predicate PrintsTheSame(s: State, op: Op)
    requires op.Update?
  {
    && op.id in s.table && Merged(s, op.id, op.norm, op.env).Some?
    && SamePrinted(s.table[op.id] + UpdateRow(Merged(s, op.id, op.norm, op.env).value, op.env.now), s.table[op.id])
  }

  /** The commit failed, and a log outside the transaction tells of a change that
      the table did not make. */
  ghost predicate LosesChange(c: Config, s: State, op: Op) {
    EntryLeft(c, Step(c, s, op).1) && (op.Update? ==> !PrintsTheSame(s, op))
  }

  ghost predicate Tracks(c: Config, s: State, op: Op) {
    WritesOwnId(c, s, op) && !LosesChange(c, s, op)
  }

  lemma StepFaithful(c: Config, s: State, op: Op)
    requires QuietOp(op) && Faithful(s)
    ensures Faithful(Step(c, s, op).0) <==> Tracks(c, s, op)
  {
    var r := Step(c, s, op).1;
    if r.Ok? || EntryLeft(c, r) {
      match op {
        case Create(norm, env) => CreateRecorded(c, s, norm, env);
        case Update(id, norm, env) =>
          if r.Ok? { UpdateRecorded(c, s, id, norm, env); } else { UpdateLeft(c, s, id, norm, env); }
        case Delete(id, env) => DeleteRecorded(c, s, id, env);
      }
    } else {
      ElseUnchanged(c, s, op);
    }
  }

  // ----- runs -----

  /** Each of the first n calls writes its record, if any, under its own id, and
      leaves no entry for a change that was not made. */
  ghost predicate AlwaysTracks(c: Config, ops: seq<Op>, n: nat)
    requires n <= |ops|
  {
    n == 0 || (AlwaysTracks(c, ops, n - 1) && Tracks(c, After(c, ops, n - 1), ops[n - 1]))
  }

  /** Each of the first n states, and the one after them, is recorded by its log. */
  ghost predicate AlwaysRecorded(c: Config, ops: seq<Op>, n: nat)
    requires n <= |ops|
  {
    (n == 0 || AlwaysRecorded(c, ops, n - 1)) && Faithful(After(c, ops, n))
  }

  ghost predicate CallsQuiet(ops: seq<Op>, n: nat) {
    n <= |ops| && forall op :: op in ops[..n] ==> QuietOp(op)
  }

  lemma LastIsQuiet(ops: seq<Op>, n: nat)
    requires 0 < n && CallsQuiet(ops, n)
    ensures CallsQuiet(ops, n - 1) && QuietOp(ops[n - 1])
  {
    assert ops[..n] == ops[..n - 1] + [ops[n - 1]];
  }

  lemma FaithfulFirst(c: Config, ops: seq<Op>)
    ensures Faithful(After(c, ops, 0))
  {
  }

  lemma FaithfulAt(c: Config, ops: seq<Op>, k: nat)
    requires k < |ops| && QuietOp(ops[k]) && Faithful(After(c, ops, k))
    ensures Faithful(After(c, ops, k + 1)) <==> Tracks(c, After(c, ops, k), ops[k])
  {
    StepFaithful(c, After(c, ops, k), ops[k]);
  }

  /** With quiet hooks, every state of a run is recorded by its log exactly when
      every successful update wrote the record under its own id and no failed
      commit left the entry of a change. */
  lemma {:induction false} AlwaysFaithful(c: Config, ops: seq<Op>, n: nat)
    requires CallsQuiet(ops, n)
    ensures AlwaysRecorded(c, ops, n) <==> AlwaysTracks(c, ops, n)
  {
    if n == 0 {
      FaithfulFirst(c, ops);
    } else {
      LastIsQuiet(ops, n);
      AlwaysFaithful(c, ops, n - 1);
      if AlwaysRecorded(c, ops, n - 1) { FaithfulAt(c, ops, n - 1); }
    }
  }

  /** Then, whatever fails: replaying a record's entries in order rebuilds its
      stored row, up to equal printed values, exactly when none of them is a
      deletion, whose entry is diffed against the deleted flag alone. */
  lemma LogRebuildsRows(c: Config, ops: seq<Op>, id: string)
    requires AlwaysTracks(c, ops, |ops|) && CallsQuiet(ops, |ops|)
    requires id in After(c, ops, |ops|).table
    ensures var s := After(c, ops, |ops|); SamePrinted(Replay(s.log, id), s.table[id]) <==> !HasDelete(s.log, id)
  {
    AlwaysFaithful(c, ops, |ops|);
    var s := After(c, ops, |ops|);
    assert Recorded(s, id);
    if HasDelete(s.log, id) {
      assert Get(s.table[id], "id") == Str(id) && Get(Replay(s.log, id), "id") == Null;
    }
  }

  // ----- where the id comes from -----

  /** The hook does not put another id into a map that has the record's or none. */
  ghost predicate KeepsId(d: Dialect, id: string, hook: Hook) {
    forall row :: IdKept(d, id, row) && hook(row).Some? ==> IdKept(d, id, hook(row).value)
  }

  ghost predicate HooksKeepId(d: Dialect, id: string, env: Env) {
    KeepsId(d, id, env.afterValidate) && KeepsId(d, id, env.beforeWrite) && KeepsId(d, id, env.beforeSave)
  }

  /** With hooks that change nothing, a successful update stays recorded exactly
      when its patch carries no other id. */
  lemma PatchDecides(c: Config, s: State, id: string, norm: Row, env: Env)
    requires Faithful(s) && id in s.table && Live(s.table[id]) && UpdateWith(c, s, id, norm, env).1.Ok?
    requires Quiet(env.afterValidate) && Quiet(env.beforeWrite) && Quiet(env.beforeSave) && QuietAfter(env)
    ensures Faithful(UpdateWith(c, s, id, norm, env).0) <==> IdKept(c.dialect, id, norm)
  {
    UpdateRecorded(c, s, id, norm, env);
    assert Merged(s, id, norm, env).value == s.table[id] + norm;
    assert Get(s.table[id], "id") == Str(id);
  }

  /** What a caller can see to: a patch without another id, and hooks that put none
      in. */
  lemma CallerKeepsId(d: Dialect, s: State, id: string, norm: Row, env: Env)
    requires Keyed(s.table) && id in s.table && Merged(s, id, norm, env).Some?
    requires IdKept(d, id, norm) && HooksKeepId(d, id, env)
    ensures IdKept(d, id, Merged(s, id, norm, env).value)
  {
    var validated := env.afterValidate(norm).value;
    assert IdKept(d, id, validated);
    var data := env.beforeWrite(validated).value;
    assert IdKept(d, id, data);
    assert Get(s.table[id], "id") == Str(id);
    assert IdKept(d, id, s.table[id] + data);
  }

  /** So done, and with a log inside the transaction or a commit that succeeds. */
  ghost predicate CarefulOp(c: Config, op: Op) {
    && (op.Update? ==> IdKept(c.dialect, op.id, op.norm) && HooksKeepId(c.dialect, op.id, op.env))
    && (c.transactional || !op.env.commitFails)
  }

  lemma CommitFails(c: Config, s: State, op: Op)
    requires Step(c, s, op).1 == Err(CommitFailed)
    ensures op.env.commitFails
  {
  }

  lemma Updated(c: Config, s: State, op: Op)
    requires op.Update? && Step(c, s, op).1.Ok?
    ensures op.id in s.table && Merged(s, op.id, op.norm, op.env).Some?
  {
  }

  lemma CarefulTracks(c: Config, s: State, op: Op)
    requires Keyed(s.table) && CarefulOp(c, op)
    ensures Tracks(c, s, op)
  {
    if Step(c, s, op).1 == Err(CommitFailed) { CommitFails(c, s, op); }
    if op.Update? && Step(c, s, op).1.Ok? {
      Updated(c, s, op);
      CallerKeepsId(c.dialect, s, op.id, op.norm, op.env);
    }
  }

  ghost predicate CallsCareful(c: Config, ops: seq<Op>, n: nat) {
    n <= |ops| && forall op :: op in ops[..n] ==> CarefulOp(c, op)
  }

  lemma LastIsCareful(c: Config, ops: seq<Op>, n: nat)
    requires 0 < n && CallsCareful(c, ops, n)
    ensures CallsCareful(c, ops, n - 1) && CarefulOp(c, ops[n - 1])
  {
    assert ops[..n] == ops[..n - 1] + [ops[n - 1]];
  }

  ghost predicate KeyedAt(c: Config, ops: seq<Op>, n: nat)
    requires n <= |ops|
  {
    Keyed(After(c, ops, n).table)
  }

  lemma KeyedFirst(c: Config, ops: seq<Op>)
    ensures KeyedAt(c, ops, 0)
  {
  }

  lemma KeyedNext(c: Config, ops: seq<Op>, n: nat)
    requires n < |ops| && KeyedAt(c, ops, n)
    ensures KeyedAt(c, ops, n + 1)
  {
    StepKeepsKeyed(c, After(c, ops, n), ops[n]);
  }

  lemma {:induction false} KeyedAlways(c: Config, ops: seq<Op>, n: nat)
    requires n <= |ops|
    ensures KeyedAt(c, ops, n)
  {
    if n == 0 {
      KeyedFirst(c, ops);
    } else {
      KeyedAlways(c, ops, n - 1);
      KeyedNext(c, ops, n - 1);
    }
  }

  lemma CarefulAt(c: Config, ops: seq<Op>, k: nat)
    requires k < |ops| && CarefulOp(c, ops[k])
    ensures Tracks(c, After(c, ops, k), ops[k])
  {
    KeyedAlways(c, ops, k);
    CarefulTracks(c, After(c, ops, k), ops[k]);
  }

  /** Then every call tracks. */
  lemma {:induction false} CallersKeepIds(c: Config, ops: seq<Op>, n: nat)
    requires CallsCareful(c, ops, n)
    ensures AlwaysTracks(c, ops, n)
  {
    if n == 0 {
      TracksFirst(c, ops);
    } else {
      LastIsCareful(c, ops, n);
      CallersKeepIds(c, ops, n - 1);
      CarefulAt(c, ops, n - 1);
    }
  }

  lemma TracksFirst(c: Config, ops: seq<Op>)
    ensures AlwaysTracks(c, ops, 0)
  {
  }

  /** No handler is registered and nothing fails. */
  ghost predicate Plain(env: Env) {
    && (forall row :: env.afterValidate(row) == env.beforeWrite(row) == env.beforeSave(row) == Some(row))
    && (forall row :: env.afterWrite(row) == env.afterSave(row) == Some(row))
    && !env.readFails && !env.checkFails && !env.writeFails && !env.auditFails && !env.commitFails
  }

  lemma PlainUpdates(c: Config, s: State, id: string, norm: Row, env: Env)
    requires Keyed(s.table) && id in s.table && Plain(env)
    requires c.dialect.Postgres? ==> IdText(s.table[id] + norm) != "" && IdText(s.table[id] + norm) !in s.table
    ensures Merged(s, id, norm, env) == Some(s.table[id] + norm)
    ensures UpdateTx(c, s, id, s.table[id] + norm, env).1.Ok?
  {
    var merged := s.table[id] + norm;
    var row := UpdateRow(merged, env.now);
    assert Get(s.table[id] + row, "id") == Get(merged, "id");
  }

  /** The HTTP handler passes a patch on as it came. Without any handler, a patch
      that carries another id succeeds, and the log no longer rebuilds the record:
      SQLite keeps the id that the entry says was replaced, PostgreSQL moves the
      record out of the reach of its entries. */
  lemma PatchedIdBreaksReplay(c: Config, s: State, id: string, patch: Row, other: string, env: Env)
    requires Faithful(s) && Found(s, id, env) && Plain(env)
    requires patch == map["id" := Str(other)] && UniqueError(c.fields, s.table, id, patch, env.checkFails) == None
    requires other != id && (c.dialect.Postgres? ==> other != "" && other !in s.table)
    ensures var (t, r) := Step(c, s, Update(id, patch, env)); r.Ok? && !Recorded(t, id)
  {
    var merged := s.table[id] + patch;
    PlainUpdates(c, s, id, patch, env);
    UpdateEnds(c, s, id, merged, env);
    ChangedIsNotRecorded(c.dialect, s, UpdateTx(c, s, id, merged, env).0, id, UpdateRow(merged, env.now));
  }
}
