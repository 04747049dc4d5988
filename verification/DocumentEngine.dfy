/** The engine itself (document/engine.go): Create, Update and Delete change a
    table and an audit log inside a transaction that is rolled back on any error.
    Each is proved to be the state function of DocumentModel. */
module DocumentEngine {
  import opened Wrappers
  import opened SchemaTypes
  import opened Values
  import opened Dialects
  import opened Audit
  import opened DocumentModel

  method NormalizeToColumns(fields: seq<Field>, data: Row) returns (out: Row)
    ensures IsNormal(fields, data, out)
  {
    var goToCol := GoToCol(fields);
    out := map[];
    var todo := data.Keys;
    while todo != {}
      invariant todo <= data.Keys
      invariant forall k :: k in data && k !in todo ==> ColumnFor(fields, k) in out
      invariant forall c :: c in out ==> exists k :: k in data && ColumnFor(fields, k) == c && out[c] == data[k]
      decreases todo
    {
      var k :| k in todo;
      todo := todo - {k};
      if k in goToCol {
        out := out[goToCol[k] := data[k]];
      } else {
        out := out[k := data[k]];
      }
    }
  }

  method GoToCol(fields: seq<Field>) returns (m: map<string, string>)
    ensures forall k :: ColumnFor(fields, k) == if k in m then m[k] else k
  {
    m := map[];
    for i := 0 to |fields|
      invariant forall k :: ColumnFor(fields[..i], k) == if k in m then m[k] else k
    {
      assert fields[..i + 1][..i] == fields[..i];
      m := m[fields[i].name := fields[i].dbColumn];
    }
    assert fields[..|fields|] == fields;
  }

  /** checkUnique: every unique field with a value is looked up; a failing lookup
      ends the check at once. */
  method CheckUnique(fields: seq<Field>, table: Table, currentID: string, data: Row, fails: bool)
      returns (e: Option<Error>)
    ensures e == UniqueError(fields, table, currentID, data, fails)
  {
    var violated := false;
    for i := 0 to |fields|
      invariant fails ==> forall j :: 0 <= j < i ==> !Checked(fields[j], data)
      invariant violated <==> exists j ::
                && 0 <= j < i && Checked(fields[j], data)
                && Taken(table, currentID, fields[j].dbColumn, FieldValue(data, fields[j]).value)
    {
      var f := fields[i];
      if !f.unique {
        continue;
      }
      var val := FieldValue(data, f);
      if val.None? || IsZero(val.value) {
        continue;
      }
      if fails {
        assert Checked(fields[i], data);
        return Some(ReadFailed);
      }
      if Taken(table, currentID, f.dbColumn, val.value) {
        violated := true;
      }
    }
    return if violated then Some(NotUnique) else None;
  }

  method BuildInsertRow(c: Config, data: Row, now: Value, freshID: string) returns (row: Row)
    ensures row == InsertRow(c, data, now, freshID)
  {
    row := data;
    if IdText(row) == "" {
      row := row["id" := Str(freshID)];
    }
    if "created_at" !in row {
      row := row["created_at" := now];
    }
    row := row["updated_at" := now];
    if "deleted" !in row {
      row := row["deleted" := Bool(false)];
    }
    if c.submittable {
      if "doc_status" !in row {
        row := row["doc_status" := Num(0)];
      }
    }
  }

  class Engine {
    const config: Config
    var table: Table
    var log: seq<Entry>

    constructor (config: Config)
      ensures this.config == config && State() == INITIAL
    {
      this.config := config;
      table, log := map[], [];
    }

    ghost function State(): State
      reads this
    {
      DocumentModel.State(table, log)
    }

    /** Writes the entry and commits; on failure everything the transaction covers
        is put back. */
    method Finish(e: Entry, env: Env, savedTable: Table, savedLog: seq<Entry>) returns (r: Result<string, Error>)
      requires log == savedLog
      modifies this
      ensures (State(), r) == Commit(config, DocumentModel.State(savedTable, savedLog), old(table), e, env)
    {
      if env.auditFails {
        table := savedTable;
        return Err(AuditFailed);
      }
      log := log + [e];
      if env.commitFails {
        table := savedTable;
        if config.transactional {
          log := savedLog;
        }
        return Err(CommitFailed);
      }
      return Ok(e.docID);
    }

    method InsertInTx(row: Row, env: Env) returns (r: Result<string, Error>)
      modifies this
      ensures (State(), r) == CreateTx(config, old(State()), row, env)
    {
      var savedTable, savedLog := table, log;
      var id := IdText(row);
      if env.writeFails || id == "" || id in table {
        return Err(WriteFailed);
      }
      table := table[id := row];
      var seen := Then(env.afterWrite, env.afterSave, row);
      if seen.None? {
        table := savedTable;
        return Err(HookFailed);
      }
      var diff := DiffMaps(map[], seen.value);
      assert diff == DiffOf(map[], seen.value);
      r := Finish(Entry(CreateAction, id, diff), env, savedTable, savedLog);
    }

    /** Create. It is refused without effect when permission, before_validate or
        validation refuses the data; otherwise it is CreateWith on the data under
        column names. */
    method Create(data: Row, env: Env) returns (r: Result<string, Error>, ghost norm: Row)
      modifies this
      ensures var given := Then(env.permission, env.beforeValidate, data);
              if given.None? || !env.valid(given.value) then r.Err? && State() == old(State())
              else
                && IsNormal(config.fields, given.value, norm)
                && (State(), r) == CreateWith(config, old(State()), norm, env)
    {
      norm := map[];
      var filtered := env.permission(data);
      if filtered.None? {
        return Err(Denied), norm;
      }
      var given := env.beforeValidate(filtered.value);
      if given.None? {
        return Err(HookFailed), norm;
      }
      if !env.valid(given.value) {
        return Err(Invalid), norm;
      }
      var columns := NormalizeToColumns(config.fields, given.value);
      norm := columns;
      var e := CheckUnique(config.fields, table, "", columns, env.checkFails);
      if e.Some? {
        return Err(e.value), norm;
      }
      var prepared := Then(env.afterValidate, r => Then(env.beforeWrite, env.beforeSave, r), columns);
      if prepared.None? {
        return Err(HookFailed), norm;
      }
      var row := BuildInsertRow(config, prepared.value, env.now, env.freshID);
      r := InsertInTx(row, env);
    }

    method UpdateInTx(id: string, merged: Row, env: Env) returns (r: Result<string, Error>)
      requires id in table
      modifies this
      ensures (State(), r) == UpdateTx(config, old(State()), id, merged, env)
    {
      var savedTable, savedLog, oldRow := table, log, table[id];
      var row := UpdateRow(merged, env.now);
      var updated := Stored(config.dialect, table, id, row);
      if env.writeFails || updated.None? {
        return Err(WriteFailed);
      }
      table := updated.value;
      var seen := Then(env.afterWrite, env.afterSave, oldRow + row);
      if seen.None? {
        table := savedTable;
        return Err(HookFailed);
      }
      var diff := DiffMaps(oldRow, seen.value);
      assert diff == DiffOf(oldRow, seen.value);
      r := Finish(Entry(UpdateAction, id, diff), env, savedTable, savedLog);
    }

    /** Update. Likewise, on a record that can be found. */
    method Update(id: string, data: Row, env: Env) returns (r: Result<string, Error>, ghost norm: Row)
      modifies this
      ensures var given := Then(env.permission, env.beforeValidate, data);
              if given.None? || !env.valid(given.value) || !Found(old(State()), id, env) then
                r.Err? && State() == old(State())
              else
                && IsNormal(config.fields, given.value, norm)
                && (State(), r) == UpdateWith(config, old(State()), id, norm, env)
    {
      norm := map[];
      var filtered := env.permission(data);
      if filtered.None? {
        return Err(Denied), norm;
      }
      if env.readFails {
        return Err(ReadFailed), norm;
      }
      if id !in table || !Live(table[id]) {
        return Err(NotFound), norm;
      }
      var given := env.beforeValidate(filtered.value);
      if given.None? {
        return Err(HookFailed), norm;
      }
      if !env.valid(given.value) {
        return Err(Invalid), norm;
      }
      var columns := NormalizeToColumns(config.fields, given.value);
      norm := columns;
      var e := CheckUnique(config.fields, table, id, columns, env.checkFails);
      if e.Some? {
        return Err(e.value), norm;
      }
      var prepared := Then(env.afterValidate, env.beforeWrite, columns);
      if prepared.None? {
        return Err(HookFailed), norm;
      }
      var merged := env.beforeSave(table[id] + prepared.value);
      if merged.None? {
        return Err(HookFailed), norm;
      }
      r := UpdateInTx(id, merged.value, env);
    }

    /** Delete marks a record that can be found as deleted. */
    method Delete(id: string, env: Env) returns (r: Result<string, Error>)
      modifies this
      ensures if env.permission(map[]).None? || !Found(old(State()), id, env) then r.Err? && State() == old(State())
              else (State(), r) == DeleteTx(config, old(State()), id, env)
    {
      var allowed := env.permission(map[]);
      if allowed.None? {
        return Err(Denied);
      }
      if env.readFails {
        return Err(ReadFailed);
      }
      if id !in table || !Live(table[id]) {
        return Err(NotFound);
      }
      var savedTable, savedLog := table, log;
      var seen := env.beforeWrite(table[id]);
      if seen.None? {
        return Err(HookFailed);
      }
      var updated := Stored(config.dialect, table, id, map["deleted" := Bool(true), "updated_at" := env.now]);
      if env.writeFails || updated.None? {
        return Err(WriteFailed);
      }
      table := updated.value;
      var after := env.afterWrite(seen.value);
      if after.None? {
        table := savedTable;
        return Err(HookFailed);
      }
      var diff := DiffMaps(after.value, map["deleted" := Bool(true)]);
      assert diff == DiffOf(after.value, map["deleted" := Bool(true)]);
      r := Finish(Entry(DeleteAction, id, diff), env, savedTable, savedLog);
    }
  }
}
