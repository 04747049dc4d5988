/** What a caller of the document engine gets: when a call succeeds, and what the
    table then holds, column by column. */
module DocumentEffects {
  import opened Wrappers
  import opened SchemaTypes
  import opened Values
  import opened Dialects
  import opened Audit
  import opened DocumentModel
  import opened DocumentRuns

  /** All other records are as they were. */
  ghost predicate OthersStay(before: Table, after: Table, id: string) {
    forall k :: k != id ==> (k in after <==> k in before) && (k in before ==> after[k] == before[k])
  }

  /** The two rows agree in a column. */
  predicate SameAt(a: Row, b: Row, column: string) {
    (column in a <==> column in b) && Get(a, column) == Get(b, column)
  }

  /** Exactly one entry more, for this record. */
  ghost predicate Logged(s: State, t: State, action: Action, id: string) {
    |t.log| == |s.log| + 1 && t.log[..|s.log|] == s.log && t.log[|s.log|].action == action && t.log[|s.log|].docID == id
  }

  /** The value of some unique field is with another live record. */
  ghost predicate Clashes(c: Config, s: State, id: string, norm: Row) {
    exists i, k :: 0 <= i < |c.fields| && ClashesWith(c.fields[i], s.table, id, norm, k)
  }

  ghost predicate ClashesWith(f: Field, table: Table, id: string, norm: Row, k: string) {
    && f.unique && FieldValue(norm, f).Some? && !IsZero(FieldValue(norm, f).value)
    && k in table && Get(table[k], "deleted") == Bool(false) && IdText(table[k]) != id
    && Get(table[k], f.dbColumn) == FieldValue(norm, f).value
  }

  /** Nothing to look up, or the lookups go through and find nothing. */
  ghost predicate PassesCheck(c: Config, s: State, id: string, norm: Row, env: Env) {
    && !Clashes(c, s, id, norm)
    && (env.checkFails ==> forall i :: 0 <= i < |c.fields| ==> !Checked(c.fields[i], norm))
  }

  lemma TakenClashes(f: Field, table: Table, id: string, norm: Row)
    ensures Checked(f, norm) && Taken(table, id, f.dbColumn, FieldValue(norm, f).value) <==>
            exists k :: ClashesWith(f, table, id, norm, k)
  {
    if Checked(f, norm) {
      if Taken(table, id, f.dbColumn, FieldValue(norm, f).value) {
        var k :| k in table && Live(table[k]) && SqlEquals(table[k], f.dbColumn, FieldValue(norm, f).value)
                 && IdText(table[k]) != id;
        assert ClashesWith(f, table, id, norm, k);
      }
      forall k | ClashesWith(f, table, id, norm, k)
        ensures Live(table[k]) && SqlEquals(table[k], f.dbColumn, FieldValue(norm, f).value)
      {
      }
    }
  }

  lemma ViolatesClashes(c: Config, s: State, id: string, norm: Row)
    ensures Violates(c.fields, s.table, id, norm) <==> Clashes(c, s, id, norm)
  {
    if Violates(c.fields, s.table, id, norm) {
      var i :| 0 <= i < |c.fields| && Checked(c.fields[i], norm)
               && Taken(s.table, id, c.fields[i].dbColumn, FieldValue(norm, c.fields[i]).value);
      TakenClashes(c.fields[i], s.table, id, norm);
      var k :| ClashesWith(c.fields[i], s.table, id, norm, k);
      assert Clashes(c, s, id, norm);
    }
    if Clashes(c, s, id, norm) {
      var i, k :| 0 <= i < |c.fields| && ClashesWith(c.fields[i], s.table, id, norm, k);
      TakenClashes(c.fields[i], s.table, id, norm);
    }
  }

  /** The check passes exactly without a clash; a lookup that fails counts only when
      there is something to look up. */
  lemma CheckPasses(c: Config, s: State, id: string, norm: Row, env: Env)
    ensures UniqueError(c.fields, s.table, id, norm, env.checkFails).None? <==> PassesCheck(c, s, id, norm, env)
    ensures !env.checkFails && Clashes(c, s, id, norm) ==>
              UniqueError(c.fields, s.table, id, norm, env.checkFails) == Some(NotUnique)
  {
    ViolatesClashes(c, s, id, norm);
  }

  predicate Finishes(env: Env, row: Row) {
    Then(env.afterWrite, env.afterSave, row).Some? && !env.auditFails && !env.commitFails
  }

  // ----- create -----

  /** The id a record is created under: the one given, or a new one. */
  function NewId(data: Row, env: Env): string {
    if "id" in data && data["id"].Str? && data["id"].text != "" then data["id"].text else env.freshID
  }

  /** The row stored for some data: every column as given, the system columns as
      given or set, updated_at always set, and nothing else. */
  ghost predicate CreatedFrom(c: Config, data: Row, env: Env, row: Row) {
    && Get(row, "id") == Str(NewId(data, env))
    && Get(row, "updated_at") == env.now
    && Get(row, "created_at") == (if "created_at" in data then data["created_at"] else env.now)
    && Get(row, "deleted") == (if "deleted" in data then data["deleted"] else Bool(false))
    && Get(row, "doc_status") ==
         (if "doc_status" in data then data["doc_status"] else if c.submittable then Num(0) else Null)
    && (forall k :: k in data && k !in {"id", "updated_at"} ==> k in row && row[k] == data[k])
    && row.Keys == data.Keys + {"id", "created_at", "updated_at", "deleted"}
                             + (if c.submittable then {"doc_status"} else {})
  }

  lemma InsertRowCreates(c: Config, data: Row, env: Env)
    ensures CreatedFrom(c, data, env, InsertRow(c, data, env.now, env.freshID))
  {
  }

  /** A successful create stores exactly that row under a new id, which it returns,
      and changes nothing else; unless the data says otherwise the record is live. */
  lemma CreateStores(c: Config, s: State, norm: Row, env: Env)
    requires CreateWith(c, s, norm, env).1.Ok?
    ensures Prepared(norm, env).Some?
    ensures var (t, r) := CreateWith(c, s, norm, env);
            var data := Prepared(norm, env).value;
            && r.value == NewId(data, env) && r.value != "" && r.value !in s.table && r.value in t.table
            && OthersStay(s.table, t.table, r.value)
            && CreatedFrom(c, data, env, t.table[r.value])
            && ("deleted" !in data ==> Live(t.table[r.value]))
            && Logged(s, t, CreateAction, r.value)
  {
    InsertRowCreates(c, Prepared(norm, env).value, env);
  }

  /** When a create succeeds. */
  lemma CreateSucceeds(c: Config, s: State, norm: Row, env: Env)
    ensures CreateWith(c, s, norm, env).1.Ok? <==>
            && PassesCheck(c, s, "", norm, env) && Prepared(norm, env).Some? && !env.writeFails
            && var data := Prepared(norm, env).value;
               && NewId(data, env) != "" && NewId(data, env) !in s.table
               && exists row :: CreatedFrom(c, data, env, row) && Finishes(env, row)
  {
    CheckPasses(c, s, "", norm, env);
    if Prepared(norm, env).Some? {
      var data := Prepared(norm, env).value;
      var row := InsertRow(c, data, env.now, env.freshID);
      InsertRowCreates(c, data, env);
      forall other | CreatedFrom(c, data, env, other) ensures other == row {
        CreatedRowIsUnique(c, data, env, row, other);
      }
    }
  }

  lemma CreatedRowIsUnique(c: Config, data: Row, env: Env, a: Row, b: Row)
    requires CreatedFrom(c, data, env, a) && CreatedFrom(c, data, env, b)
    ensures a == b
  {
    forall k ensures SameAt(a, b, k) {
    }
    assert a.Keys == b.Keys;
    forall k | k in a ensures a[k] == b[k] { assert SameAt(a, b, k); }
  }

  /** After a create another with the same value of a unique field is refused. */
  lemma SecondIsRefused(c: Config, s: State, norm: Row, env: Env, norm2: Row, env2: Env, i: nat)
    requires CreateWith(c, s, norm, env).1.Ok? && Prepared(norm, env).Some?
    requires i < |c.fields| && c.fields[i].unique && c.fields[i].dbColumn !in SYSTEM_COLUMNS
    requires var data := Prepared(norm, env).value;
             && "deleted" !in data && c.fields[i].dbColumn in data && !IsZero(data[c.fields[i].dbColumn])
             && FieldValue(norm2, c.fields[i]) == Some(data[c.fields[i].dbColumn])
    requires !env2.checkFails
    ensures CreateWith(c, CreateWith(c, s, norm, env).0, norm2, env2) ==
            (CreateWith(c, s, norm, env).0, Err(NotUnique))
  {
    var (t, r) := CreateWith(c, s, norm, env);
    CreateStores(c, s, norm, env);
    assert ClashesWith(c.fields[i], t.table, "", norm2, r.value);
    CheckPasses(c, t, "", norm2, env2);
  }

  // ----- update -----

  /** Where the record is after an update: SQLite keeps the id whatever is written. */
  function UpdatedId(c: Config, id: string, merged: Row): string {
    if c.dialect.Postgres? && "id" in merged then (if merged["id"].Str? then merged["id"].text else "") else id
  }

  /** The columns written, updated_at stamped, the others as they were. */
  ghost predicate UpdatedFrom(c: Config, before: Row, merged: Row, env: Env, after: Row) {
    && "updated_at" in after && after["updated_at"] == env.now
    && (forall k :: k in merged && k != "updated_at" && (k == "id" ==> c.dialect.Postgres?) ==>
          k in after && after[k] == merged[k])
    && (forall k :: k != "updated_at" && (k !in merged || (k == "id" && c.dialect.Sqlite?)) ==>
           SameAt(before, after, k))
  }

  /** A successful update writes exactly the columns it is given, stamps the record,
      and changes no other. */
  lemma UpdateStores(c: Config, s: State, id: string, norm: Row, env: Env)
    requires id != "" && id in s.table && Get(s.table[id], "id") == Str(id) && UpdateWith(c, s, id, norm, env).1.Ok?
    ensures Merged(s, id, norm, env).Some?
    ensures var (t, r) := UpdateWith(c, s, id, norm, env);
            var merged := Merged(s, id, norm, env).value;
            var to := UpdatedId(c, id, merged);
            && r.value == id && to != "" && to in t.table
            && (to != id ==> id !in t.table && to !in s.table)
            && (forall k :: k != id && k != to ==> (k in t.table <==> k in s.table)
                                                   && (k in s.table ==> t.table[k] == s.table[k]))
            && UpdatedFrom(c, s.table[id], merged, env, t.table[to])
            && Logged(s, t, UpdateAction, id)
  {
    var merged := Merged(s, id, norm, env).value;
    UpdateRowStored(c, s.table, id, merged, env);
  }

  lemma UpdateRowStored(c: Config, table: Table, id: string, merged: Row, env: Env)
    requires id != "" && id in table && Get(table[id], "id") == Str(id)
    requires Stored(c.dialect, table, id, UpdateRow(merged, env.now)).Some?
    ensures var after := Stored(c.dialect, table, id, UpdateRow(merged, env.now)).value;
            var to := UpdatedId(c, id, merged);
            && to != "" && to in after && (to != id ==> id !in after && to !in table)
            && (forall k :: k != id && k != to ==>
                   (k in after <==> k in table) && (k in table ==> after[k] == table[k]))
            && UpdatedFrom(c, table[id], merged, env, after[to])
  {
    var row := UpdateRow(merged, env.now);
    var after := table[id] + (if c.dialect.Sqlite? then row - {"id"} else row);
    WrittenColumns(c, table[id], merged, env);
    assert c.dialect.Postgres? ==> Get(after, "id") == if "id" in merged then merged["id"] else Str(id);
  }

  lemma WrittenColumns(c: Config, before: Row, merged: Row, env: Env)
    ensures var row := UpdateRow(merged, env.now);
            UpdatedFrom(c, before, merged, env, before + (if c.dialect.Sqlite? then row - {"id"} else row))
  {
  }

  /** When an update of a record that can be found succeeds. */
  lemma UpdateSucceeds(c: Config, s: State, id: string, norm: Row, env: Env)
    requires id != "" && id in s.table && Get(s.table[id], "id") == Str(id)
    ensures UpdateWith(c, s, id, norm, env).1.Ok? <==>
            && PassesCheck(c, s, id, norm, env) && Merged(s, id, norm, env).Some? && !env.writeFails
            && var merged := Merged(s, id, norm, env).value;
               && UpdatedId(c, id, merged) != ""
               && (UpdatedId(c, id, merged) != id ==> UpdatedId(c, id, merged) !in s.table)
               && Finishes(env, s.table[id] + merged["updated_at" := env.now])
  {
    CheckPasses(c, s, id, norm, env);
    if Merged(s, id, norm, env).Some? {
      UpdateCanStore(c, s.table, id, Merged(s, id, norm, env).value, env);
    }
  }

  lemma UpdateCanStore(c: Config, table: Table, id: string, merged: Row, env: Env)
    requires id != "" && id in table && Get(table[id], "id") == Str(id)
    ensures Stored(c.dialect, table, id, UpdateRow(merged, env.now)).Some? <==>
            var to := UpdatedId(c, id, merged); to != "" && (to != id ==> to !in table)
  {
    var row := UpdateRow(merged, env.now);
    assert c.dialect.Postgres? ==> Get(table[id] + row, "id") == if "id" in merged then merged["id"] else Str(id);
  }

  lemma WholeRecord(c: Config, before: Row, merged: Row, env: Env, after: Row)
    requires UpdatedFrom(c, before, merged, env, after) && before.Keys <= merged.Keys && SameAt(before, merged, "id")
    ensures after == merged["updated_at" := env.now]
  {
    forall k | k in after && k != "updated_at" ensures k in merged && after[k] == merged[k] {
      assert k !in merged || k == "id" ==> SameAt(before, after, k) || c.dialect.Postgres?;
    }
    forall k | k in merged ensures k in after {
      assert k == "id" ==> SameAt(before, after, k) || c.dialect.Postgres?;
    }
  }

  lemma PatchedRecord(c: Config, before: Row, norm: Row, env: Env, after: Row)
    requires UpdatedFrom(c, before, before + norm, env, after) && "id" !in norm
    ensures after == (before + norm)["updated_at" := env.now]
  {
    WholeRecord(c, before, before + norm, env, after);
  }

  /** With hooks that change nothing, the record afterwards is the patch over what
      it was, with a new updated_at. */
  lemma PatchIsApplied(c: Config, s: State, id: string, norm: Row, env: Env)
    requires id != "" && id in s.table && Get(s.table[id], "id") == Str(id) && UpdateWith(c, s, id, norm, env).1.Ok?
    requires Merged(s, id, norm, env) == Some(s.table[id] + norm) && "id" !in norm
    ensures var t := UpdateWith(c, s, id, norm, env).0;
            id in t.table && t.table[id] == (s.table[id] + norm)["updated_at" := env.now]
            && OthersStay(s.table, t.table, id)
  {
    UpdateStores(c, s, id, norm, env);
    assert UpdatedId(c, id, s.table[id] + norm) == id;
    PatchedRecord(c, s.table[id], norm, env, UpdateWith(c, s, id, norm, env).0.table[id]);
  }

  /** Hooks that change nothing merge the patch into the record. */
  lemma QuietHooksMerge(s: State, id: string, norm: Row, env: Env)
    requires id in s.table
    requires forall row :: env.afterValidate(row) == Some(row)
    requires forall row :: env.beforeWrite(row) == Some(row)
    requires forall row :: env.beforeSave(row) == Some(row)
    ensures Merged(s, id, norm, env) == Some(s.table[id] + norm)
  {
  }

  // ----- delete -----

  /** A successful delete marks the record, stamps it, and changes nothing else; it
      can no longer be found. */
  lemma DeleteStores(c: Config, s: State, id: string, env: Env)
    requires id != "" && id in s.table && Get(s.table[id], "id") == Str(id) && DeleteTx(c, s, id, env).1.Ok?
    ensures var (t, r) := DeleteTx(c, s, id, env);
            && r.value == id && id in t.table && OthersStay(s.table, t.table, id)
            && t.table[id] == s.table[id]["deleted" := Bool(true)]["updated_at" := env.now]
            && Logged(s, t, DeleteAction, id)
            && forall later: Env :: !Found(t, id, later)
  {
    DeletionStored(c, s.table, id, env);
  }

  lemma DeletionStored(c: Config, table: Table, id: string, env: Env)
    requires id != "" && id in table && Get(table[id], "id") == Str(id)
    ensures Stored(c.dialect, table, id, map["deleted" := Bool(true), "updated_at" := env.now]) ==
            Some(table[id := table[id]["deleted" := Bool(true)]["updated_at" := env.now]])
  {
    var row := map["deleted" := Bool(true), "updated_at" := env.now];
    var marked := table[id]["deleted" := Bool(true)]["updated_at" := env.now];
    assert row - {"id"} == row;
    assert table[id] + row == marked;
    assert Get(marked, "id") == Str(id);
  }

  /** When a delete of a record that can be found succeeds. */
  lemma DeleteSucceeds(c: Config, s: State, id: string, env: Env)
    requires id != "" && id in s.table && Get(s.table[id], "id") == Str(id)
    ensures DeleteTx(c, s, id, env).1.Ok? <==>
            && Then(env.beforeWrite, env.afterWrite, s.table[id]).Some?
            && !env.writeFails && !env.auditFails && !env.commitFails
  {
    DeletionStored(c, s.table, id, env);
  }

  // ----- data under column names -----

  /** A value given under a field's name reaches that field's column, when no other
      key of the data goes there; a key that names no field stays. */
  lemma NormalValue(fields: seq<Field>, data: Row, norm: Row, key: string)
    requires IsNormal(fields, data, norm) && key in data
    requires forall k :: k in data && k != key ==> ColumnFor(fields, k) != ColumnFor(fields, key)
    ensures ColumnFor(fields, key) in norm && norm[ColumnFor(fields, key)] == data[key]
  {
  }

  lemma {:induction false} ColumnOfField(fields: seq<Field>, i: nat)
    requires i < |fields| && forall a, b :: 0 <= a < b < |fields| ==> fields[a].name != fields[b].name
    ensures ColumnFor(fields, fields[i].name) == fields[i].dbColumn
  {
    var n := |fields| - 1;
    if i < n {
      assert fields[i].name != fields[n].name;
      ColumnOfField(fields[..n], i);
    }
  }
}
