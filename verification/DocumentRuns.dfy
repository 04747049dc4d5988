/** Runs of the document engine: table and audit log move together, and unique
    fields stay unique. */
module DocumentRuns {
  import opened Wrappers
  import opened SchemaTypes
  import opened Values
  import opened Dialects
  import opened Audit
  import opened DocumentModel

  /** A call, from the point where its data is under column names. */
  datatype Op =
    | Create(norm: Row, env: Env)
    | Update(id: string, norm: Row, env: Env)
    | Delete(id: string, env: Env)

  ghost function Step(c: Config, s: State, op: Op): Outcome {
    match op
    case Create(norm, env) => CreateWith(c, s, norm, env)
    case Update(id, norm, env) => if Found(s, id, env) then UpdateWith(c, s, id, norm, env) else (s, Err(NotFound))
    case Delete(id, env) => if Found(s, id, env) then DeleteTx(c, s, id, env) else (s, Err(NotFound))
  }

  ghost function After(c: Config, ops: seq<Op>, n: nat): State
    requires n <= |ops|
  {
    if n == 0 then INITIAL else Step(c, After(c, ops, n - 1), ops[n - 1]).0
  }

  // ----- all or nothing -----

  /** The tables differ at most at one record, or move it to another id. */
  ghost predicate OneRecord(before: Table, after: Table, id: string) {
    exists to :: to in after &&
      forall k :: k != id && k != to ==> (k in after <==> k in before) && (k in before ==> after[k] == before[k])
  }

  /** With a transactional log a failed call changes nothing, and a successful one
      changes one record and adds one entry for it: never one without the other. */
  lemma AllOrNothing(c: Config, s: State, op: Op)
    requires c.transactional
    ensures var (t, r) := Step(c, s, op);
            && (r.Err? ==> t == s)
            && (r.Ok? ==> OneRecord(s.table, t.table, r.value)
                          && |t.log| == |s.log| + 1 && t.log[..|s.log|] == s.log && t.log[|s.log|].docID == r.value)
  {
    var (t, r) := Step(c, s, op);
    if r.Ok? {
      match op {
        case Create(_, _) =>
          assert r.value in t.table;
        case Update(id, norm, env) =>
          MovesOne(c, s, id, t);
        case Delete(id, env) =>
          MovesOne(c, s, id, t);
      }
    }
  }

  lemma MovesOne(c: Config, s: State, id: string, t: State)
    requires id in s.table && exists row :: Stored(c.dialect, s.table, id, row) == Some(t.table)
    ensures OneRecord(s.table, t.table, id)
  {
    var row :| Stored(c.dialect, s.table, id, row) == Some(t.table);
    var to := if c.dialect.Sqlite? then id else IdText(s.table[id] + row);
    assert to in t.table;
  }

  /** A log outside the transaction keeps the entry of a call whose commit fails. */
  lemma InMemoryLogDiverges(c: Config, s: State, op: Op)
    requires !c.transactional
    ensures var (t, r) := Step(c, s, op);
            r == Err(CommitFailed) ==> t.table == s.table && |t.log| == |s.log| + 1
    ensures Step(c, s, op).0 != s && Step(c, s, op).1.Err? ==> Step(c, s, op).1 == Err(CommitFailed)
  {
  }

  // ----- unique fields -----

  const SYSTEM_COLUMNS := {"id", "created_at", "updated_at", "deleted", "doc_status"}

  /** No field has another's column for its name, and the engine itself writes no
      unique column. */
  ghost predicate WellNamed(fields: seq<Field>) {
    && (forall i, j :: 0 <= i < |fields| && 0 <= j < |fields| && i != j ==> fields[i].name != fields[j].dbColumn)
    && (forall i :: 0 <= i < |fields| && fields[i].unique ==> fields[i].dbColumn !in SYSTEM_COLUMNS)
  }

  /** No key is a field's name, unless it is its column as well. */
  ghost predicate NoNames(fields: seq<Field>, norm: Row) {
    forall i :: 0 <= i < |fields| && fields[i].name != fields[i].dbColumn ==> fields[i].name !in norm
  }

  lemma {:induction false} ColumnForName(fields: seq<Field>, key: string)
    ensures ColumnFor(fields, key) == key ||
            exists i :: 0 <= i < |fields| && ColumnFor(fields, key) == fields[i].dbColumn
    ensures ColumnFor(fields, key) == key ==>
              || (exists i :: 0 <= i < |fields| && key == fields[i].dbColumn)
              || forall i :: 0 <= i < |fields| ==> fields[i].name != key
  {
    if fields != [] {
      var n := |fields| - 1;
      ColumnForName(fields[..n], key);
      if fields[n].name == key {
        assert ColumnFor(fields, key) == fields[n].dbColumn;
      } else {
        assert forall i :: 0 <= i < n ==> fields[..n][i] == fields[i];
        if i :| 0 <= i < n && ColumnFor(fields[..n], key) == fields[..n][i].dbColumn {
          assert ColumnFor(fields, key) == fields[i].dbColumn;
        }
      }
    }
  }

  /** Normalized data has no field names left as keys. */
  lemma NormalHasNoNames(fields: seq<Field>, data: Row, norm: Row)
    requires WellNamed(fields) && IsNormal(fields, data, norm)
    ensures NoNames(fields, norm)
  {
    forall i | 0 <= i < |fields| && fields[i].name != fields[i].dbColumn ensures fields[i].name !in norm {
      if fields[i].name in norm {
        var k :| k in data && ColumnFor(fields, k) == fields[i].name;
        ColumnForName(fields, k);
      }
    }
  }

  /** The row agrees with another in every unique column. */
  ghost predicate SameUnique(fields: seq<Field>, a: Row, b: Row) {
    forall i :: 0 <= i < |fields| && fields[i].unique ==>
      (fields[i].dbColumn in a <==> fields[i].dbColumn in b) && Get(a, fields[i].dbColumn) == Get(b, fields[i].dbColumn)
  }

  ghost predicate KeepsUnique(fields: seq<Field>, hook: Hook) {
    forall row :: hook(row).Some? ==> SameUnique(fields, row, hook(row).value)
  }

  /** The hooks that run after the check leave unique columns alone. */
  ghost predicate HooksKeepUnique(fields: seq<Field>, env: Env) {
    KeepsUnique(fields, env.afterValidate) && KeepsUnique(fields, env.beforeWrite) &&
      KeepsUnique(fields, env.beforeSave)
  }

  /** No two live records share a non-zero value of a unique field. */
  ghost predicate Unique(fields: seq<Field>, table: Table) {
    forall a, b, i ::
      && a in table && b in table && a != b && Live(table[a]) && Live(table[b])
      && 0 <= i < |fields| && fields[i].unique ==>
      IsZero(Get(table[a], fields[i].dbColumn)) ||
        Get(table[a], fields[i].dbColumn) != Get(table[b], fields[i].dbColumn)
  }

  /** Each record is stored under its own id. */
  ghost predicate Keyed(table: Table) {
    forall id :: id in table ==> id != "" && IdText(table[id]) == id
  }

  /** A live row whose unique values nobody else has. */
  ghost predicate Fits(fields: seq<Field>, table: Table, id: string, row: Row) {
    forall b, i ::
      && b in table && b != id && Live(table[b])
      && 0 <= i < |fields| && fields[i].unique && !IsZero(Get(row, fields[i].dbColumn)) ==>
      Get(table[b], fields[i].dbColumn) != Get(row, fields[i].dbColumn)
  }

  lemma PutUnique(fields: seq<Field>, table: Table, id: string, to: string, row: Row)
    requires Unique(fields, table) && (Live(row) ==> Fits(fields, table, id, row)) && (to == id || to !in table)
    ensures Unique(fields, (table - {id})[to := row])
  {
    var after := (table - {id})[to := row];
    forall a, b, i | a in after && b in after && a != b && Live(after[a]) && Live(after[b]) &&
      0 <= i < |fields| && fields[i].unique
      ensures IsZero(Get(after[a], fields[i].dbColumn)) ||
              Get(after[a], fields[i].dbColumn) != Get(after[b], fields[i].dbColumn)
    {
      assert a != to ==> a in table && a != id && after[a] == table[a];
      assert b != to ==> b in table && b != id && after[b] == table[b];
    }
  }

  lemma ThenKeeps(fields: seq<Field>, a: Hook, b: Hook, row: Row)
    requires KeepsUnique(fields, a) && KeepsUnique(fields, b) && Then(a, b, row).Some?
    ensures SameUnique(fields, row, Then(a, b, row).value)
  {
    assert SameUnique(fields, row, a(row).value);
    assert SameUnique(fields, a(row).value, Then(a, b, row).value);
  }

  lemma InsertRowKeeps(c: Config, data: Row, now: Value, freshID: string)
    requires WellNamed(c.fields)
    ensures SameUnique(c.fields, data, InsertRow(c, data, now, freshID))
  {
    var row := InsertRow(c, data, now, freshID);
    forall i | 0 <= i < |c.fields| && c.fields[i].unique
      ensures (c.fields[i].dbColumn in data <==> c.fields[i].dbColumn in row) &&
              Get(data, c.fields[i].dbColumn) == Get(row, c.fields[i].dbColumn)
    {
      assert c.fields[i].dbColumn !in SYSTEM_COLUMNS;
    }
  }

  /** The check clears every unique value of the data. */
  lemma CheckFits(fields: seq<Field>, table: Table, id: string, norm: Row, i: nat, b: string)
    requires NoNames(fields, norm) && Keyed(table) && !Violates(fields, table, id, norm)
    requires i < |fields| && fields[i].unique && fields[i].dbColumn in norm && !IsZero(norm[fields[i].dbColumn])
    requires b in table && b != id && Live(table[b])
    ensures Get(table[b], fields[i].dbColumn) != norm[fields[i].dbColumn]
  {
    assert FieldValue(norm, fields[i]) == Some(norm[fields[i].dbColumn]) && Checked(fields[i], norm);
    assert !Taken(table, id, fields[i].dbColumn, norm[fields[i].dbColumn]);
  }

  /** The data as the hooks after the check leave it. */
  function Prepared(norm: Row, env: Env): Option<Row> {
    Then(env.afterValidate, r => Then(env.beforeWrite, env.beforeSave, r), norm)
  }

  lemma PreparedKeeps(fields: seq<Field>, norm: Row, env: Env)
    requires HooksKeepUnique(fields, env) && Prepared(norm, env).Some?
    ensures SameUnique(fields, norm, Prepared(norm, env).value)
  {
    var rest: Hook := r => Then(env.beforeWrite, env.beforeSave, r);
    forall row | rest(row).Some? ensures SameUnique(fields, row, rest(row).value) {
      ThenKeeps(fields, env.beforeWrite, env.beforeSave, row);
    }
    ThenKeeps(fields, env.afterValidate, rest, norm);
  }

  lemma CreateFits(c: Config, table: Table, norm: Row, row: Row)
    requires NoNames(c.fields, norm) && Keyed(table) && !Violates(c.fields, table, "", norm)
    requires SameUnique(c.fields, norm, row)
    ensures Fits(c.fields, table, IdText(row), row)
  {
    forall b, i | b in table && b != IdText(row) && Live(table[b]) && 0 <= i < |c.fields| && c.fields[i].unique
                  && !IsZero(Get(row, c.fields[i].dbColumn))
      ensures Get(table[b], c.fields[i].dbColumn) != Get(row, c.fields[i].dbColumn)
    {
      CheckFits(c.fields, table, "", norm, i, b);
    }
  }

  lemma InsertUnique(fields: seq<Field>, table: Table, id: string, row: Row)
    requires Unique(fields, table) && Keyed(table) && Fits(fields, table, id, row)
    requires id !in table && id != "" && IdText(row) == id
    ensures Unique(fields, table[id := row]) && Keyed(table[id := row])
  {
    PutUnique(fields, table, id, id, row);
    assert (table - {id})[id := row] == table[id := row];
  }

  /** What a successful create stores. */
  lemma Created(c: Config, s: State, norm: Row, env: Env) returns (row: Row)
    requires CreateWith(c, s, norm, env).1.Ok?
    ensures Prepared(norm, env).Some? && row == InsertRow(c, Prepared(norm, env).value, env.now, env.freshID)
    ensures !Violates(c.fields, s.table, "", norm) && IdText(row) != "" && IdText(row) !in s.table
    ensures CreateWith(c, s, norm, env).0.table == s.table[IdText(row) := row]
  {
    row := InsertRow(c, Prepared(norm, env).value, env.now, env.freshID);
  }

  lemma CreateKeepsUnique(c: Config, s: State, norm: Row, env: Env)
    requires WellNamed(c.fields) && NoNames(c.fields, norm) && HooksKeepUnique(c.fields, env)
    requires Unique(c.fields, s.table) && Keyed(s.table)
    ensures var t := CreateWith(c, s, norm, env).0; Unique(c.fields, t.table) && Keyed(t.table)
  {
    if CreateWith(c, s, norm, env).1.Ok? {
      var row := Created(c, s, norm, env);
      var id := IdText(row);
      PreparedKeeps(c.fields, norm, env);
      InsertRowKeeps(c, Prepared(norm, env).value, env.now, env.freshID);
      CreateFits(c, s.table, norm, row);
      InsertUnique(c.fields, s.table, id, row);
    }
  }

  /** Stored puts one row back, under its old id or a new one. */
  lemma StoredPuts(d: Dialect, table: Table, id: string, row: Row)
    requires Keyed(table) && id in table && Stored(d, table, id, row).Some?
    ensures var after := table[id] + (if d.Sqlite? then row - {"id"} else row);
            var to := IdText(after);
            && to != "" && (to == id || to !in table)
            && Stored(d, table, id, row).value == (table - {id})[to := after]
  {
    var after := table[id] + (if d.Sqlite? then row - {"id"} else row);
    if d.Sqlite? { assert Get(after, "id") == Get(table[id], "id"); }
    if IdText(after) == id {
      assert (table - {id})[id := after] == table[id := after];
    }
  }

  /** An update keeps the old unique values it does not set, and sets only values
      that were cleared. */
  lemma UpdateFits(c: Config, s: State, id: string, norm: Row, merged: Row, after: Row)
    requires WellNamed(c.fields) && NoNames(c.fields, norm) && Unique(c.fields, s.table) && Keyed(s.table)
    requires id in s.table && Live(s.table[id]) && !Violates(c.fields, s.table, id, norm)
    requires SameUnique(c.fields, s.table[id] + norm, merged)
    requires forall i :: 0 <= i < |c.fields| && c.fields[i].unique ==>
               Get(after, c.fields[i].dbColumn) == Get(merged, c.fields[i].dbColumn)
    ensures Fits(c.fields, s.table, id, after)
  {
    forall b, i | b in s.table && b != id && Live(s.table[b]) && 0 <= i < |c.fields| && c.fields[i].unique &&
      !IsZero(Get(after, c.fields[i].dbColumn))
      ensures Get(s.table[b], c.fields[i].dbColumn) != Get(after, c.fields[i].dbColumn)
    {
      var column := c.fields[i].dbColumn;
      assert Get(after, column) == Get(s.table[id] + norm, column);
      if column in norm { CheckFits(c.fields, s.table, id, norm, i, b); }
    }
  }

  /** What reaches before_save agrees with the record and the checked patch. */
  lemma OverlayKeeps(fields: seq<Field>, old_: Row, norm: Row, data: Row, merged: Row)
    requires SameUnique(fields, norm, data) && SameUnique(fields, old_ + data, merged)
    ensures SameUnique(fields, old_ + norm, merged)
  {
  }

  lemma UpdatedColumns(c: Config, old_: Row, norm: Row, merged: Row, now: Value)
    requires WellNamed(c.fields) && SameUnique(c.fields, old_ + norm, merged)
    ensures var row := UpdateRow(merged, now);
            forall i :: 0 <= i < |c.fields| && c.fields[i].unique ==>
              Get(old_ + (if c.dialect.Sqlite? then row - {"id"} else row), c.fields[i].dbColumn) ==
                Get(merged, c.fields[i].dbColumn)
  {
    var row := UpdateRow(merged, now);
    forall i | 0 <= i < |c.fields| && c.fields[i].unique
      ensures Get(old_ + (if c.dialect.Sqlite? then row - {"id"} else row), c.fields[i].dbColumn) ==
              Get(merged, c.fields[i].dbColumn)
    {
      assert c.fields[i].dbColumn !in SYSTEM_COLUMNS;
      if c.fields[i].dbColumn !in merged { assert c.fields[i].dbColumn !in old_ + norm; }
    }
  }

  lemma UpdateKeepsUnique(c: Config, s: State, id: string, norm: Row, env: Env)
    requires WellNamed(c.fields) && NoNames(c.fields, norm) && HooksKeepUnique(c.fields, env)
    requires Unique(c.fields, s.table) && Keyed(s.table) && id in s.table && Live(s.table[id])
    ensures var t := UpdateWith(c, s, id, norm, env).0; Unique(c.fields, t.table) && Keyed(t.table)
  {
    if UpdateWith(c, s, id, norm, env).1.Ok? {
      var data := Then(env.afterValidate, env.beforeWrite, norm).value;
      ThenKeeps(c.fields, env.afterValidate, env.beforeWrite, norm);
      var merged := env.beforeSave(s.table[id] + data).value;
      OverlayKeeps(c.fields, s.table[id], norm, data, merged);
      UpdatedColumns(c, s.table[id], norm, merged, env.now);
      var row := UpdateRow(merged, env.now);
      var after := s.table[id] + (if c.dialect.Sqlite? then row - {"id"} else row);
      UpdateFits(c, s, id, norm, merged, after);
      StoredPuts(c.dialect, s.table, id, row);
      PutUnique(c.fields, s.table, id, IdText(after), after);
    }
  }

  lemma DeleteKeepsUnique(c: Config, s: State, id: string, env: Env)
    requires Unique(c.fields, s.table) && Keyed(s.table) && id in s.table
    ensures var t := DeleteTx(c, s, id, env).0; Unique(c.fields, t.table) && Keyed(t.table)
  {
    if DeleteTx(c, s, id, env).1.Ok? {
      var row: Row := map["deleted" := Bool(true), "updated_at" := env.now];
      var after := s.table[id] + (if c.dialect.Sqlite? then row - {"id"} else row);
      assert Get(after, "id") == Get(s.table[id], "id") && !Live(after);
      StoredPuts(c.dialect, s.table, id, row);
      PutUnique(c.fields, s.table, id, id, after);
    }
  }

  /** Whatever the hooks do, each record stays under its own id. */
  lemma StepKeepsKeyed(c: Config, s: State, op: Op)
    requires Keyed(s.table)
    ensures Keyed(Step(c, s, op).0.table)
  {
    var r := Step(c, s, op).1;
    if r.Ok? {
      match op {
        case Create(norm, env) =>
          var row := Created(c, s, norm, env);
        case Update(id, norm, env) =>
          StoredPuts(c.dialect, s.table, id, UpdateRow(Merged(s, id, norm, env).value, env.now));
        case Delete(id, env) =>
          StoredPuts(c.dialect, s.table, id, map["deleted" := Bool(true), "updated_at" := env.now]);
      }
    }
  }

  ghost predicate KeepsUniqueOp(c: Config, op: Op) {
    match op
    case Create(norm, env) => NoNames(c.fields, norm) && HooksKeepUnique(c.fields, env)
    case Update(_, norm, env) => NoNames(c.fields, norm) && HooksKeepUnique(c.fields, env)
    case Delete(_, _) => true
  }

  lemma StepKeepsUnique(c: Config, s: State, op: Op)
    requires WellNamed(c.fields) && KeepsUniqueOp(c, op) && Unique(c.fields, s.table) && Keyed(s.table)
    ensures Unique(c.fields, Step(c, s, op).0.table) && Keyed(Step(c, s, op).0.table)
  {
    match op {
      case Create(norm, env) => CreateKeepsUnique(c, s, norm, env);
      case Update(id, norm, env) => if Found(s, id, env) { UpdateKeepsUnique(c, s, id, norm, env); }
      case Delete(id, env) => if Found(s, id, env) { DeleteKeepsUnique(c, s, id, env); }
    }
  }

  ghost predicate UniqueAt(c: Config, ops: seq<Op>, n: nat)
    requires n <= |ops|
  {
    Unique(c.fields, After(c, ops, n).table) && Keyed(After(c, ops, n).table)
  }

  ghost predicate CallsKeepUnique(c: Config, ops: seq<Op>, n: nat) {
    n <= |ops| && forall op :: op in ops[..n] ==> KeepsUniqueOp(c, op)
  }

  lemma LastKeepsUnique(c: Config, ops: seq<Op>, n: nat)
    requires 0 < n && CallsKeepUnique(c, ops, n)
    ensures CallsKeepUnique(c, ops, n - 1) && KeepsUniqueOp(c, ops[n - 1])
  {
    assert ops[..n] == ops[..n - 1] + [ops[n - 1]];
  }

  lemma UniqueFirst(c: Config, ops: seq<Op>)
    ensures UniqueAt(c, ops, 0)
  {
  }

  lemma UniqueNext(c: Config, ops: seq<Op>, n: nat)
    requires n < |ops| && WellNamed(c.fields) && KeepsUniqueOp(c, ops[n]) && UniqueAt(c, ops, n)
    ensures UniqueAt(c, ops, n + 1)
  {
    StepKeepsUnique(c, After(c, ops, n), ops[n]);
  }

  /** In every run of calls whose hooks leave unique columns alone after the check,
      no two live records ever share a non-zero value of a unique field. */
  lemma {:induction false} UniqueAlways(c: Config, ops: seq<Op>, n: nat)
    requires n <= |ops| && WellNamed(c.fields) && CallsKeepUnique(c, ops, n)
    ensures UniqueAt(c, ops, n)
  {
    if n == 0 {
      UniqueFirst(c, ops);
    } else {
      LastKeepsUnique(c, ops, n);
      UniqueAlways(c, ops, n - 1);
      UniqueNext(c, ops, n - 1);
    }
  }
}
