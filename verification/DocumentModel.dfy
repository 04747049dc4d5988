/** One document type's table and audit log under Create, Update and Delete
    (document/engine.go), as functions from state to state. What hooks,
    permissions and validation do, and which database calls fail, is given with
    each call. */
module DocumentModel {
  import opened Wrappers
  import opened SchemaTypes
  import opened Values
  import opened Dialects
  import opened Audit

  /** A record is stored under its id. */
  type Table = map<string, Row>

  datatype State = State(table: Table, log: seq<Entry>)

  const INITIAL := State(map[], [])

  /** transactional: whether the log's writes are part of the transaction. */
  datatype Config = Config(dialect: Dialect, fields: seq<Field>, submittable: bool, transactional: bool)

  datatype Error = Denied | NotFound | Invalid | HookFailed | NotUnique | ReadFailed | WriteFailed
      | AuditFailed | CommitFailed

  /** A hook sees the row as a map it may change, and may fail. */
  type Hook = Row -> Option<Row>

  datatype Env = Env(
    permission: Hook,      // FilterWrite; None when the action is denied
    beforeValidate: Hook,
    valid: Row -> bool,    // validateFields
    afterValidate: Hook,
    beforeWrite: Hook,     // before_insert, before_update or before_delete
    beforeSave: Hook,
    afterWrite: Hook,      // after_insert, after_update or after_delete
    afterSave: Hook,
    now: Value,
    freshID: string,       // a new ULID
    readFails: bool,
    checkFails: bool,
    writeFails: bool,
    auditFails: bool,
    commitFails: bool)

  function Then(a: Hook, b: Hook, row: Row): Option<Row> {
    match a(row)
    case None => None
    case Some(r) => b(r)
  }

  predicate Live(row: Row) {
    SqlEquals(row, "deleted", Bool(false))
  }

  /** row["id"].(string), "" when it is no string. */
  function IdText(row: Row): string {
    if Get(row, "id").Str? then Get(row, "id").text else ""
  }

  function FieldValue(data: Row, f: Field): Option<Value> {
    if f.name in data then Some(data[f.name]) else if f.dbColumn in data then Some(data[f.dbColumn]) else None
  }

  // ----- columns -----

  /** The column for a key: that of the last field of this name, else the key. */
  function ColumnFor(fields: seq<Field>, key: string): string {
    if fields == [] then key
    else if fields[|fields| - 1].name == key then fields[|fields| - 1].dbColumn
    else ColumnFor(fields[..|fields| - 1], key)
  }

  /** The data under column names. Of two keys for one column the map's order
      decides which is kept. */
  ghost predicate IsNormal(fields: seq<Field>, data: Row, out: Row) {
    && (forall k :: k in data ==> ColumnFor(fields, k) in out)
    && forall c :: c in out ==> exists k :: k in data && ColumnFor(fields, k) == c && out[c] == data[k]
  }

  // ----- uniqueness -----

  /** The field takes part in the check: unique, with a value to compare. */
  predicate Checked(f: Field, data: Row) {
    f.unique && FieldValue(data, f).Some? && !IsZero(FieldValue(data, f).value)
  }

  /** Another live record has this value in the column. */
  predicate Taken(table: Table, currentID: string, column: string, v: Value) {
    exists id :: id in table && Live(table[id]) && SqlEquals(table[id], column, v) && IdText(table[id]) != currentID
  }

  predicate Violates(fields: seq<Field>, table: Table, currentID: string, data: Row) {
    exists i :: 0 <= i < |fields| && Checked(fields[i], data) &&
      Taken(table, currentID, fields[i].dbColumn, FieldValue(data, fields[i]).value)
  }

  /** checkUnique: a failing query counts only when some field is checked. */
  function UniqueError(fields: seq<Field>, table: Table, currentID: string, data: Row, fails: bool): Option<Error> {
    if fails && exists i :: 0 <= i < |fields| && Checked(fields[i], data) then Some(ReadFailed)
    else if Violates(fields, table, currentID, data) then Some(NotUnique)
    else None
  }

  // ----- rows -----

  function WithDefault(row: Row, column: string, v: Value): Row {
    if column in row then row else row[column := v]
  }

  function InsertRow(c: Config, data: Row, now: Value, freshID: string): Row {
    var r1 := if IdText(data) == "" then data["id" := Str(freshID)] else data;
    var r2 := WithDefault(r1, "created_at", now)["updated_at" := now];
    var r3 := WithDefault(r2, "deleted", Bool(false));
    if c.submittable then WithDefault(r3, "doc_status", Num(0)) else r3
  }

  function UpdateRow(data: Row, now: Value): Row {
    data["updated_at" := now]
  }

  /** UPDATE ... WHERE id: SQLite leaves the id column out, PostgreSQL writes it. */
  function Stored(d: Dialect, table: Table, id: string, row: Row): Option<Table>
    requires id in table
  {
    match d
    case Sqlite => Some(table[id := table[id] + (row - {"id"})])
    case Postgres =>
      var after := table[id] + row;
      if IdText(after) == id then Some(table[id := after])
      else if IdText(after) == "" || IdText(after) in table then None
      else Some((table - {id})[IdText(after) := after])
  }

  // ----- the three operations, from the point where the data is normalized -----

  type Outcome = (State, Result<string, Error>)

  /** The audit write and the commit that end a transaction. */
  function Commit(c: Config, s: State, table: Table, e: Entry, env: Env): Outcome {
    if env.auditFails then (s, Err(AuditFailed))
    else if env.commitFails then (if c.transactional then s else s.(log := s.log + [e]), Err(CommitFailed))
    else (State(table, s.log + [e]), Ok(e.docID))
  }

  ghost function DiffOf(before: Row, after: Row): Changes {
    map k | k in before.Keys + after.Keys && Differs(before, after, k) :: Change(Get(before, k), Get(after, k))
  }

  ghost function CreateTx(c: Config, s: State, row: Row, env: Env): Outcome {
    var id := IdText(row);
    if env.writeFails || id == "" || id in s.table then (s, Err(WriteFailed))
    else match Then(env.afterWrite, env.afterSave, row)
      case None => (s, Err(HookFailed))
      case Some(seen) => Commit(c, s, s.table[id := row], Entry(CreateAction, id, DiffOf(map[], seen)), env)
  }

  ghost function CreateWith(c: Config, s: State, norm: Row, env: Env): Outcome {
    match UniqueError(c.fields, s.table, "", norm, env.checkFails)
    case Some(e) => (s, Err(e))
    case None =>
      match Then(env.afterValidate, r => Then(env.beforeWrite, env.beforeSave, r), norm)
      case None => (s, Err(HookFailed))
      case Some(data) => CreateTx(c, s, InsertRow(c, data, env.now, env.freshID), env)
  }

  /** The whole record as before_save leaves it; None when a hook fails. */
  function Merged(s: State, id: string, norm: Row, env: Env): Option<Row>
    requires id in s.table
  {
    match Then(env.afterValidate, env.beforeWrite, norm)
    case None => None
    case Some(data) => env.beforeSave(s.table[id] + data)
  }

  ghost function UpdateTx(c: Config, s: State, id: string, merged: Row, env: Env): Outcome
    requires id in s.table
  {
    var row := UpdateRow(merged, env.now);
    var table := Stored(c.dialect, s.table, id, row);
    if env.writeFails || table.None? then (s, Err(WriteFailed))
    else match Then(env.afterWrite, env.afterSave, s.table[id] + row)
      case None => (s, Err(HookFailed))
      case Some(seen) => Commit(c, s, table.value, Entry(UpdateAction, id, DiffOf(s.table[id], seen)), env)
  }

  ghost function UpdateWith(c: Config, s: State, id: string, norm: Row, env: Env): Outcome
    requires id in s.table
  {
    match UniqueError(c.fields, s.table, id, norm, env.checkFails)
    case Some(e) => (s, Err(e))
    case None =>
      match Merged(s, id, norm, env)
      case None => (s, Err(HookFailed))
      case Some(merged) => UpdateTx(c, s, id, merged, env)
  }

  /** before_delete and after_delete are handed the row that is then diffed. */
  ghost function DeleteTx(c: Config, s: State, id: string, env: Env): Outcome
    requires id in s.table
  {
    match env.beforeWrite(s.table[id])
    case None => (s, Err(HookFailed))
    case Some(seen) =>
      var table := Stored(c.dialect, s.table, id, map["deleted" := Bool(true), "updated_at" := env.now]);
      if env.writeFails || table.None? then (s, Err(WriteFailed))
      else match env.afterWrite(seen)
        case None => (s, Err(HookFailed))
        case Some(after) => Commit(c, s, table.value,
          Entry(DeleteAction, id, DiffOf(after, map["deleted" := Bool(true)])), env)
  }

  /** The record can be found: live, and the query did not fail. */
  predicate Found(s: State, id: string, env: Env) {
    !env.readFails && id in s.table && Live(s.table[id])
  }
}
