/** The schema migrator (dal/migrator.go): the difference between the registry
    and the live tables, and the statements written for it. */
module Migrator {
  import opened Wrappers
  import opened SchemaTypes
  import opened Dialects
  import opened Ordering
  import opened DdlText

  datatype ChildTable = ChildTable(tableName: string, fields: seq<Field>)
  datatype Doc = Doc(tableName: string, fields: seq<Field>, children: seq<ChildTable>)

  /** A live table: its columns with the type names the database reports. */
  type Columns = map<string, string>
  type Tables = map<string, Columns>

  datatype ColumnAlteration = ColumnAlteration(fieldName: string, columnName: string, oldColumn: string,
      newColumn: string)
  datatype Alteration = Alteration(tableName: string, addColumns: seq<Field>, dropColumns: seq<string>,
      alterColumns: seq<ColumnAlteration>)
  datatype Diff = Diff(createTables: seq<Doc>, alterTables: seq<Alteration>, dropTables: seq<string>)

  // ----- what the registry wants -----

  /** docToAtlasTable: a table name and its columns in order. */
  datatype Target = Target(name: string, columns: seq<string>)

  function ColumnsOf(fields: seq<Field>): seq<string> {
    if fields == [] then [] else
    ColumnsOf(fields[..|fields| - 1])
    + (if fields[|fields| - 1].fieldType == ChildTableField then [] else [fields[|fields| - 1].dbColumn])
  }

  function TargetOf(doc: Doc): Target {
    Target(doc.tableName, ColumnsOf(doc.fields))
  }

  function ChildDoc(c: ChildTable): Doc {
    Doc(c.tableName, c.fields, [])
  }

  /** The target tables in order, and the document found for each name. */
  datatype Targets = Targets(tables: seq<Target>, docs: map<string, Doc>)

  function AddDoc(ts: Targets, doc: Doc): Targets {
    Targets(ts.tables + [TargetOf(doc)], ts.docs[doc.tableName := doc])
  }

  function AddChildren(ts: Targets, cs: seq<ChildTable>): Targets {
    if cs == [] then ts else
    var before, c := AddChildren(ts, cs[..|cs| - 1]), cs[|cs| - 1];
    if c.tableName in before.docs then before else AddDoc(before, ChildDoc(c))
  }

  function TargetsOf(docs: seq<Doc>): Targets {
    if docs == [] then Targets([], map[]) else
    var doc := docs[|docs| - 1];
    AddChildren(AddDoc(TargetsOf(docs[..|docs| - 1]), doc), doc.children)
  }

  method CollectColumns(fields: seq<Field>) returns (columns: seq<string>)
    ensures columns == ColumnsOf(fields)
  {
    columns := [];
    for i := 0 to |fields|
      invariant columns == ColumnsOf(fields[..i])
    {
      assert fields[..i + 1][..i] == fields[..i];
      if fields[i].fieldType == ChildTableField {
        continue;
      }
      columns := columns + [fields[i].dbColumn];
    }
    assert fields[..|fields|] == fields;
  }

  method CollectTargets(docs: seq<Doc>) returns (ts: Targets)
    ensures ts == TargetsOf(docs)
  {
    var tables: seq<Target>, docTableMap: map<string, Doc> := [], map[];
    for i := 0 to |docs|
      invariant Targets(tables, docTableMap) == TargetsOf(docs[..i])
    {
      var doc := docs[i];
      assert docs[..i + 1][..i] == docs[..i];
      var columns := CollectColumns(doc.fields);
      tables, docTableMap := tables + [Target(doc.tableName, columns)], docTableMap[doc.tableName := doc];
      ghost var withDoc := Targets(tables, docTableMap);
      for j := 0 to |doc.children|
        invariant Targets(tables, docTableMap) == AddChildren(withDoc, doc.children[..j])
      {
        var child := doc.children[j];
        assert doc.children[..j + 1][..j] == doc.children[..j];
        if child.tableName !in docTableMap {
          columns := CollectColumns(child.fields);
          tables := tables + [Target(child.tableName, columns)];
          docTableMap := docTableMap[child.tableName := ChildDoc(child)];
        }
      }
      assert doc.children[..|doc.children|] == doc.children;
    }
    assert docs[..|docs|] == docs;
    ts := Targets(tables, docTableMap);
  }

  // ----- the difference -----

  function First(fields: seq<Field>, column: string, plainOnly: bool): Option<Field> {
    if fields == [] then None
    else if fields[0].dbColumn == column && !(plainOnly && fields[0].fieldType == ChildTableField) then Some(fields[0])
    else First(fields[1..], column, plainOnly)
  }

  /** What one wanted column adds to the alteration of a live table. */
  function AddOf(fields: seq<Field>, column: string, live: Columns): seq<Field> {
    match First(fields, column, false)
    case Some(f) => if column in live then [] else [f]
    case None => []
  }

  function AlterOf(d: Dialect, fields: seq<Field>, column: string, live: Columns): seq<ColumnAlteration> {
    match First(fields, column, true)
    case Some(f) =>
      if column in live && Normalize(d, ColumnType(d, f)) != Normalize(d, live[column])
      then [ColumnAlteration(f.name, f.dbColumn, live[column], ColumnType(d, f))] else []
    case None => []
  }

  /** What f gives for each element, one after another. */
  function Gather<S, T>(f: S -> seq<T>, xs: seq<S>): seq<T> {
    if xs == [] then [] else Gather(f, xs[..|xs| - 1]) + f(xs[|xs| - 1])
  }

  lemma {:induction false} GatherMember<S, T>(f: S -> seq<T>, columns: seq<S>, x: T)
    ensures x in Gather(f, columns) <==> exists i :: 0 <= i < |columns| && x in f(columns[i])
  {
    if columns != [] {
      var n := |columns| - 1;
      GatherMember(f, columns[..n], x);
      if i :| 0 <= i < |columns| && x in f(columns[i]) {
        assert i < n ==> columns[..n][i] == columns[i];
      }
    }
  }

  lemma GatherNext<S, T>(f: S -> seq<T>, xs: seq<S>, i: nat)
    requires i < |xs|
    ensures Gather(f, xs[..i + 1]) == Gather(f, xs[..i]) + f(xs[i])
  {
    assert xs[..i + 1][..i] == xs[..i];
  }

  function Adds(fields: seq<Field>, columns: seq<string>, live: Columns): seq<Field> {
    Gather(c => AddOf(fields, c, live), columns)
  }

  function Alters(d: Dialect, fields: seq<Field>, columns: seq<string>, live: Columns): seq<ColumnAlteration> {
    Gather(c => AlterOf(d, fields, c, live), columns)
  }

  ghost predicate DistinctList(s: seq<string>) {
    forall i, j :: 0 <= i < j < |s| ==> s[i] != s[j]
  }

  /** The alteration of a live table; the columns to drop come in any order. */
  ghost predicate IsAlteration(d: Dialect, doc: Doc, target: Target, live: Columns, a: Alteration) {
    && a.tableName == target.name
    && a.addColumns == Adds(doc.fields, target.columns, live)
    && a.alterColumns == Alters(d, doc.fields, target.columns, live)
    && DistinctList(a.dropColumns)
    && forall c :: c in a.dropColumns <==> c in live && c !in target.columns
  }

  predicate IsEmpty(a: Alteration) {
    a.addColumns == [] && a.dropColumns == [] && a.alterColumns == []
  }

  ghost predicate UpToDate(d: Dialect, doc: Doc, target: Target, live: Columns) {
    && Adds(doc.fields, target.columns, live) == []
    && Alters(d, doc.fields, target.columns, live) == []
    && forall c :: c in live ==> c in target.columns
  }

  ghost predicate Covers(ts: Targets) {
    forall i :: 0 <= i < |ts.tables| ==> ts.tables[i].name in ts.docs
  }

  function Creates(tables: seq<Target>, docs: map<string, Doc>, db: Tables): seq<Doc>
    requires forall i :: 0 <= i < |tables| ==> tables[i].name in docs
  {
    if tables == [] then [] else
    var t := tables[|tables| - 1];
    Creates(tables[..|tables| - 1], docs, db) + (if t.name in db then [] else [docs[t.name]])
  }

  ghost predicate NeedsAlteration(d: Dialect, docs: map<string, Doc>, db: Tables, t: Target) {
    t.name in docs && t.name in db && !UpToDate(d, docs[t.name], t, db[t.name])
  }

  ghost predicate AlterationOf(d: Dialect, docs: map<string, Doc>, db: Tables, t: Target, a: Alteration) {
    t.name in docs && t.name in db && IsAlteration(d, docs[t.name], t, db[t.name], a)
  }

  ghost function Needs(d: Dialect, docs: map<string, Doc>, db: Tables): Target -> bool {
    t => NeedsAlteration(d, docs, db, t)
  }

  ghost function Fits(d: Dialect, docs: map<string, Doc>, db: Tables): (Target, Alteration) -> bool {
    (t, a) => AlterationOf(d, docs, db, t, a)
  }

  /** One element of as_ for each of xs that needs one, in order. */
  ghost predicate MatchUp<S(!new), T(!new)>(needs: S -> bool, fits: (S, T) -> bool, xs: seq<S>, as_: seq<T>) {
    if xs == [] then as_ == [] else
    var x, rest := xs[|xs| - 1], xs[..|xs| - 1];
    if !needs(x) then MatchUp(needs, fits, rest, as_)
    else as_ != [] && fits(x, as_[|as_| - 1]) && MatchUp(needs, fits, rest, as_[..|as_| - 1])
  }

  /** One alteration for each live table that is not up to date, in target order. */
  ghost predicate AlterationsFor(d: Dialect, tables: seq<Target>, docs: map<string, Doc>, db: Tables,
      as_: seq<Alteration>) {
    MatchUp(Needs(d, docs, db), Fits(d, docs, db), tables, as_)
  }

  /** A live table no longer wanted that has both columns of an owned document. */
  ghost predicate Orphan(tables: seq<Target>, db: Tables, t: string) {
    t in db && "id" in db[t] && "deleted" in db[t] && forall i :: 0 <= i < |tables| ==> tables[i].name != t
  }

  ghost predicate IsDiff(d: Dialect, ts: Targets, db: Tables, diff: Diff)
    requires Covers(ts)
  {
    && diff.createTables == Creates(ts.tables, ts.docs, db)
    && AlterationsFor(d, ts.tables, ts.docs, db, diff.alterTables)
    && Sorted(diff.dropTables)
    && forall t :: t in diff.dropTables <==> Orphan(ts.tables, db, t)
  }

  lemma {:induction false} ChildrenCovered(ts: Targets, cs: seq<ChildTable>)
    requires Covers(ts)
    ensures Covers(AddChildren(ts, cs))
  {
    if cs != [] { ChildrenCovered(ts, cs[..|cs| - 1]); }
  }

  lemma {:induction false} TargetsCovered(docs: seq<Doc>)
    ensures Covers(TargetsOf(docs))
  {
    if docs != [] {
      TargetsCovered(docs[..|docs| - 1]);
      ChildrenCovered(AddDoc(TargetsOf(docs[..|docs| - 1]), docs[|docs| - 1]), docs[|docs| - 1].children);
    }
  }

  method FindField(fields: seq<Field>, column: string, plainOnly: bool) returns (f: Option<Field>)
    ensures f == First(fields, column, plainOnly)
  {
    for i := 0 to |fields|
      invariant First(fields, column, plainOnly) == First(fields[i..], column, plainOnly)
    {
      if fields[i].dbColumn == column && !(plainOnly && fields[i].fieldType == ChildTableField) {
        return Some(fields[i]);
      }
      assert fields[i..][1..] == fields[i + 1..];
    }
    f := None;
  }

  /** The columns of a live table that the target does not have. */
  method Dropped(columns: seq<string>, live: Columns) returns (drops: seq<string>)
    ensures DistinctList(drops) && forall c :: c in drops <==> c in live && c !in columns
  {
    drops := [];
    var todo := live.Keys;
    while todo != {}
      invariant todo <= live.Keys && DistinctList(drops)
      invariant forall c :: c in drops <==> c in live && c !in todo && c !in columns
      decreases todo
    {
      var c :| c in todo;  // the map's own order
      if c !in columns {
        drops := drops + [c];
      }
      todo := todo - {c};
    }
  }

  method Compare(d: Dialect, doc: Doc, target: Target, live: Columns) returns (a: Alteration)
    ensures IsAlteration(d, doc, target, live, a)
  {
    var adds: seq<Field>, alters: seq<ColumnAlteration> := [], [];
    for i := 0 to |target.columns|
      invariant adds == Adds(doc.fields, target.columns[..i], live)
      invariant alters == Alters(d, doc.fields, target.columns[..i], live)
    {
      var col := target.columns[i];
      assert target.columns[..i + 1][..i] == target.columns[..i];
      if col !in live {
        var f := FindField(doc.fields, col, false);
        if f.Some? {
          adds := adds + [f.value];
        }
      } else {
        var f := FindField(doc.fields, col, true);
        if f.Some? && Normalize(d, ColumnType(d, f.value)) != Normalize(d, live[col]) {
          alters := alters + [ColumnAlteration(f.value.name, f.value.dbColumn, live[col], ColumnType(d, f.value))];
        }
      }
    }
    assert target.columns[..|target.columns|] == target.columns;
    var drops := Dropped(target.columns, live);
    a := Alteration(target.name, adds, drops, alters);
  }

  /** The orphaned tables, sorted. */
  method Orphans(tables: seq<Target>, db: Tables) returns (drops: seq<string>)
    ensures Sorted(drops) && forall t :: t in drops <==> Orphan(tables, db, t)
  {
    var wanted := set i | 0 <= i < |tables| :: tables[i].name;
    drops := [];
    var todo := db.Keys;
    while todo != {}
      invariant todo <= db.Keys && Sorted(drops)
      invariant forall t :: t in drops <==> t !in todo && Orphan(tables, db, t)
      decreases todo
    {
      var t :| t in todo;  // the map's own order
      todo := todo - {t};
      if t !in wanted && "id" in db[t] && "deleted" in db[t] {
        drops := Insert(drops, t);
      }
    }
  }

  /** diffWithInspector, when both inspections succeed. */
  method ComputeDiff(d: Dialect, docs: seq<Doc>, db: Tables) returns (diff: Diff)
    ensures Covers(TargetsOf(docs)) && IsDiff(d, TargetsOf(docs), db, diff)
  {
    var ts := CollectTargets(docs);
    TargetsCovered(docs);
    var creates: seq<Doc>, alters: seq<Alteration> := [], [];
    for i := 0 to |ts.tables|
      invariant creates == Creates(ts.tables[..i], ts.docs, db)
      invariant AlterationsFor(d, ts.tables[..i], ts.docs, db, alters)
    {
      var t := ts.tables[i];
      assert ts.tables[..i + 1][..i] == ts.tables[..i];
      if t.name !in db {
        creates := creates + [ts.docs[t.name]];
        continue;
      }
      var a := Compare(d, ts.docs[t.name], t, db[t.name]);
      if !IsEmpty(a) {
        NotUpToDate(d, ts.docs[t.name], t, db[t.name], a);
        assert (alters + [a])[..|alters|] == alters;
        alters := alters + [a];
      }
    }
    assert ts.tables[..|ts.tables|] == ts.tables;
    var drops := Orphans(ts.tables, db);
    diff := Diff(creates, alters, drops);
  }

  lemma NotUpToDate(d: Dialect, doc: Doc, target: Target, live: Columns, a: Alteration)
    requires IsAlteration(d, doc, target, live, a)
    ensures IsEmpty(a) <==> UpToDate(d, doc, target, live)
  {
    if a.dropColumns != [] { assert a.dropColumns[0] in a.dropColumns; }
  }

  // ----- the statements -----

  datatype Statement =
    | CreateTable(doc: Doc)
    | AddColumn(table: string, column: string, ddl: string, required: bool)
    | DropColumn(table: string, column: string)
    | AlterType(table: string, column: string, ddl: string)
    | TypeNote(table: string, column: string, oldType: string, newType: string)  // an SQL comment
    | DropTable(table: string)

  function AddStatement(d: Dialect, table: string, f: Field): Statement {
    AddColumn(table, f.dbColumn, ColumnType(d, f), f.required)
  }

  function TypeStatement(d: Dialect, table: string, c: ColumnAlteration): Statement {
    match d
    case Postgres => AlterType(table, c.columnName, c.newColumn)
    case Sqlite => TypeNote(table, c.columnName, c.oldColumn, c.newColumn)
  }

  /** The text filter's test of an ALTER statement. */
  predicate LooksDestructive(d: Dialect, s: Statement) {
    match s
    case AddColumn(t, c, ddl, required) => SaysDropColumn(AddColumnText(d, t, c, ddl, required))
    case DropColumn(t, c) => SaysDropColumn(DropColumnText(d, t, c))
    case AlterType(t, c, ddl) => SaysDropColumn(AlterTypeText(t, c, ddl))
    case TypeNote(t, c, oldType, newType) => SaysDropColumn(TypeNoteText(t, c, oldType, newType))
    case _ => false
  }

  function AddsBy(d: Dialect, table: string): Field -> seq<Statement> {
    (f: Field) => if f.fieldType == ChildTableField then [] else [AddStatement(d, table, f)]
  }

  function DropsIn(table: string): string -> seq<Statement> {
    c => [DropColumn(table, c)]
  }

  function TypesBy(d: Dialect, table: string): ColumnAlteration -> seq<Statement> {
    c => [TypeStatement(d, table, c)]
  }

  /** Additions, drops, then type changes, which SQLite can only note. */
  function AlterList(d: Dialect, a: Alteration): seq<Statement> {
    Gather(AddsBy(d, a.tableName), a.addColumns) + Gather(DropsIn(a.tableName), a.dropColumns) +
      Gather(TypesBy(d, a.tableName), a.alterColumns)
  }

  method Additions(d: Dialect, table: string, fields: seq<Field>) returns (stmts: seq<Statement>)
    ensures stmts == Gather(AddsBy(d, table), fields)
  {
    stmts := [];
    for i := 0 to |fields|
      invariant stmts == Gather(AddsBy(d, table), fields[..i])
    {
      GatherNext(AddsBy(d, table), fields, i);
      if fields[i].fieldType == ChildTableField {
        continue;
      }
      stmts := stmts + [AddStatement(d, table, fields[i])];
    }
    assert fields[..|fields|] == fields;
  }

  method Drops(table: string, columns: seq<string>) returns (stmts: seq<Statement>)
    ensures stmts == Gather(DropsIn(table), columns)
  {
    stmts := [];
    for i := 0 to |columns|
      invariant stmts == Gather(DropsIn(table), columns[..i])
    {
      GatherNext(DropsIn(table), columns, i);
      stmts := stmts + [DropColumn(table, columns[i])];
    }
    assert columns[..|columns|] == columns;
  }

  method TypeChangesOf(d: Dialect, table: string, changes: seq<ColumnAlteration>) returns (stmts: seq<Statement>)
    ensures stmts == Gather(TypesBy(d, table), changes)
  {
    stmts := [];
    for i := 0 to |changes|
      invariant stmts == Gather(TypesBy(d, table), changes[..i])
    {
      GatherNext(TypesBy(d, table), changes, i);
      stmts := stmts + [TypeStatement(d, table, changes[i])];
    }
    assert changes[..|changes|] == changes;
  }

  /** AlterTable of either dialect: the statements of its three loops, one loop
      after another. */
  method AlterTable(d: Dialect, a: Alteration) returns (stmts: seq<Statement>)
    ensures stmts == AlterList(d, a)
  {
    var adds := Additions(d, a.tableName, a.addColumns);
    var drops := Drops(a.tableName, a.dropColumns);
    var types := TypeChangesOf(d, a.tableName, a.alterColumns);
    stmts := adds + drops + types;
  }

  /** The statement is one of those that carry out an alteration. */
  ghost predicate AltersBy(d: Dialect, a: Alteration, s: Statement) {
    || (exists f :: f in a.addColumns && f.fieldType != ChildTableField && s == AddStatement(d, a.tableName, f))
    || (exists c :: c in a.dropColumns && s == DropColumn(a.tableName, c))
    || (exists c :: c in a.alterColumns && s == TypeStatement(d, a.tableName, c))
  }

  lemma AlterListHolds(d: Dialect, a: Alteration, s: Statement)
    ensures s in AlterList(d, a) <==> AltersBy(d, a, s)
  {
    GatherMember(AddsBy(d, a.tableName), a.addColumns, s);
    GatherMember(DropsIn(a.tableName), a.dropColumns, s);
    GatherMember(TypesBy(d, a.tableName), a.alterColumns, s);
  }

  ghost predicate Destructive(diff: Diff) {
    diff.dropTables != [] || exists a :: a in diff.alterTables && a.dropColumns != []
  }

  function ColumnDrops(): Alteration -> seq<Statement> {
    (a: Alteration) => Gather(DropsIn(a.tableName), a.dropColumns)
  }

  function TableDrops(): string -> seq<Statement> {
    t => [DropTable(t)]
  }

  /** The statements that need --allow-destructive: column drops, then table drops. */
  function DestructiveList(diff: Diff): seq<Statement> {
    Gather(ColumnDrops(), diff.alterTables) + Gather(TableDrops(), diff.dropTables)
  }

  lemma DestructiveListed(diff: Diff)
    ensures DestructiveList(diff) != [] <==> Destructive(diff)
  {
    GatherEmpty(ColumnDrops(), diff.alterTables);
    GatherEmpty(TableDrops(), diff.dropTables);
    forall a | a in diff.alterTables ensures ColumnDrops()(a) == [] <==> a.dropColumns == [] {
      GatherEmpty(DropsIn(a.tableName), a.dropColumns);
    }
    if diff.dropTables != [] { assert diff.dropTables[0] in diff.dropTables; }
  }

  lemma {:induction false} GatherEmpty<S, T>(f: S -> seq<T>, xs: seq<S>)
    ensures Gather(f, xs) == [] <==> forall x :: x in xs ==> f(x) == []
  {
    if xs != [] {
      GatherEmpty(f, xs[..|xs| - 1]);
      assert xs == xs[..|xs| - 1] + [xs[|xs| - 1]];
    }
  }

  function ChildCreates(): ChildTable -> seq<Statement> {
    (c: ChildTable) => [CreateTable(ChildDoc(c))]
  }

  function CreatesOf(): Doc -> seq<Statement> {
    (doc: Doc) => [CreateTable(doc)] + Gather(ChildCreates(), doc.children)
  }

  /** The text filter: without allowDestructive a statement whose upper-cased text
      says DROP COLUMN is left out. */
  function Filter(d: Dialect, allowDestructive: bool): Statement -> seq<Statement> {
    s => if !allowDestructive && LooksDestructive(d, s) then [] else [s]
  }

  function FilteredBy(d: Dialect, allowDestructive: bool): Alteration -> seq<Statement> {
    (a: Alteration) => Gather(Filter(d, allowDestructive), AlterList(d, a))
  }

  /** The file: creations, filtered alterations, table drops. */
  function FileOf(d: Dialect, diff: Diff, allowDestructive: bool): seq<Statement> {
    var stmts := Gather(CreatesOf(), diff.createTables) + Gather(FilteredBy(d, allowDestructive), diff.alterTables);
    if allowDestructive then stmts + Gather(TableDrops(), diff.dropTables) else stmts
  }

  method DestructiveStatements(diff: Diff) returns (stmts: seq<Statement>)
    ensures stmts == DestructiveList(diff)
  {
    stmts := [];
    for i := 0 to |diff.alterTables|
      invariant stmts == Gather(ColumnDrops(), diff.alterTables[..i])
    {
      GatherNext(ColumnDrops(), diff.alterTables, i);
      var drops := Drops(diff.alterTables[i].tableName, diff.alterTables[i].dropColumns);
      stmts := stmts + drops;
    }
    assert diff.alterTables[..|diff.alterTables|] == diff.alterTables;
    var drops := TableDropStatements(diff.dropTables);
    stmts := stmts + drops;
  }

  method TableDropStatements(tables: seq<string>) returns (stmts: seq<Statement>)
    ensures stmts == Gather(TableDrops(), tables)
  {
    stmts := [];
    for i := 0 to |tables|
      invariant stmts == Gather(TableDrops(), tables[..i])
    {
      GatherNext(TableDrops(), tables, i);
      stmts := stmts + [DropTable(tables[i])];
    }
    assert tables[..|tables|] == tables;
  }

  method CreateStatements(docs: seq<Doc>) returns (stmts: seq<Statement>)
    ensures stmts == Gather(CreatesOf(), docs)
  {
    stmts := [];
    for i := 0 to |docs|
      invariant stmts == Gather(CreatesOf(), docs[..i])
    {
      GatherNext(CreatesOf(), docs, i);
      ghost var before := stmts + [CreateTable(docs[i])];
      stmts := stmts + [CreateTable(docs[i])];
      for j := 0 to |docs[i].children|
        invariant stmts == before + Gather(ChildCreates(), docs[i].children[..j])
      {
        GatherNext(ChildCreates(), docs[i].children, j);
        stmts := stmts + [CreateTable(ChildDoc(docs[i].children[j]))];
      }
      assert docs[i].children[..|docs[i].children|] == docs[i].children;
    }
    assert docs[..|docs|] == docs;
  }

  method FilteredStatements(d: Dialect, a: Alteration, allowDestructive: bool) returns (stmts: seq<Statement>)
    ensures stmts == FilteredBy(d, allowDestructive)(a)
  {
    var all := AlterTable(d, a);
    stmts := [];
    for j := 0 to |all|
      invariant stmts == Gather(Filter(d, allowDestructive), all[..j])
    {
      GatherNext(Filter(d, allowDestructive), all, j);
      if !allowDestructive && LooksDestructive(d, all[j]) {
        continue;
      }
      stmts := stmts + [all[j]];
    }
    assert all[..|all|] == all;
  }

  method AlterStatements(d: Dialect, alters: seq<Alteration>, allowDestructive: bool) returns (stmts: seq<Statement>)
    ensures stmts == Gather(FilteredBy(d, allowDestructive), alters)
  {
    stmts := [];
    for i := 0 to |alters|
      invariant stmts == Gather(FilteredBy(d, allowDestructive), alters[..i])
    {
      GatherNext(FilteredBy(d, allowDestructive), alters, i);
      var more := FilteredStatements(d, alters[i], allowDestructive);
      stmts := stmts + more;
    }
    assert alters[..|alters|] == alters;
  }

  /** Write: the statements of the migration file, or the destructive statements
      that --allow-destructive would be needed for. */
  method Write(d: Dialect, diff: Diff, allowDestructive: bool) returns (r: Result<seq<Statement>, seq<Statement>>)
    ensures r == if !allowDestructive && Destructive(diff) then Err(DestructiveList(diff))
            else Ok(FileOf(d, diff, allowDestructive))
  {
    var destructive := DestructiveStatements(diff);
    DestructiveListed(diff);
    if destructive != [] && !allowDestructive {
      return Err(destructive);
    }
    var stmts := CreateStatements(diff.createTables);
    var alters := AlterStatements(d, diff.alterTables, allowDestructive);
    stmts := stmts + alters;
    if allowDestructive {
      var drops := TableDropStatements(diff.dropTables);
      stmts := stmts + drops;
    }
    r := Ok(stmts);
  }

  // ----- what the file holds -----

  ghost predicate CreatesBy(doc: Doc, s: Statement) {
    s == CreateTable(doc) || exists c :: c in doc.children && s == CreateTable(ChildDoc(c))
  }

  /** The statements that carry out a difference. */
  ghost predicate CarriesOut(d: Dialect, diff: Diff, s: Statement) {
    || (exists doc :: doc in diff.createTables && CreatesBy(doc, s))
    || (exists a :: a in diff.alterTables && AltersBy(d, a, s))
    || (exists t :: t in diff.dropTables && s == DropTable(t))
  }

  /** Without allowDestructive the filter drops every ALTER whose upper-cased text
      says DROP COLUMN. */
  ghost predicate Emitted(d: Dialect, diff: Diff, allowDestructive: bool, s: Statement) {
    || (exists doc :: doc in diff.createTables && CreatesBy(doc, s))
    || (exists a :: a in diff.alterTables && AltersBy(d, a, s) && (allowDestructive || !LooksDestructive(d, s)))
    || (allowDestructive && exists t :: t in diff.dropTables && s == DropTable(t))
  }

  lemma CreationsHold(docs: seq<Doc>, s: Statement)
    ensures s in Gather(CreatesOf(), docs) <==> exists doc :: doc in docs && CreatesBy(doc, s)
  {
    GatherMember(CreatesOf(), docs, s);
    forall doc ensures s in CreatesOf()(doc) <==> CreatesBy(doc, s) {
      GatherMember(ChildCreates(), doc.children, s);
    }
  }

  lemma FilteredHolds(d: Dialect, allowDestructive: bool, a: Alteration, s: Statement)
    ensures s in FilteredBy(d, allowDestructive)(a) <==>
              AltersBy(d, a, s) && (allowDestructive || !LooksDestructive(d, s))
  {
    GatherMember(Filter(d, allowDestructive), AlterList(d, a), s);
    AlterListHolds(d, a, s);
  }

  lemma AlterationsHold(d: Dialect, alters: seq<Alteration>, allowDestructive: bool, s: Statement)
    ensures s in Gather(FilteredBy(d, allowDestructive), alters) <==>
            exists a :: a in alters && AltersBy(d, a, s) && (allowDestructive || !LooksDestructive(d, s))
  {
    GatherMember(FilteredBy(d, allowDestructive), alters, s);
    forall a ensures s in FilteredBy(d, allowDestructive)(a) <==>
        AltersBy(d, a, s) && (allowDestructive || !LooksDestructive(d, s)) {
      FilteredHolds(d, allowDestructive, a, s);
    }
  }

  /** The file holds a statement exactly when it carries out the difference and
      neither the filter nor the flag keeps it out. */
  lemma FileHolds(d: Dialect, diff: Diff, allowDestructive: bool, s: Statement)
    ensures s in FileOf(d, diff, allowDestructive) <==> Emitted(d, diff, allowDestructive, s)
  {
    CreationsHold(diff.createTables, s);
    AlterationsHold(d, diff.alterTables, allowDestructive, s);
    GatherMember(TableDrops(), diff.dropTables, s);
  }
}
