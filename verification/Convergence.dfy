/** What applying a written migration does: the database afterwards, the second
    difference, and what is never dropped. */
module Convergence {
  import opened Wrappers
  import opened SchemaTypes
  import opened Dialects
  import opened Migrator
  import opened DdlText
  import opened Ordering

  // ----- the database -----

  /** The columns CREATE TABLE declares, with the types the database reports. */
  function Declared(d: Dialect, fields: seq<Field>): Columns {
    if fields == [] then map[] else
    var f, before := fields[|fields| - 1], Declared(d, fields[..|fields| - 1]);
    if f.fieldType == ChildTableField then before else before[f.dbColumn := Reported(d, ColumnType(d, f))]
  }

  function TableOf(s: Statement): string {
    match s
    case CreateTable(doc) => doc.tableName
    case AddColumn(t, _, _, _) => t
    case DropColumn(t, _) => t
    case AlterType(t, _, _) => t
    case TypeNote(t, _, _, _) => t
    case DropTable(t) => t
  }

  /** What one accepted statement leaves of its table. */
  function Effect(d: Dialect, s: Statement, live: Option<Columns>): Option<Columns> {
    match s
    case CreateTable(doc) => if live.Some? then live else Some(Declared(d, doc.fields))
    case AddColumn(_, c, ddl, _) =>
      if live.None? || c in live.value then live else Some(live.value[c := Reported(d, ddl)])
    case DropColumn(_, c) => if live.None? then live else Some(live.value - {c})
    case AlterType(_, c, ddl) =>
      if live.None? || c !in live.value then live else Some(live.value[c := Reported(d, ddl)])
    case TypeNote(_, _, _, _) => live
    case DropTable(_) => None
  }

  function Lookup(db: Tables, t: string): Option<Columns> {
    if t in db then Some(db[t]) else None
  }

  function Apply(d: Dialect, db: Tables, s: Statement): Tables {
    match Effect(d, s, Lookup(db, TableOf(s)))
    case Some(live) => db[TableOf(s) := live]
    case None => db - {TableOf(s)}
  }

  /** A migration file the database accepts in full. */
  function Run(d: Dialect, db: Tables, stmts: seq<Statement>): Tables {
    if stmts == [] then db else Apply(d, Run(d, db, stmts[..|stmts| - 1]), stmts[|stmts| - 1])
  }

  // ----- one column of one table -----

  datatype Cell = NoTable | NoColumn | Typed(name: string)

  function CellAt(live: Option<Columns>, c: string): Cell {
    if live.None? then NoTable else if c in live.value then Typed(live.value[c]) else NoColumn
  }

  function CellOf(db: Tables, t: string, c: string): Cell {
    CellAt(Lookup(db, t), c)
  }

  function CellEffect(d: Dialect, s: Statement, t: string, c: string, cell: Cell): Cell {
    if TableOf(s) != t then cell else
    match s
    case CreateTable(doc) => if cell == NoTable then CellAt(Some(Declared(d, doc.fields)), c) else cell
    case AddColumn(_, c', ddl, _) => if c == c' && cell == NoColumn then Typed(Reported(d, ddl)) else cell
    case DropColumn(_, c') => if c == c' && cell != NoTable then NoColumn else cell
    case AlterType(_, c', ddl) => if c == c' && cell.Typed? then Typed(Reported(d, ddl)) else cell
    case TypeNote(_, _, _, _) => cell
    case DropTable(_) => NoTable
  }

  lemma ApplyCell(d: Dialect, db: Tables, s: Statement, t: string, c: string)
    ensures CellOf(Apply(d, db, s), t, c) == CellEffect(d, s, t, c, CellOf(db, t, c))
  {
  }

  /** The statements change the cell to e or not at all. */
  ghost predicate OnlyTo(d: Dialect, s: Statement, t: string, c: string, cell: Cell, e: Cell) {
    && (CellEffect(d, s, t, c, cell) == cell || CellEffect(d, s, t, c, cell) == e)
    && CellEffect(d, s, t, c, e) == e
  }

  /** When every statement either leaves a cell or takes it to e, in whatever
      order they run it ends at e as soon as one of them does. */
  lemma {:induction false} Settles(d: Dialect, db: Tables, stmts: seq<Statement>, t: string, c: string, e: Cell)
    requires forall s :: s in stmts ==> OnlyTo(d, s, t, c, CellOf(db, t, c), e)
    ensures CellOf(Run(d, db, stmts), t, c) == CellOf(db, t, c) || CellOf(Run(d, db, stmts), t, c) == e
    ensures (exists s :: s in stmts && CellEffect(d, s, t, c, CellOf(db, t, c)) == e) ==>
              CellOf(Run(d, db, stmts), t, c) == e
  {
    if stmts != [] {
      var n := |stmts| - 1;
      Settles(d, db, stmts[..n], t, c, e);
      ApplyCell(d, Run(d, db, stmts[..n]), stmts[n], t, c);
      assert OnlyTo(d, stmts[n], t, c, CellOf(db, t, c), e);
      if s :| s in stmts && CellEffect(d, s, t, c, CellOf(db, t, c)) == e {
        assert s in stmts[..n] || s == stmts[n];
      }
    }
  }

  // ----- registries with distinct names -----

  /** Every document and every child table, as a document of its own. */
  function AllDocs(docs: seq<Doc>): seq<Doc> {
    if docs == [] then [] else
    var doc := docs[|docs| - 1];
    AllDocs(docs[..|docs| - 1]) + [doc] + ChildDocs(doc.children)
  }

  function ChildDocs(cs: seq<ChildTable>): (ds: seq<Doc>)
    ensures |ds| == |cs| && forall i :: 0 <= i < |cs| ==> ds[i] == ChildDoc(cs[i])
  {
    seq(|cs|, i requires 0 <= i < |cs| => ChildDoc(cs[i]))
  }

  ghost predicate DistinctTables(ds: seq<Doc>) {
    forall i, j :: 0 <= i < j < |ds| ==> ds[i].tableName != ds[j].tableName
  }

  ghost predicate DistinctColumns(fields: seq<Field>) {
    forall i, j :: 0 <= i < j < |fields| ==> fields[i].dbColumn != fields[j].dbColumn
  }

  /** Table names are distinct across the registry, column names within a table. */
  ghost predicate DistinctNames(docs: seq<Doc>) {
    DistinctTables(AllDocs(docs)) && forall i :: 0 <= i < |AllDocs(docs)| ==> DistinctColumns(AllDocs(docs)[i].fields)
  }

  /** The targets are exactly these documents, in order. */
  ghost predicate Lists(ts: Targets, ds: seq<Doc>) {
    && |ts.tables| == |ds|
    && (forall i :: 0 <= i < |ds| ==>
           ts.tables[i] == TargetOf(ds[i]) && ds[i].tableName in ts.docs && ts.docs[ds[i].tableName] == ds[i])
    && (forall t :: t in ts.docs ==> exists i :: 0 <= i < |ds| && ds[i].tableName == t)
  }

  lemma NamedOneMore(ts: Targets, ds: seq<Doc>, doc: Doc, t: string)
    requires Lists(ts, ds) && t in AddDoc(ts, doc).docs
    ensures exists i :: 0 <= i < |ds| + 1 && (ds + [doc])[i].tableName == t
  {
    var all := ds + [doc];
    if t == doc.tableName {
      assert all[|ds|].tableName == t;
    } else {
      var i :| 0 <= i < |ds| && ds[i].tableName == t;
      assert all[i].tableName == t;
    }
  }

  lemma ListsOneMore(ts: Targets, ds: seq<Doc>, doc: Doc)
    requires Lists(ts, ds) && DistinctTables(ds + [doc])
    ensures doc.tableName !in ts.docs && Lists(AddDoc(ts, doc), ds + [doc])
  {
    var all := ds + [doc];
    forall i | 0 <= i < |ds| ensures ds[i].tableName != doc.tableName {
      assert all[i] == ds[i] && all[|ds|] == doc;
    }
    forall t | t in AddDoc(ts, doc).docs ensures exists i :: 0 <= i < |all| && all[i].tableName == t {
      NamedOneMore(ts, ds, doc, t);
    }
  }

  lemma {:induction false} ListsChildren(ts: Targets, ds: seq<Doc>, cs: seq<ChildTable>)
    requires Lists(ts, ds) && DistinctTables(ds + ChildDocs(cs))
    ensures Lists(AddChildren(ts, cs), ds + ChildDocs(cs))
  {
    if cs == [] {
      assert ds + ChildDocs(cs) == ds;
    } else {
      var n := |cs| - 1;
      var before, last := ds + ChildDocs(cs[..n]), ChildDoc(cs[n]);
      assert ds + ChildDocs(cs) == before + [last];
      assert forall i :: 0 <= i < |before| ==> (before + [last])[i] == before[i];
      ListsChildren(ts, ds, cs[..n]);
      ListsOneMore(AddChildren(ts, cs[..n]), before, last);
    }
  }

  lemma {:induction false} ListsDocs(docs: seq<Doc>)
    requires DistinctTables(AllDocs(docs))
    ensures Lists(TargetsOf(docs), AllDocs(docs))
  {
    if docs != [] {
      var n := |docs| - 1;
      var before, doc := AllDocs(docs[..n]), docs[n];
      var all := before + [doc] + ChildDocs(doc.children);
      assert all == AllDocs(docs);
      assert forall i :: 0 <= i < |before| + 1 ==> all[i] == (before + [doc])[i];
      assert forall i :: 0 <= i < |before| ==> all[i] == before[i];
      ListsDocs(docs[..n]);
      ListsOneMore(TargetsOf(docs[..n]), before, doc);
      ListsChildren(AddDoc(TargetsOf(docs[..n]), doc), before + [doc], doc.children);
    }
  }

  // ----- the members of a difference -----

  predicate Plain(fields: seq<Field>, f: Field) {
    f in fields && f.fieldType != ChildTableField
  }

  lemma {:induction false} ColumnsMember(fields: seq<Field>, c: string)
    ensures c in ColumnsOf(fields) <==> exists f :: Plain(fields, f) && f.dbColumn == c
  {
    if fields != [] {
      var n := |fields| - 1;
      ColumnsMember(fields[..n], c);
      assert forall f :: f in fields <==> f in fields[..n] || f == fields[n];
      if f :| Plain(fields, f) && f.dbColumn == c {
        assert Plain(fields[..n], f) || f == fields[n];
      }
      if f :| Plain(fields[..n], f) && f.dbColumn == c {
        assert Plain(fields, f);
      }
      if fields[n].fieldType != ChildTableField && fields[n].dbColumn == c {
        assert Plain(fields, fields[n]);
      }
    }
  }

  lemma {:induction false} FirstFound(fields: seq<Field>, f: Field, plainOnly: bool)
    requires DistinctColumns(fields) && Plain(fields, f)
    ensures First(fields, f.dbColumn, plainOnly) == Some(f)
  {
    if fields[0] != f {
      var i :| 0 <= i < |fields| && fields[i] == f;
      assert fields[0].dbColumn != fields[i].dbColumn && fields[1..][i - 1] == f;
      FirstFound(fields[1..], f, plainOnly);
    }
  }

  lemma AddsMember(fields: seq<Field>, columns: seq<string>, live: Columns, f: Field)
    ensures f in Adds(fields, columns, live) <==> exists i :: 0 <= i < |columns| && f in AddOf(fields, columns[i], live)
  {
    GatherMember(c => AddOf(fields, c, live), columns, f);
  }

  lemma AltersMember(d: Dialect, fields: seq<Field>, columns: seq<string>, live: Columns, a: ColumnAlteration)
    ensures a in Alters(d, fields, columns, live) <==>
              exists i :: 0 <= i < |columns| && a in AlterOf(d, fields, columns[i], live)
  {
    GatherMember(c => AlterOf(d, fields, c, live), columns, a);
  }

  /** A column to add: wanted, not live. */
  lemma AddedField(doc: Doc, live: Columns, f: Field)
    requires DistinctColumns(doc.fields)
    ensures f in Adds(doc.fields, ColumnsOf(doc.fields), live) <==> Plain(doc.fields, f) && f.dbColumn !in live
  {
    var columns := ColumnsOf(doc.fields);
    AddsMember(doc.fields, columns, live, f);
    if i :| 0 <= i < |columns| && f in AddOf(doc.fields, columns[i], live) {
      ColumnsMember(doc.fields, columns[i]);
      var g :| Plain(doc.fields, g) && g.dbColumn == columns[i];
      FirstFound(doc.fields, g, false);
    }
    if Plain(doc.fields, f) && f.dbColumn !in live {
      ColumnsMember(doc.fields, f.dbColumn);
      FirstFound(doc.fields, f, false);
      var i :| 0 <= i < |columns| && columns[i] == f.dbColumn;
      assert f in AddOf(doc.fields, columns[i], live);
    }
  }

  function ChangeOf(d: Dialect, f: Field, live: Columns): ColumnAlteration
    requires f.dbColumn in live
  {
    ColumnAlteration(f.name, f.dbColumn, live[f.dbColumn], ColumnType(d, f))
  }

  predicate Retyped(d: Dialect, f: Field, live: Columns) {
    f.dbColumn in live && Normalize(d, ColumnType(d, f)) != Normalize(d, live[f.dbColumn])
  }

  /** A type to change: wanted and live, under different types. */
  lemma AlteredField(d: Dialect, doc: Doc, live: Columns, a: ColumnAlteration)
    requires DistinctColumns(doc.fields)
    ensures a in Alters(d, doc.fields, ColumnsOf(doc.fields), live) <==>
            exists f :: Plain(doc.fields, f) && Retyped(d, f, live) && a == ChangeOf(d, f, live)
  {
    var columns := ColumnsOf(doc.fields);
    AltersMember(d, doc.fields, columns, live, a);
    if i :| 0 <= i < |columns| && a in AlterOf(d, doc.fields, columns[i], live) {
      ColumnsMember(doc.fields, columns[i]);
      var g :| Plain(doc.fields, g) && g.dbColumn == columns[i];
      FirstFound(doc.fields, g, true);
      assert Retyped(d, g, live) && a == ChangeOf(d, g, live);
    }
    if f :| Plain(doc.fields, f) && Retyped(d, f, live) && a == ChangeOf(d, f, live) {
      ColumnsMember(doc.fields, f.dbColumn);
      FirstFound(doc.fields, f, true);
      var i :| 0 <= i < |columns| && columns[i] == f.dbColumn;
      assert a in AlterOf(d, doc.fields, columns[i], live);
    }
  }

  lemma {:induction false} CreatesMember(tables: seq<Target>, docs: map<string, Doc>, db: Tables, doc: Doc)
    requires forall i :: 0 <= i < |tables| ==> tables[i].name in docs
    ensures doc in Creates(tables, docs, db) <==>
              exists i :: 0 <= i < |tables| && tables[i].name !in db && docs[tables[i].name] == doc
  {
    if tables != [] {
      var n := |tables| - 1;
      CreatesMember(tables[..n], docs, db, doc);
      if i :| 0 <= i < |tables| && tables[i].name !in db && docs[tables[i].name] == doc {
        assert i < n ==> tables[..n][i] == tables[i];
      }
    }
  }

  lemma {:induction false} MatchSound<S(!new), T(!new)>(needs: S -> bool, fits: (S, T) -> bool, xs: seq<S>,
      as_: seq<T>, k: nat)
      returns (i: nat)
    requires MatchUp(needs, fits, xs, as_) && k < |as_|
    ensures i < |xs| && needs(xs[i]) && fits(xs[i], as_[k])
  {
    var n := |xs| - 1;
    if !needs(xs[n]) {
      i := MatchSound(needs, fits, xs[..n], as_, k);
    } else if k == |as_| - 1 {
      i := n;
    } else {
      i := MatchSound(needs, fits, xs[..n], as_[..|as_| - 1], k);
    }
  }

  lemma {:induction false} MatchComplete<S(!new), T(!new)>(needs: S -> bool, fits: (S, T) -> bool, xs: seq<S>,
      as_: seq<T>, i: nat)
      returns (k: nat)
    requires MatchUp(needs, fits, xs, as_) && i < |xs| && needs(xs[i])
    ensures k < |as_| && fits(xs[i], as_[k])
  {
    var n := |xs| - 1;
    if i == n {
      k := |as_| - 1;
    } else if !needs(xs[n]) {
      k := MatchComplete(needs, fits, xs[..n], as_, i);
    } else {
      k := MatchComplete(needs, fits, xs[..n], as_[..|as_| - 1], i);
    }
  }

  /** What becomes of x the second time: nothing, or what keep leaves of it. */
  ghost predicate Repeats<S(!new), T(!new)>(needs1: S -> bool, fits1: (S, T) -> bool, needs2: S -> bool,
      fits2: (S, T) -> bool, keep: T -> seq<T>, x: S) {
    && (needs2(x) ==> needs1(x))
    && (forall a {:trigger fits1(x, a)} :: needs1(x) && !needs2(x) && fits1(x, a) ==> keep(a) == [])
    && (forall a, b {:trigger fits1(x, a), fits2(x, b)} :: needs2(x) && fits1(x, a) && fits2(x, b) ==> keep(a) == [b])
  }

  lemma {:induction false} MatchAgain<S(!new), T(!new)>(needs1: S -> bool, fits1: (S, T) -> bool, needs2: S -> bool,
      fits2: (S, T) -> bool, keep: T -> seq<T>, xs: seq<S>, as_: seq<T>, bs: seq<T>)
    requires MatchUp(needs1, fits1, xs, as_) && MatchUp(needs2, fits2, xs, bs)
    requires forall i :: 0 <= i < |xs| ==> Repeats(needs1, fits1, needs2, fits2, keep, xs[i])
    ensures bs == Gather(keep, as_)
  {
    if xs != [] {
      var n := |xs| - 1;
      assert Repeats(needs1, fits1, needs2, fits2, keep, xs[n]);
      var as', bs' := if needs1(xs[n]) then as_[..|as_| - 1] else as_, if needs2(xs[n]) then bs[..|bs| - 1] else bs;
      MatchAgain(needs1, fits1, needs2, fits2, keep, xs[..n], as', bs');
      if needs1(xs[n]) {
        var a := as_[|as_| - 1];
        assert as_ == as' + [a] && fits1(xs[n], a);
        if needs2(xs[n]) {
          assert fits2(xs[n], bs[|bs| - 1]) && bs == bs' + [bs[|bs| - 1]];
        }
      }
    }
  }

  // ----- the statements of a written migration -----

  /** A migration: the difference, and the statements Write made of it. */
  datatype Plan = Plan(dialect: Dialect, ds: seq<Doc>, ts: Targets, db: Tables, diff: Diff, allow: bool,
      stmts: seq<Statement>)

  /** The targets of a registry with distinct names. */
  ghost predicate Registered(ts: Targets, ds: seq<Doc>) {
    && Lists(ts, ds) && DistinctTables(ds) && Covers(ts)
    && (forall i :: 0 <= i < |ds| ==> DistinctColumns(ds[i].fields))
    && (forall i, c :: 0 <= i < |ds| && c in ds[i].children ==> ChildDoc(c) in ds)
  }

  ghost predicate IsPlan(p: Plan) {
    && Registered(p.ts, p.ds)
    && IsDiff(p.dialect, p.ts, p.db, p.diff)
    && (p.allow || !Destructive(p.diff))
  }

  /** A statement of the difference, whatever the text filter says. */
  ghost predicate Due(p: Plan, s: Statement) {
    CarriesOut(p.dialect, p.diff, s) && (s.DropTable? ==> p.allow)
  }

  ghost predicate OnlyDue(p: Plan) {
    forall s :: s in p.stmts ==> Due(p, s)
  }

  /** The file holds every statement of the difference; a comment may be missing. */
  ghost predicate Unfiltered(p: Plan) {
    OnlyDue(p) && forall s :: Due(p, s) && !s.TypeNote? ==> s in p.stmts
  }

  ghost predicate LiveField(p: Plan, i: nat, f: Field, t: string)
    requires i < |p.ds|
  {
    p.ds[i].tableName == t && t in p.db && Plain(p.ds[i].fields, f)
  }

  /** Why a statement is there. */
  ghost predicate Justified(p: Plan, s: Statement) {
    match s
    case CreateTable(doc) => exists i ::
      0 <= i < |p.ds| && p.ds[i].tableName == doc.tableName && p.ds[i].fields == doc.fields
    case AddColumn(t, c, ddl, required) =>
      exists i, f :: 0 <= i < |p.ds| && LiveField(p, i, f, t) && f.dbColumn == c && c !in p.db[t] &&
        ddl == ColumnType(p.dialect, f) && required == f.required
    case DropColumn(t, c) =>
      p.allow && exists i ::
        0 <= i < |p.ds| && p.ds[i].tableName == t && t in p.db && c in p.db[t] && c !in ColumnsOf(p.ds[i].fields)
    case AlterType(t, c, ddl) =>
      p.dialect.Postgres? && exists i, f ::
        && 0 <= i < |p.ds| && LiveField(p, i, f, t) && f.dbColumn == c
        && Retyped(p.dialect, f, p.db[t]) && ddl == ColumnType(p.dialect, f)
    case TypeNote(_, _, _, _) => p.dialect.Sqlite?
    case DropTable(t) => p.allow && Orphan(p.ts.tables, p.db, t)
  }

  /** Whose creation it is. */
  lemma CreatedDoc(p: Plan, doc: Doc) returns (i: nat)
    requires IsPlan(p) && doc in p.diff.createTables
    ensures i < |p.ds| && p.ds[i] == doc
  {
    CreatesMember(p.ts.tables, p.ts.docs, p.db, doc);
    i :| 0 <= i < |p.ds| && p.ts.tables[i].name !in p.db && p.ts.docs[p.ts.tables[i].name] == doc;
  }

  lemma CreateJustified(p: Plan, doc: Doc, s: Statement)
    requires IsPlan(p) && doc in p.diff.createTables && CreatesBy(doc, s)
    ensures Justified(p, s)
  {
    var i := CreatedDoc(p, doc);
    if c :| c in doc.children && s == CreateTable(ChildDoc(c)) {
      assert ChildDoc(c) in p.ds;
    }
  }

  /** Whose alteration it is. */
  lemma AlteredDoc(p: Plan, a: Alteration) returns (i: nat)
    requires IsPlan(p) && a in p.diff.alterTables
    ensures i < |p.ds| && a.tableName == p.ds[i].tableName && a.tableName in p.db
    ensures IsAlteration(p.dialect, p.ds[i], TargetOf(p.ds[i]), p.db[a.tableName], a)
  {
    var k :| 0 <= k < |p.diff.alterTables| && p.diff.alterTables[k] == a;
    i := MatchSound(Needs(p.dialect, p.ts.docs, p.db), Fits(p.dialect, p.ts.docs, p.db), p.ts.tables,
      p.diff.alterTables, k);
    assert p.ts.tables[i] == TargetOf(p.ds[i]) && p.ts.docs[p.ds[i].tableName] == p.ds[i];
  }

  lemma AddJustified(p: Plan, i: nat, t: string, f: Field)
    requires IsPlan(p) && i < |p.ds| && t == p.ds[i].tableName && t in p.db
    requires f in Adds(p.ds[i].fields, ColumnsOf(p.ds[i].fields), p.db[t])
    ensures Justified(p, AddStatement(p.dialect, t, f))
  {
    AddedField(p.ds[i], p.db[t], f);
    assert LiveField(p, i, f, t);
  }

  lemma TypeJustified(p: Plan, i: nat, t: string, c: ColumnAlteration)
    requires IsPlan(p) && i < |p.ds| && t == p.ds[i].tableName && t in p.db
    requires c in Alters(p.dialect, p.ds[i].fields, ColumnsOf(p.ds[i].fields), p.db[t])
    ensures Justified(p, TypeStatement(p.dialect, t, c))
  {
    AlteredField(p.dialect, p.ds[i], p.db[t], c);
    var f :| Plain(p.ds[i].fields, f) && Retyped(p.dialect, f, p.db[t]) && c == ChangeOf(p.dialect, f, p.db[t]);
    assert LiveField(p, i, f, t);
  }

  lemma AlterJustified(p: Plan, a: Alteration, s: Statement)
    requires IsPlan(p) && a in p.diff.alterTables && AltersBy(p.dialect, a, s)
    ensures Justified(p, s)
  {
    var i := AlteredDoc(p, a);
    if f :| f in a.addColumns && f.fieldType != ChildTableField && s == AddStatement(p.dialect, a.tableName, f) {
      AddJustified(p, i, a.tableName, f);
    } else if c :| c in a.dropColumns && s == DropColumn(a.tableName, c) {
      assert p.allow;
    } else {
      var c :| c in a.alterColumns && s == TypeStatement(p.dialect, a.tableName, c);
      TypeJustified(p, i, a.tableName, c);
    }
  }

  lemma AllJustified(p: Plan, s: Statement)
    requires IsPlan(p) && Due(p, s)
    ensures Justified(p, s)
  {
    if doc :| doc in p.diff.createTables && CreatesBy(doc, s) {
      CreateJustified(p, doc, s);
    } else if a :| a in p.diff.alterTables && AltersBy(p.dialect, a, s) {
      AlterJustified(p, a, s);
    }
  }

  lemma MissingTableCreated(p: Plan, i: nat)
    requires IsPlan(p) && Unfiltered(p) && i < |p.ds| && p.ds[i].tableName !in p.db
    ensures CreateTable(p.ds[i]) in p.stmts
  {
    assert p.ts.tables[i].name == p.ds[i].tableName;
    CreatesMember(p.ts.tables, p.ts.docs, p.db, p.ds[i]);
    assert CreatesBy(p.ds[i], CreateTable(p.ds[i]));
    assert Due(p, CreateTable(p.ds[i]));
  }

  ghost predicate Stale(p: Plan, i: nat, db: Tables)
    requires i < |p.ds|
  {
    NeedsAlteration(p.dialect, p.ts.docs, db, TargetOf(p.ds[i]))
  }

  lemma AlterationMade(p: Plan, i: nat) returns (a: Alteration)
    requires IsPlan(p) && i < |p.ds| && Stale(p, i, p.db)
    ensures a in p.diff.alterTables && IsAlteration(p.dialect, p.ds[i], TargetOf(p.ds[i]), p.db[p.ds[i].tableName], a)
  {
    assert p.ts.tables[i] == TargetOf(p.ds[i]);
    var k := MatchComplete(Needs(p.dialect, p.ts.docs, p.db), Fits(p.dialect, p.ts.docs, p.db), p.ts.tables,
      p.diff.alterTables, i);
    a := p.diff.alterTables[k];
  }

  lemma MissingColumnDue(p: Plan, i: nat, f: Field)
    requires IsPlan(p) && i < |p.ds| && LiveField(p, i, f, p.ds[i].tableName) && f.dbColumn !in p.db[p.ds[i].tableName]
    ensures Due(p, AddStatement(p.dialect, p.ds[i].tableName, f))
  {
    AddedField(p.ds[i], p.db[p.ds[i].tableName], f);
    var a := AlterationMade(p, i);
    assert AltersBy(p.dialect, a, AddStatement(p.dialect, a.tableName, f));
  }

  lemma WrongTypeDue(p: Plan, i: nat, f: Field)
    requires IsPlan(p) && i < |p.ds| && LiveField(p, i, f, p.ds[i].tableName) &&
             Retyped(p.dialect, f, p.db[p.ds[i].tableName])
    ensures Due(p, TypeStatement(p.dialect, p.ds[i].tableName, ChangeOf(p.dialect, f, p.db[p.ds[i].tableName])))
  {
    var live := p.db[p.ds[i].tableName];
    var change := ChangeOf(p.dialect, f, live);
    AlteredField(p.dialect, p.ds[i], live, change);
    var a := AlterationMade(p, i);
    assert AltersBy(p.dialect, a, TypeStatement(p.dialect, a.tableName, change));
  }

  lemma ExtraColumnDue(p: Plan, i: nat, c: string)
    requires IsPlan(p) && i < |p.ds| && p.ds[i].tableName in p.db
    requires c in p.db[p.ds[i].tableName] && c !in ColumnsOf(p.ds[i].fields)
    ensures Due(p, DropColumn(p.ds[i].tableName, c))
  {
    var a := AlterationMade(p, i);
    assert AltersBy(p.dialect, a, DropColumn(a.tableName, c));
  }

  // ----- each column afterwards -----

  lemma {:induction false} DeclaredColumns(d: Dialect, fields: seq<Field>, c: string)
    ensures c in Declared(d, fields) <==> c in ColumnsOf(fields)
  {
    if fields != [] { DeclaredColumns(d, fields[..|fields| - 1], c); }
  }

  lemma {:induction false} DeclaredType(d: Dialect, fields: seq<Field>, f: Field)
    requires DistinctColumns(fields) && Plain(fields, f)
    ensures f.dbColumn in Declared(d, fields) && Declared(d, fields)[f.dbColumn] == Reported(d, ColumnType(d, f))
  {
    var n := |fields| - 1;
    var i :| 0 <= i < |fields| && fields[i] == f;
    if i < n {
      assert fields[..n][i] == f;
      DeclaredType(d, fields[..n], f);
    }
  }

  lemma DeclaredAt(d: Dialect, fields: seq<Field>, c: string)
    requires DistinctColumns(fields)
    ensures forall f :: Plain(fields, f) && f.dbColumn == c ==>
              CellAt(Some(Declared(d, fields)), c) == Typed(Reported(d, ColumnType(d, f)))
    ensures c in Declared(d, fields) <==> c in ColumnsOf(fields)
  {
    DeclaredColumns(d, fields, c);
    forall f | Plain(fields, f) && f.dbColumn == c
      ensures CellAt(Some(Declared(d, fields)), c) == Typed(Reported(d, ColumnType(d, f))) {
      DeclaredType(d, fields, f);
    }
  }

  lemma SameIndex(p: Plan, i: nat, j: nat)
    requires DistinctTables(p.ds) && i < |p.ds| && j < |p.ds| && p.ds[i].tableName == p.ds[j].tableName
    ensures i == j
  {
  }

  lemma SameField(fields: seq<Field>, f: Field, g: Field)
    requires DistinctColumns(fields) && f in fields && g in fields && f.dbColumn == g.dbColumn
    ensures f == g
  {
    var i :| 0 <= i < |fields| && fields[i] == f;
    var j :| 0 <= j < |fields| && fields[j] == g;
  }

  function After(p: Plan): Tables {
    Run(p.dialect, p.db, p.stmts)
  }

  /** A table that did not exist. */
  lemma CreatedCell(p: Plan, i: nat, c: string)
    requires IsPlan(p) && Unfiltered(p) && i < |p.ds| && p.ds[i].tableName !in p.db
    ensures CellOf(After(p), p.ds[i].tableName, c) == CellAt(Some(Declared(p.dialect, p.ds[i].fields)), c)
  {
    var t, e := p.ds[i].tableName, CellAt(Some(Declared(p.dialect, p.ds[i].fields)), c);
    forall s | s in p.stmts ensures OnlyTo(p.dialect, s, t, c, NoTable, e) {
      AllJustified(p, s);
      if s.CreateTable? && s.doc.tableName == t {
        var j :| 0 <= j < |p.ds| && p.ds[j].tableName == t && p.ds[j].fields == s.doc.fields;
        SameIndex(p, i, j);
      }
    }
    Settles(p.dialect, p.db, p.stmts, t, c, e);
    MissingTableCreated(p, i);
    assert CellEffect(p.dialect, CreateTable(p.ds[i]), t, c, NoTable) == e;
  }

  /** Where a live column of a wanted table ends up. */
  function Settled(d: Dialect, f: Field, live: Columns): Cell {
    if f.dbColumn !in live || (d.Postgres? && Retyped(d, f, live)) then Typed(Reported(d, ColumnType(d, f)))
      else Typed(live[f.dbColumn])
  }

  lemma NotOrphan(p: Plan, i: nat)
    requires IsPlan(p) && i < |p.ds|
    ensures !Orphan(p.ts.tables, p.db, p.ds[i].tableName)
  {
    assert p.ts.tables[i].name == p.ds[i].tableName;
  }

  /** The statement leaves the field's cell, or takes it to its settled type. */
  ghost predicate Suits(p: Plan, i: nat, f: Field, s: Statement)
    requires i < |p.ds| && LiveField(p, i, f, p.ds[i].tableName)
  {
    var t := p.ds[i].tableName;
    OnlyTo(p.dialect, s, t, f.dbColumn, CellOf(p.db, t, f.dbColumn), Settled(p.dialect, f, p.db[t]))
  }

  lemma AddOrTypeSuits(p: Plan, i: nat, f: Field, s: Statement)
    requires IsPlan(p) && i < |p.ds| && LiveField(p, i, f, p.ds[i].tableName) && Due(p, s)
    requires (s.AddColumn? || s.AlterType?) && TableOf(s) == p.ds[i].tableName
    ensures Suits(p, i, f, s)
  {
    var j, g := FieldOf(p, s);
    SameIndex(p, i, j);
    if g.dbColumn == f.dbColumn { SameField(p.ds[i].fields, f, g); }
  }

  lemma DropSuits(p: Plan, i: nat, f: Field, s: Statement)
    requires IsPlan(p) && i < |p.ds| && LiveField(p, i, f, p.ds[i].tableName)
    requires s.DropColumn? && s.table == p.ds[i].tableName && Justified(p, s)
    ensures Suits(p, i, f, s)
  {
    var t, c := s.table, s.column;
    var j :| 0 <= j < |p.ds| && p.ds[j].tableName == t && t in p.db && c in p.db[t] && c !in ColumnsOf(p.ds[j].fields);
    SameIndex(p, i, j);
    ColumnsMember(p.ds[i].fields, c);
  }

  lemma WantedStatement(p: Plan, i: nat, f: Field, s: Statement)
    requires IsPlan(p) && i < |p.ds| && LiveField(p, i, f, p.ds[i].tableName) && Due(p, s)
    ensures Suits(p, i, f, s)
  {
    AllJustified(p, s);
    NotOrphan(p, i);
    if TableOf(s) == p.ds[i].tableName {
      match s {
        case CreateTable(_) =>
        case AddColumn(_, _, _, _) => AddOrTypeSuits(p, i, f, s);
        case DropColumn(_, _) => DropSuits(p, i, f, s);
        case AlterType(_, _, _) => AddOrTypeSuits(p, i, f, s);
        case TypeNote(_, _, _, _) =>
        case DropTable(_) =>
      }
    }
  }

  /** Carrying out what a column's difference calls for settles it. */
  lemma CallSettles(p: Plan, i: nat, f: Field, s: Statement)
    requires i < |p.ds| && LiveField(p, i, f, p.ds[i].tableName) && CallsFor(p, i, f, s)
    ensures var t := p.ds[i].tableName;
            CellEffect(p.dialect, s, t, f.dbColumn, CellOf(p.db, t, f.dbColumn)) == Settled(p.dialect, f, p.db[t])
  {
  }

  lemma AllSuit(p: Plan, i: nat, f: Field, t: string, c: string, e: Cell)
    requires IsPlan(p) && OnlyDue(p) && i < |p.ds| && LiveField(p, i, f, p.ds[i].tableName)
    requires t == p.ds[i].tableName && c == f.dbColumn && e == Settled(p.dialect, f, p.db[t])
    ensures forall s :: s in p.stmts ==> OnlyTo(p.dialect, s, t, c, CellOf(p.db, t, c), e)
  {
    forall s | s in p.stmts ensures OnlyTo(p.dialect, s, t, c, CellOf(p.db, t, c), e) {
      WantedStatement(p, i, f, s);
      assert Suits(p, i, f, s);
    }
  }

  lemma WantedCell(p: Plan, i: nat, f: Field)
    requires IsPlan(p) && Unfiltered(p) && i < |p.ds| && LiveField(p, i, f, p.ds[i].tableName)
    ensures CellOf(After(p), p.ds[i].tableName, f.dbColumn) == Settled(p.dialect, f, p.db[p.ds[i].tableName])
  {
    var t, c := p.ds[i].tableName, f.dbColumn;
    var e := Settled(p.dialect, f, p.db[t]);
    AllSuit(p, i, f, t, c, e);
    Settles(p.dialect, p.db, p.stmts, t, c, e);
    if ToAlter(p.dialect, t, f, p.db) {
      var a, s := StatementFor(p, i, f);
      CallSettles(p, i, f, s);
      assert Due(p, s) && s in p.stmts;
    }
  }

  lemma UnwantedStatement(p: Plan, i: nat, c: string, s: Statement)
    requires IsPlan(p) && i < |p.ds| && p.ds[i].tableName in p.db && c !in ColumnsOf(p.ds[i].fields) && Due(p, s)
    ensures OnlyTo(p.dialect, s, p.ds[i].tableName, c, CellOf(p.db, p.ds[i].tableName, c), NoColumn)
  {
    var t := p.ds[i].tableName;
    AllJustified(p, s);
    if (s.AddColumn? || s.AlterType?) && s.table == t && s.column == c {
      var j, g :| 0 <= j < |p.ds| && LiveField(p, j, g, t) && g.dbColumn == c;
      SameIndex(p, i, j);
      ColumnsMember(p.ds[i].fields, c);
    }
  }

  lemma UnwantedCell(p: Plan, i: nat, c: string)
    requires IsPlan(p) && Unfiltered(p) && i < |p.ds| && p.ds[i].tableName in p.db && c !in ColumnsOf(p.ds[i].fields)
    ensures CellOf(After(p), p.ds[i].tableName, c) == NoColumn
  {
    var t := p.ds[i].tableName;
    forall s | s in p.stmts ensures OnlyTo(p.dialect, s, t, c, CellOf(p.db, t, c), NoColumn) {
      UnwantedStatement(p, i, c, s);
    }
    Settles(p.dialect, p.db, p.stmts, t, c, NoColumn);
    if c in p.db[t] {
      ExtraColumnDue(p, i, c);
      assert CellEffect(p.dialect, DropColumn(t, c), t, c, CellOf(p.db, t, c)) == NoColumn;
    }
  }

  lemma OtherStatement(p: Plan, t: string, s: Statement)
    requires IsPlan(p) && Due(p, s) && TableOf(s) == t
    requires forall i :: 0 <= i < |p.ds| ==> p.ds[i].tableName != t
    ensures s.TypeNote? || (s == DropTable(t) && p.allow && Orphan(p.ts.tables, p.db, t))
  {
    AllJustified(p, s);
  }

  /** A table the registry does not produce: untouched, or dropped as an orphan. */
  lemma OtherTable(p: Plan, t: string, c: string)
    requires IsPlan(p) && Unfiltered(p) && forall i :: 0 <= i < |p.ds| ==> p.ds[i].tableName != t
    ensures CellOf(After(p), t, c) == if p.allow && Orphan(p.ts.tables, p.db, t) then NoTable else CellOf(p.db, t, c)
  {
    var drop := p.allow && Orphan(p.ts.tables, p.db, t);
    var e := if drop then NoTable else CellOf(p.db, t, c);
    forall s | s in p.stmts ensures OnlyTo(p.dialect, s, t, c, CellOf(p.db, t, c), e) {
      if TableOf(s) == t { OtherStatement(p, t, s); }
    }
    Settles(p.dialect, p.db, p.stmts, t, c, e);
    if drop {
      assert Due(p, DropTable(t));
      assert CellEffect(p.dialect, DropTable(t), t, c, CellOf(p.db, t, c)) == e;
    }
  }

  // ----- the second difference -----

  /** Afterwards every wanted table has exactly the wanted columns. */
  lemma WantedColumns(p: Plan, i: nat, c: string)
    requires IsPlan(p) && Unfiltered(p) && i < |p.ds|
    ensures p.ds[i].tableName in After(p)
    ensures c in After(p)[p.ds[i].tableName] <==> c in ColumnsOf(p.ds[i].fields)
  {
    var t := p.ds[i].tableName;
    ColumnsMember(p.ds[i].fields, c);
    if t !in p.db {
      CreatedCell(p, i, c);
      DeclaredAt(p.dialect, p.ds[i].fields, c);
    } else if c in ColumnsOf(p.ds[i].fields) {
      var f :| Plain(p.ds[i].fields, f) && f.dbColumn == c;
      WantedCell(p, i, f);
    } else {
      UnwantedCell(p, i, c);
    }
  }

  /** The type of a wanted column afterwards: as declared, except that SQLite keeps
      the type of a column that was there. */
  lemma WantedType(p: Plan, i: nat, f: Field)
    requires IsPlan(p) && Unfiltered(p) && i < |p.ds| && Plain(p.ds[i].fields, f)
    ensures var t := p.ds[i].tableName;
            && t in After(p) && f.dbColumn in After(p)[t]
            && (p.dialect.Postgres? ==> !Retyped(p.dialect, f, After(p)[t]))
            && (p.dialect.Sqlite? ==>
                  if t in p.db && f.dbColumn in p.db[t] then After(p)[t][f.dbColumn] == p.db[t][f.dbColumn]
                  else !Retyped(p.dialect, f, After(p)[t]))
  {
    var t := p.ds[i].tableName;
    ColumnsMember(p.ds[i].fields, f.dbColumn);
    WantedColumns(p, i, f.dbColumn);
    DeclaredReadsBack(p.dialect, f);
    if t !in p.db {
      CreatedCell(p, i, f.dbColumn);
      DeclaredAt(p.dialect, p.ds[i].fields, f.dbColumn);
    } else {
      WantedCell(p, i, f);
    }
  }

  lemma {:induction false} GatherSame<S, T>(f: S -> seq<T>, g: S -> seq<T>, columns: seq<S>)
    requires forall i :: 0 <= i < |columns| ==> f(columns[i]) == g(columns[i])
    ensures Gather(f, columns) == Gather(g, columns)
  {
    if columns != [] { GatherSame(f, g, columns[..|columns| - 1]); }
  }

  lemma {:induction false} GatherNothing<S, T>(f: S -> seq<T>, columns: seq<S>)
    requires forall i :: 0 <= i < |columns| ==> f(columns[i]) == []
    ensures Gather(f, columns) == []
  {
    if columns != [] { GatherNothing(f, columns[..|columns| - 1]); }
  }

  /** Of one wanted column, the second difference repeats what SQLite only noted. */
  lemma ColumnSettled(p: Plan, i: nat, c: string)
    requires IsPlan(p) && Unfiltered(p) && i < |p.ds| && c in ColumnsOf(p.ds[i].fields) && p.ds[i].tableName in After(p)
    ensures var t, fields := p.ds[i].tableName, p.ds[i].fields;
            && AddOf(fields, c, After(p)[t]) == []
            && AlterOf(p.dialect, fields, c, After(p)[t]) ==
                 if p.dialect.Sqlite? && t in p.db then AlterOf(p.dialect, fields, c, p.db[t]) else []
  {
    ColumnsMember(p.ds[i].fields, c);
    var f :| Plain(p.ds[i].fields, f) && f.dbColumn == c;
    FirstFound(p.ds[i].fields, f, true);
    FirstFound(p.ds[i].fields, f, false);
    WantedType(p, i, f);
  }

  /** Of one wanted table, likewise. */
  lemma TableSettled(p: Plan, i: nat)
    requires IsPlan(p) && Unfiltered(p) && i < |p.ds|
    ensures var t, fields := p.ds[i].tableName, p.ds[i].fields;
            && t in After(p)
            && Adds(fields, ColumnsOf(fields), After(p)[t]) == []
            && Alters(p.dialect, fields, ColumnsOf(fields), After(p)[t]) ==
                 (if p.dialect.Sqlite? && t in p.db then Alters(p.dialect, fields, ColumnsOf(fields), p.db[t]) else [])
            && forall c :: c in After(p)[t] ==> c in ColumnsOf(fields)
  {
    var t, fields, d := p.ds[i].tableName, p.ds[i].fields, p.dialect;
    WantedColumns(p, i, "");
    forall c ensures c in After(p)[t] <==> c in ColumnsOf(fields) {
      WantedColumns(p, i, c);
    }
    var live, columns := After(p)[t], ColumnsOf(fields);
    forall k | 0 <= k < |columns|
      ensures AddOf(fields, columns[k], live) == []
      ensures AlterOf(d, fields, columns[k], live) ==
              if d.Sqlite? && t in p.db then AlterOf(d, fields, columns[k], p.db[t]) else []
    {
      ColumnSettled(p, i, columns[k]);
    }
    GatherNothing(c => AddOf(fields, c, live), columns);
    if d.Sqlite? && t in p.db {
      GatherSame(c => AlterOf(d, fields, c, live), c => AlterOf(d, fields, c, p.db[t]), columns);
    } else {
      GatherNothing(c => AlterOf(d, fields, c, live), columns);
    }
  }

  /** The type changes of an alteration, when it has any, and nothing else of it. */
  function TypeChanges(a: Alteration): seq<Alteration> {
    if a.alterColumns == [] then [] else [Alteration(a.tableName, [], [], a.alterColumns)]
  }

  /** What the second difference repeats of an alteration. */
  function Repeated(d: Dialect, a: Alteration): seq<Alteration> {
    if d.Postgres? then [] else TypeChanges(a)
  }

  lemma NeededAgain(p: Plan, i: nat)
    requires IsPlan(p) && Unfiltered(p) && i < |p.ds| && Stale(p, i, After(p))
    ensures p.dialect.Sqlite? && Stale(p, i, p.db)
    ensures var t := p.ds[i].tableName;
            t in p.db && Alters(p.dialect, p.ds[i].fields, ColumnsOf(p.ds[i].fields), p.db[t]) != []
  {
    TableSettled(p, i);
    assert p.ts.docs[p.ds[i].tableName] == p.ds[i];
  }

  lemma NotNeededAgain(p: Plan, i: nat, a: Alteration)
    requires IsPlan(p) && Unfiltered(p) && i < |p.ds| && !Stale(p, i, After(p)) && Stale(p, i, p.db)
    requires AlterationOf(p.dialect, p.ts.docs, p.db, TargetOf(p.ds[i]), a)
    ensures Repeated(p.dialect, a) == []
  {
    TableSettled(p, i);
    assert p.ts.docs[p.ds[i].tableName] == p.ds[i];
  }

  lemma AlteredAgain(p: Plan, i: nat, a: Alteration, b: Alteration)
    requires IsPlan(p) && Unfiltered(p) && i < |p.ds| && Stale(p, i, After(p))
    requires AlterationOf(p.dialect, p.ts.docs, p.db, TargetOf(p.ds[i]), a)
    requires AlterationOf(p.dialect, p.ts.docs, After(p), TargetOf(p.ds[i]), b)
    ensures Repeated(p.dialect, a) == [b]
  {
    NeededAgain(p, i);
    TableSettled(p, i);
    assert p.ts.docs[p.ds[i].tableName] == p.ds[i];
    HasMember(b.dropColumns);
  }

  lemma TableRepeats(p: Plan, i: nat)
    requires IsPlan(p) && Unfiltered(p) && i < |p.ds|
    ensures Repeats(Needs(p.dialect, p.ts.docs, p.db), Fits(p.dialect, p.ts.docs, p.db),
            Needs(p.dialect, p.ts.docs, After(p)), Fits(p.dialect, p.ts.docs, After(p)),
                    a => Repeated(p.dialect, a), TargetOf(p.ds[i]))
  {
    var d, docs, t := p.dialect, p.ts.docs, TargetOf(p.ds[i]);
    if Needs(d, docs, After(p))(t) { NeededAgain(p, i); }
    forall a | Needs(d, docs, p.db)(t) && !Needs(d, docs, After(p))(t) && Fits(d, docs, p.db)(t, a)
      ensures Repeated(d, a) == [] {
      NotNeededAgain(p, i, a);
    }
    forall a, b | Needs(d, docs, After(p))(t) && Fits(d, docs, p.db)(t, a) && Fits(d, docs, After(p))(t, b)
      ensures Repeated(d, a) == [b] {
      AlteredAgain(p, i, a, b);
    }
  }

  lemma {:induction false} NothingToCreate(p: Plan, tables: seq<Target>)
    requires IsPlan(p) && Unfiltered(p) && tables <= p.ts.tables
    ensures forall i :: 0 <= i < |tables| ==> tables[i].name in p.ts.docs
    ensures Creates(tables, p.ts.docs, After(p)) == []
  {
    if tables != [] {
      var n := |tables| - 1;
      NothingToCreate(p, tables[..n]);
      TableSettled(p, n);
      assert tables[n] == p.ts.tables[n] == TargetOf(p.ds[n]);
    }
  }

  lemma OrphanBefore(p: Plan, t: string)
    requires IsPlan(p) && Unfiltered(p) && Orphan(p.ts.tables, After(p), t)
    ensures Orphan(p.ts.tables, p.db, t) && !p.allow
  {
    forall i | 0 <= i < |p.ds| ensures p.ds[i].tableName != t {
      assert p.ts.tables[i].name == p.ds[i].tableName;
    }
    OtherTable(p, t, "id");
    OtherTable(p, t, "deleted");
  }

  lemma NothingToDrop(p: Plan, t: string)
    requires IsPlan(p) && Unfiltered(p)
    ensures !Orphan(p.ts.tables, After(p), t)
  {
    if Orphan(p.ts.tables, After(p), t) {
      OrphanBefore(p, t);
    }
  }

  /** Migration converges: after the statements have been applied, the second
      difference is empty on PostgreSQL, and on SQLite exactly the first one's
      type changes. */
  lemma Converges(p: Plan, again: Diff)
    requires IsPlan(p) && Unfiltered(p) && IsDiff(p.dialect, p.ts, After(p), again)
    ensures p.dialect.Postgres? ==> again == Diff([], [], [])
    ensures p.dialect.Sqlite? ==> again == Diff([], Gather(TypeChanges, p.diff.alterTables), [])
  {
    NothingToCreate(p, p.ts.tables);
    forall i | 0 <= i < |p.ts.tables|
      ensures Repeats(Needs(p.dialect, p.ts.docs, p.db), Fits(p.dialect, p.ts.docs, p.db),
                      Needs(p.dialect, p.ts.docs, After(p)), Fits(p.dialect, p.ts.docs, After(p)),
                      a => Repeated(p.dialect, a), p.ts.tables[i])
    {
      TableRepeats(p, i);
    }
    MatchAgain(Needs(p.dialect, p.ts.docs, p.db), Fits(p.dialect, p.ts.docs, p.db),
               Needs(p.dialect, p.ts.docs, After(p)), Fits(p.dialect, p.ts.docs, After(p)),
               a => Repeated(p.dialect, a), p.ts.tables, p.diff.alterTables, again.alterTables);
    if p.dialect.Postgres? {
      GatherNothing(a => Repeated(p.dialect, a), p.diff.alterTables);
    } else {
      GatherSame(a => Repeated(p.dialect, a), TypeChanges, p.diff.alterTables);
    }
    forall t ensures t !in again.dropTables { NothingToDrop(p, t); }
    HasMember(again.dropTables);
  }

  // ----- from the registry and Write -----

  lemma {:induction false} ChildrenListed(docs: seq<Doc>, i: nat, c: ChildTable)
    requires i < |AllDocs(docs)| && c in AllDocs(docs)[i].children
    ensures ChildDoc(c) in AllDocs(docs)
  {
    if docs != [] {
      var n := |docs| - 1;
      var before, doc := AllDocs(docs[..n]), docs[n];
      if i < |before| {
        ChildrenListed(docs[..n], i, c);
      } else if i == |before| {
        var k :| 0 <= k < |doc.children| && doc.children[k] == c;
        assert ChildDocs(doc.children)[k] == ChildDoc(c);
      }
    }
  }

  lemma RegistryTargets(docs: seq<Doc>)
    requires DistinctNames(docs)
    ensures Registered(TargetsOf(docs), AllDocs(docs))
  {
    ListsDocs(docs);
    TargetsCovered(docs);
    forall i, c | 0 <= i < |AllDocs(docs)| && c in AllDocs(docs)[i].children ensures ChildDoc(c) in AllDocs(docs) {
      ChildrenListed(docs, i, c);
    }
  }

  /** What a successful Write promises of a difference. */
  ghost predicate Written(d: Dialect, diff: Diff, allow: bool, stmts: seq<Statement>) {
    (allow || !Destructive(diff)) && forall s :: s in stmts <==> Emitted(d, diff, allow, s)
  }

  lemma WriteWrites(d: Dialect, diff: Diff, allow: bool)
    requires allow || !Destructive(diff)
    ensures Written(d, diff, allow, FileOf(d, diff, allow))
  {
    forall s ensures s in FileOf(d, diff, allow) <==> Emitted(d, diff, allow, s) {
      FileHolds(d, diff, allow, s);
    }
  }

  /** The text filter takes out nothing but comments. */
  ghost predicate FilterHarmless(d: Dialect, diff: Diff, allow: bool) {
    forall a, s :: a in diff.alterTables && AltersBy(d, a, s) && !s.TypeNote? ==> allow || !LooksDestructive(d, s)
  }

  lemma WrittenIsDue(p: Plan)
    requires Written(p.dialect, p.diff, p.allow, p.stmts)
    ensures OnlyDue(p)
    ensures FilterHarmless(p.dialect, p.diff, p.allow) ==> Unfiltered(p)
  {
    forall s | s in p.stmts ensures Due(p, s) {}
  }

  lemma FilteredOut(p: Plan) returns (a: Alteration, s: Statement)
    requires Written(p.dialect, p.diff, p.allow, p.stmts) && !FilterHarmless(p.dialect, p.diff, p.allow)
    ensures !p.allow && a in p.diff.alterTables && AltersBy(p.dialect, a, s) && !s.TypeNote? && s !in p.stmts
  {
    a, s :| a in p.diff.alterTables && AltersBy(p.dialect, a, s) && !s.TypeNote? && !p.allow &&
      LooksDestructive(p.dialect, s);
  }

  function Expected(d: Dialect, diff: Diff): Diff {
    if d.Postgres? then Diff([], [], []) else Diff([], Gather(TypeChanges, diff.alterTables), [])
  }

  /** The wanted column is missing from a live table, or has another type there
      that PostgreSQL can change. */
  predicate ToAlter(d: Dialect, table: string, f: Field, db: Tables) {
    table in db && (f.dbColumn !in db[table] || (d.Postgres? && Retyped(d, f, db[table])))
  }

  /** Neither the column's name nor its table's says DROP COLUMN in any case. */
  predicate ClearName(table: string, f: Field) {
    !SaysDropColumn(table) && !SaysDropColumn(f.dbColumn)
  }

  /** So wherever a column is to be altered. */
  ghost predicate NamesClear(d: Dialect, ds: seq<Doc>, db: Tables) {
    forall i, f :: 0 <= i < |ds| && Plain(ds[i].fields, f) && ToAlter(d, ds[i].tableName, f, db) ==>
        ClearName(ds[i].tableName, f)
  }

  lemma LooksByName(p: Plan, i: nat, f: Field, s: Statement)
    requires i < |p.ds| && LiveField(p, i, f, p.ds[i].tableName) && CallsFor(p, i, f, s)
    ensures LooksDestructive(p.dialect, s) <==> !ClearName(p.ds[i].tableName, f)
  {
    if s.AddColumn? {
      AdditionSays(p.dialect, p.ds[i].tableName, f);
    } else {
      TypeChangeSays(p.dialect, p.ds[i].tableName, f);
    }
  }

  /** Every column to alter has its statement. */
  lemma StatementFor(p: Plan, i: nat, f: Field) returns (a: Alteration, s: Statement)
    requires IsPlan(p) && i < |p.ds| && Plain(p.ds[i].fields, f) && ToAlter(p.dialect, p.ds[i].tableName, f, p.db)
    ensures LiveField(p, i, f, p.ds[i].tableName) && CallsFor(p, i, f, s)
    ensures a in p.diff.alterTables && AltersBy(p.dialect, a, s) && !s.TypeNote?
  {
    var t := p.ds[i].tableName;
    if f.dbColumn !in p.db[t] {
      MissingColumnDue(p, i, f);
      s := AddStatement(p.dialect, t, f);
    } else {
      WrongTypeDue(p, i, f);
      s := TypeStatement(p.dialect, t, ChangeOf(p.dialect, f, p.db[t]));
    }
    a :| a in p.diff.alterTables && AltersBy(p.dialect, a, s);
  }

  lemma LooksOnlyByName(p: Plan, a: Alteration, s: Statement)
    requires IsPlan(p) && !p.allow && NamesClear(p.dialect, p.ds, p.db)
    requires a in p.diff.alterTables && AltersBy(p.dialect, a, s) && !s.TypeNote?
    ensures !LooksDestructive(p.dialect, s)
  {
    assert Due(p, s);
    assert !s.DropColumn?;
    var i, f := FieldOf(p, s);
    LooksByName(p, i, f, s);
  }

  lemma HarmlessExactly(p: Plan)
    requires IsPlan(p)
    ensures FilterHarmless(p.dialect, p.diff, p.allow) <==> p.allow || NamesClear(p.dialect, p.ds, p.db)
  {
    if !p.allow && NamesClear(p.dialect, p.ds, p.db) {
      forall a, s | a in p.diff.alterTables && AltersBy(p.dialect, a, s) && !s.TypeNote?
        ensures !LooksDestructive(p.dialect, s) {
        LooksOnlyByName(p, a, s);
      }
    }
    if !p.allow && !NamesClear(p.dialect, p.ds, p.db) {
      var i, f :| 0 <= i < |p.ds| && Plain(p.ds[i].fields, f) && ToAlter(p.dialect, p.ds[i].tableName, f, p.db)
                  && !ClearName(p.ds[i].tableName, f);
      var a, s := StatementFor(p, i, f);
      LooksByName(p, i, f, s);
    }
  }

  /** Diff, Write, apply, Diff: with distinct names the second difference is empty
      on PostgreSQL and the first one's type changes on SQLite, exactly when
      destruction is allowed or no column to alter, nor its table, has a name that
      says DROP COLUMN. */
  lemma MigrationConverges(d: Dialect, docs: seq<Doc>, db: Tables, diff: Diff, allow: bool,
      stmts: seq<Statement>, again: Diff)
    requires DistinctNames(docs) && Covers(TargetsOf(docs))
    requires IsDiff(d, TargetsOf(docs), db, diff) && Written(d, diff, allow, stmts)
    requires IsDiff(d, TargetsOf(docs), Run(d, db, stmts), again)
    ensures again == Expected(d, diff) <==> allow || NamesClear(d, AllDocs(docs), db)
  {
    var p := Plan(d, AllDocs(docs), TargetsOf(docs), db, diff, allow, stmts);
    RegistryTargets(docs);
    WrittenIsDue(p);
    HarmlessExactly(p);
    if FilterHarmless(d, diff, allow) {
      Converges(p, again);
    } else {
      var a, s := FilteredOut(p);
      FilteredStays(p, a, s, again);
    }
  }

  /** Where a name says DROP COLUMN the column stays as it is, missing or of the
      old type, when the migration has been applied. */
  lemma NeverAltered(d: Dialect, docs: seq<Doc>, db: Tables, diff: Diff, stmts: seq<Statement>, i: nat, f: Field)
    requires DistinctNames(docs) && Covers(TargetsOf(docs))
    requires IsDiff(d, TargetsOf(docs), db, diff) && Written(d, diff, false, stmts)
    requires i < |AllDocs(docs)| && Plain(AllDocs(docs)[i].fields, f)
    requires var t := AllDocs(docs)[i].tableName; ToAlter(d, t, f, db) && !ClearName(t, f)
    ensures var t := AllDocs(docs)[i].tableName; CellOf(Run(d, db, stmts), t, f.dbColumn) == CellOf(db, t, f.dbColumn)
  {
    var p := Plan(d, AllDocs(docs), TargetsOf(docs), db, diff, false, stmts);
    RegistryTargets(docs);
    WrittenIsDue(p);
    var a, s := StatementFor(p, i, f);
    LooksByName(p, i, f, s);
    CellStays(p, i, f, s);
  }

  /** A DocType named "drop column item" has such a table: no missing column is ever
      added to it. */
  lemma NamedLikeADrop(d: Dialect, doc: Doc, db: Tables, diff: Diff, stmts: seq<Statement>, f: Field)
    requires doc.tableName == "drop column items" && DistinctNames([doc]) && Plain(doc.fields, f)
    requires doc.tableName in db && f.dbColumn !in db[doc.tableName]
    requires Covers(TargetsOf([doc])) && IsDiff(d, TargetsOf([doc]), db, diff) && Written(d, diff, false, stmts)
    ensures var after := Run(d, db, stmts); doc.tableName in after && f.dbColumn !in after[doc.tableName]
  {
    FirstOfAll(doc);
    SaysItself(doc.tableName);
    NeverAltered(d, [doc], db, diff, stmts, 0, f);
  }

  lemma FirstOfAll(doc: Doc)
    ensures AllDocs([doc]) != [] && AllDocs([doc])[0] == doc
  {
    assert [doc][..0] == [] && AllDocs([doc]) == [doc] + ChildDocs(doc.children);
  }

  /** The statement that a wanted column's difference calls for. */
  ghost predicate CallsFor(p: Plan, i: nat, f: Field, s: Statement)
    requires i < |p.ds| && LiveField(p, i, f, p.ds[i].tableName)
  {
    var t := p.ds[i].tableName;
    || (s == AddStatement(p.dialect, t, f) && f.dbColumn !in p.db[t])
    || (s == AlterType(t, f.dbColumn, ColumnType(p.dialect, f)) && p.dialect.Postgres? &&
         Retyped(p.dialect, f, p.db[t]))
  }

  lemma FieldOf(p: Plan, s: Statement) returns (i: nat, f: Field)
    requires IsPlan(p) && Due(p, s) && (s.AddColumn? || s.AlterType?)
    ensures i < |p.ds| && p.ds[i].tableName == TableOf(s) && LiveField(p, i, f, TableOf(s)) && CallsFor(p, i, f, s)
  {
    AllJustified(p, s);
    if s.AddColumn? {
      i, f :| 0 <= i < |p.ds| && LiveField(p, i, f, s.table) && f.dbColumn == s.column && s.column !in p.db[s.table] &&
        s.ddl == ColumnType(p.dialect, f) && s.required == f.required;
    } else {
      i, f :| 0 <= i < |p.ds| && LiveField(p, i, f, s.table) && f.dbColumn == s.column &&
        Retyped(p.dialect, f, p.db[s.table]) && s.ddl == ColumnType(p.dialect, f);
    }
  }

  lemma UntouchedBy(p: Plan, i: nat, f: Field, s: Statement, x: Statement)
    requires IsPlan(p) && !p.allow && i < |p.ds| && LiveField(p, i, f, p.ds[i].tableName) && CallsFor(p, i, f, s)
    requires Due(p, x) && x != s
    ensures CellEffect(p.dialect, x, p.ds[i].tableName, f.dbColumn, CellOf(p.db, p.ds[i].tableName, f.dbColumn)) ==
            CellOf(p.db, p.ds[i].tableName, f.dbColumn)
  {
    var t := p.ds[i].tableName;
    if TableOf(x) == t && (x.AddColumn? || x.AlterType?) && x.column == f.dbColumn {
      var j, g := FieldOf(p, x);
      SameIndex(p, i, j);
    } else {
      AllJustified(p, x);
    }
  }

  /** A column whose only statement is not in the file stays as it is. */
  lemma CellStays(p: Plan, i: nat, f: Field, s: Statement)
    requires IsPlan(p) && OnlyDue(p) && !p.allow && s !in p.stmts
    requires i < |p.ds| && LiveField(p, i, f, p.ds[i].tableName) && CallsFor(p, i, f, s)
    ensures var t := p.ds[i].tableName; CellOf(After(p), t, f.dbColumn) == CellOf(p.db, t, f.dbColumn)
  {
    var t, c := p.ds[i].tableName, f.dbColumn;
    forall x | x in p.stmts ensures OnlyTo(p.dialect, x, t, c, CellOf(p.db, t, c), CellOf(p.db, t, c)) {
      UntouchedBy(p, i, f, s, x);
    }
    Settles(p.dialect, p.db, p.stmts, t, c, CellOf(p.db, t, c));
  }

  /** It is in the second difference as it was in the first. */
  lemma FilteredStays(p: Plan, a: Alteration, s: Statement, again: Diff)
    requires IsPlan(p) && OnlyDue(p) && !p.allow && IsDiff(p.dialect, p.ts, After(p), again)
    requires a in p.diff.alterTables && AltersBy(p.dialect, a, s) && !s.TypeNote? && s !in p.stmts
    ensures again != Expected(p.dialect, p.diff)
  {
    assert Due(p, s);
    AllJustified(p, s);
    var i, f := FieldOf(p, s);
    CellStays(p, i, f, s);
    StillCalledFor(p, i, f, s, again);
  }

  lemma StillCalledFor(p: Plan, i: nat, f: Field, s: Statement, again: Diff)
    requires IsPlan(p) && IsDiff(p.dialect, p.ts, After(p), again)
    requires i < |p.ds| && LiveField(p, i, f, p.ds[i].tableName) && CallsFor(p, i, f, s)
    requires CellOf(After(p), p.ds[i].tableName, f.dbColumn) == CellOf(p.db, p.ds[i].tableName, f.dbColumn)
    ensures again != Expected(p.dialect, p.diff)
  {
    var t := p.ds[i].tableName;
    var q := p.(db := After(p), diff := again, allow := true);
    if f.dbColumn !in p.db[t] {
      AddedField(p.ds[i], After(p)[t], f);
      var b := AlterationMade(q, i);
      NoAdditionExpected(p.dialect, p.diff, b);
    } else {
      AlteredField(p.dialect, p.ds[i], After(p)[t], ChangeOf(p.dialect, f, After(p)[t]));
      var b := AlterationMade(q, i);
    }
  }

  lemma NoAdditionExpected(d: Dialect, diff: Diff, b: Alteration)
    ensures b in Expected(d, diff).alterTables ==> b.addColumns == []
  {
    if d.Sqlite? && b in Gather(TypeChanges, diff.alterTables) {
      GatherMember(TypeChanges, diff.alterTables, b);
    }
  }

  // ----- what is never lost -----

  /** Without --allow-destructive a migration that Write accepts removes no live
      table and no live column. */
  lemma {:induction false} NothingLost(d: Dialect, db: Tables, stmts: seq<Statement>, t: string)
    requires forall s :: s in stmts ==> !s.DropTable? && !s.DropColumn?
    requires t in db
    ensures t in Run(d, db, stmts) && db[t].Keys <= Run(d, db, stmts)[t].Keys
  {
    if stmts != [] {
      NothingLost(d, db, stmts[..|stmts| - 1], t);
      assert stmts[|stmts| - 1] in stmts;
    }
  }

  lemma SafeWithoutDestructive(d: Dialect, ts: Targets, db: Tables, diff: Diff, stmts: seq<Statement>, t: string)
    requires Covers(ts) && IsDiff(d, ts, db, diff) && !Destructive(diff)
    requires forall s :: s in stmts <==> Emitted(d, diff, false, s)
    requires t in db
    ensures t in Run(d, db, stmts) && db[t].Keys <= Run(d, db, stmts)[t].Keys
  {
    NothingLost(d, db, stmts, t);
  }

  lemma {:induction false} TableKept(d: Dialect, db: Tables, stmts: seq<Statement>, t: string)
    requires DropTable(t) !in stmts && t in db
    ensures t in Run(d, db, stmts)
  {
    if stmts != [] {
      TableKept(d, db, stmts[..|stmts| - 1], t);
      assert stmts[|stmts| - 1] in stmts;
    }
  }

  /** Whatever is allowed, a live table that lacks id or deleted is never dropped. */
  lemma UnownedTableKept(d: Dialect, ts: Targets, db: Tables, diff: Diff, allow: bool, stmts: seq<Statement>, t: string)
    requires Covers(ts) && IsDiff(d, ts, db, diff)
    requires forall s :: s in stmts <==> Emitted(d, diff, allow, s)
    requires t in db && ("id" !in db[t] || "deleted" !in db[t])
    ensures t in Run(d, db, stmts)
  {
    assert DropTable(t) !in stmts;
    TableKept(d, db, stmts, t);
  }
}
