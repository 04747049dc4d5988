/** Query of both database types (dal/dialect/sqlite/db.go and
    dal/dialect/postgres/db.go): names resolved to columns, the "q" filter turned
    into an id restriction, and the rendered Select run. Which ids a full-text
    search matches is given. */
module Query {
  import opened Wrappers
  import opened Strings
  import opened SchemaTypes
  import opened Dialects
  import opened SelectSql
  import opened Values
  import opened Migrator

  datatype Error = NotFound | SearchFailed | QueryFailed

  type Search = (string, string, seq<string>) -> seq<string>

  predicate Names(f: Field, name: string) {
    f.name == name || f.dbColumn == name
  }

  function Resolve(fields: seq<Field>, name: string): string {
    if fields == [] then name else if Names(fields[0], name) then fields[0].dbColumn else Resolve(fields[1..], name)
  }

  /** A name, Go's or the column's, reaches the column of the first field that has
      it; any other name stays as it is. */
  lemma {:induction false} NameReaches(fields: seq<Field>, name: string, i: nat)
    requires i <= |fields| && forall j :: 0 <= j < i ==> fields[j].name != name && fields[j].dbColumn != name
    ensures i < |fields| && (fields[i].name == name || fields[i].dbColumn == name) ==>
              Resolve(fields, name) == fields[i].dbColumn
    ensures i == |fields| ==> Resolve(fields, name) == name
  {
    if i > 0 {
      assert !Names(fields[0], name);
      NameReaches(fields[1..], name, i - 1);
    }
  }

  method ResolveField(doc: Doc, name: string) returns (column: string)
    ensures column == Resolve(doc.fields, name)
  {
    for i := 0 to |doc.fields|
      invariant Resolve(doc.fields, name) == Resolve(doc.fields[i..], name)
    {
      if Names(doc.fields[i], name) {
        return doc.fields[i].dbColumn;
      }
      assert doc.fields[i..][1..] == doc.fields[i + 1..];
    }
    return name;
  }

  /** The filters under their column names. Of two filters on one column the map's
      order decides which is kept. */
  ghost predicate Resolved(doc: Doc, filters: map<string, Value>, res: map<string, Value>) {
    && (forall k :: k in filters ==> Resolve(doc.fields, k) in res)
    && forall c :: c in res ==> exists k :: k in filters && Resolve(doc.fields, k) == c && res[c] == filters[k]
  }

  method ResolveFilters(doc: Doc, filters: map<string, Value>) returns (res: map<string, Value>)
    ensures Resolved(doc, filters, res)
  {
    res := map[];
    var todo := filters.Keys;
    while todo != {}
      invariant todo <= filters.Keys
      invariant forall k :: k in filters && k !in todo ==> Resolve(doc.fields, k) in res
      invariant forall c :: c in res ==> exists k :: k in filters && Resolve(doc.fields, k) == c && res[c] == filters[k]
      decreases todo
    {
      var k :| k in todo;
      var column := ResolveField(doc, k);
      res := res[column := filters[k]];
      todo := todo - {k};
    }
  }

  function Searchable(fields: seq<Field>): seq<string> {
    if fields == [] then [] else
    var f := fields[|fields| - 1];
    Searchable(fields[..|fields| - 1]) + (if f.searchable && f.fieldType != ChildTableField then [f.dbColumn] else [])
  }

  method SearchableFields(doc: Doc) returns (columns: seq<string>)
    ensures columns == Searchable(doc.fields)
  {
    columns := [];
    for i := 0 to |doc.fields|
      invariant columns == Searchable(doc.fields[..i])
    {
      assert doc.fields[..i + 1][..i] == doc.fields[..i];
      if doc.fields[i].searchable && doc.fields[i].fieldType != ChildTableField {
        columns := columns + [doc.fields[i].dbColumn];
      }
    }
    assert doc.fields[..|doc.fields|] == doc.fields;
  }

  /** Exactly the searchable columns of the document. */
  lemma {:induction false} SearchableColumns(fields: seq<Field>, column: string)
    ensures column in Searchable(fields) <==>
            exists f :: f in fields && f.searchable && f.fieldType != ChildTableField && f.dbColumn == column
  {
    if fields != [] {
      var n := |fields| - 1;
      assert fields == fields[..n] + [fields[n]];
      SearchableColumns(fields[..n], column);
    }
  }

  /** FullTextSearch run against the database: without fields PostgreSQL renders
      WHERE FALSE. */
  function Found(d: Dialect, search: Search, doc: Doc, text: string): seq<string> {
    if d.Postgres? && Searchable(doc.fields) == [] then [] else search(doc.tableName, text, Searchable(doc.fields))
  }

  /** The ids a consumed "q" filter restricts a query to; the ids already in the
      Select when there is nothing to search for. */
  function SearchIds(d: Dialect, search: Search, doc: Doc, text: string, preset: seq<string>): seq<string> {
    if TrimSpace(text) == "" || (d.Sqlite? && Searchable(doc.fields) == []) then preset
    else Found(d, search, doc, text)
  }

  /** The rows to keep, in their order. */
  function Selected(rows: seq<Row>, keep: Row -> bool): seq<Row> {
    if rows == [] then [] else
    Selected(rows[..|rows| - 1], keep) + (if keep(rows[|rows| - 1]) then [rows[|rows| - 1]] else [])
  }

  /** The answer to a query on a document: not deleted unless included, every filter
      but "q" equal, and with a "q" filter the id among those found. */
  predicate Answers(d: Dialect, search: Search, doc: Doc, q: Select, filters: map<string, Value>, row: Row) {
    && (!q.includeDeleted ==> SqlEquals(row, "deleted", Bool(false)))
    && (forall k :: k in filters && k != "q" ==> SqlEquals(row, k, filters[k]))
    && (if "q" in filters then HasIdIn(row, SearchIds(d, search, doc, Sprint(filters["q"]), q.ids))
        else q.ids != [] ==> HasIdIn(row, q.ids))
  }

  lemma OtherFilters(filters: map<string, Value>, row: Row)
    ensures (forall k :: k in filters && k != "q" ==> SqlEquals(row, k, filters[k]))
            <==> forall k :: k in filters - {"q"} ==> SqlEquals(row, k, (filters - {"q"})[k])
  {
    var rest := filters - {"q"};
    assert forall k :: k in rest <==> k in filters && k != "q";
    assert forall k :: k in rest ==> rest[k] == filters[k];
  }

  /** Running the Select that is left of a search gives the answer. */
  lemma SearchLeft(d: Dialect, search: Search, doc: Doc, q: Select, filters: map<string, Value>,
      ids: seq<string>, row: Row)
    requires "q" in filters && ids != [] && ids == SearchIds(d, search, doc, Sprint(filters["q"]), q.ids)
    ensures Wanted(q.(filters := filters - {"q"}, ids := ids), row) <==> Answers(d, search, doc, q, filters, row)
  {
    OtherFilters(filters, row);
  }

  // ----- what a query answers -----

  /** What a database holds and knows. Only the SQLite type keeps childDocTypes. */
  datatype World = World(
    search: Search,
    compiledDocs: map<string, Doc>,
    tableNames: map<string, string>,
    childDocTypes: set<string>,
    tables: map<string, seq<Row>>)

  /** The table a query reads; None when the document type has none. */
  function TableFor(w: World, q: Select): Option<string> {
    if q.tableName != "" then Some(q.tableName)
    else if q.docType in w.compiledDocs then Some(w.compiledDocs[q.docType].tableName)
    else if q.docType in w.tableNames then Some(w.tableNames[q.docType])
    else None
  }

  function RowsFor(w: World, q: Select): seq<Row> {
    if TableFor(w, q).Some? && TableFor(w, q).value in w.tables then w.tables[TableFor(w, q).value] else []
  }

  /** A child table is queried under its own type: SQLite leaves the deleted
      condition out. */
  predicate ChildQuery(w: World, q: Select) {
    q.docType !in w.compiledDocs && q.tableName == "" && q.docType in w.childDocTypes
  }

  /** The row answers the query. */
  predicate Keeps(d: Dialect, w: World, q: Select, filters: map<string, Value>, row: Row) {
    if q.docType in w.compiledDocs then Answers(d, w.search, w.compiledDocs[q.docType], q, filters, row)
    else Wanted(q.(includeDeleted := q.includeDeleted || (d.Sqlite? && ChildQuery(w, q))), row)
  }

  /** The rows of the table that answer the query, in the table's order. */
  function Reply(d: Dialect, w: World, q: Select, filters: map<string, Value>): seq<Row> {
    Selected(RowsFor(w, q), row => Keeps(d, w, q, filters, row))
  }

  /** The filters under their column names, for a compiled document. */
  ghost predicate FiltersOf(w: World, q: Select, filters: map<string, Value>) {
    q.docType in w.compiledDocs ==> Resolved(w.compiledDocs[q.docType], q.filters, filters)
  }

  class Database {
    const dialect: Dialect
    const search: Search
    var compiledDocs: map<string, Doc>
    var tableNames: map<string, string>
    var childDocTypes: set<string>  // kept by the SQLite type only
    var tables: map<string, seq<Row>>

    constructor (dialect: Dialect, search: Search)
      ensures this.dialect == dialect && this.search == search && tables == map[]
    {
      this.dialect, this.search := dialect, search;
      compiledDocs, tableNames, childDocTypes, tables := map[], map[], {}, map[];
    }

    /** resolveSearchFilter: whether a "q" filter was consumed, and the Select to run. */
    method ResolveSearchFilter(doc: Doc, q: Select) returns (r: Result<(Select, bool), Error>)
      ensures r.Ok? ==> r.value.1 == ("q" in q.filters)
      ensures r.Ok? && !r.value.1 ==> r.value.0 == q
      ensures r.Ok? && r.value.1 ==>
                r.value.0 == q.(filters := q.filters - {"q"},
                  ids := SearchIds(dialect, search, doc, Sprint(q.filters["q"]), q.ids))
      ensures r.Err? ==> r.error == SearchFailed
    {
      if "q" !in q.filters {
        return Ok((q, false));
      }
      var rest := q.(filters := q.filters - {"q"});
      var text := Sprint(q.filters["q"]);
      var fields := SearchableFields(doc);
      if TrimSpace(text) == "" || (dialect.Sqlite? && |fields| == 0) {
        return Ok((rest, true));
      }
      var failed: bool := *;
      if failed {
        return Err(SearchFailed);
      }
      return Ok((rest.(ids := Found(dialect, search, doc, text)), true));
    }

    /** SelectSQL and the statement run against a table. */
    method RunSelect(q: Select) returns (r: Result<seq<Row>, Error>)
      ensures r.Ok? ==> q.tableName in tables && r.value == Selected(tables[q.tableName], row => Wanted(q, row))
      ensures r.Err? ==> r.error == QueryFailed
    {
      var conditions, args;
      if dialect.Postgres? {
        conditions, args := PostgresWhere(q);
      } else {
        conditions, args := SqliteWhere(q);
      }
      var failed: bool := *;
      if failed || q.tableName !in tables {
        return Err(QueryFailed);
      }
      var rows, all := [], tables[q.tableName];
      for i := 0 to |all|
        invariant rows == Selected(all[..i], row => Wanted(q, row))
      {
        assert all[..i + 1][..i] == all[..i];
        if Denotes(conditions, args, all[i]) {
          rows := rows + [all[i]];
        }
      }
      assert all[..|all|] == all;
      r := Ok(rows);
    }

    function Contents(): World
      reads this
    {
      World(search, compiledDocs, tableNames, childDocTypes, tables)
    }

    /** The rows are the reply under some column names for the filters. */
    ghost predicate IsReply(q: Select, rows: seq<Row>)
      reads this
    {
      exists filters :: FiltersOf(Contents(), q, filters) && rows == Reply(dialect, Contents(), q, filters)
    }

    /** Query on a compiled document. */
    method QueryDoc(doc: Doc, q: Select) returns (r: Result<seq<Row>, Error>)
      requires q.docType in compiledDocs && compiledDocs[q.docType] == doc
      ensures r.Ok? ==> IsReply(q, r.value)
      ensures r.Err? ==> r.error == SearchFailed || r.error == QueryFailed
    {
      ghost var d, w := dialect, Contents();
      var filters := ResolveFilters(doc, q.filters);
      var q1 := q.(tableName := if q.tableName == "" then doc.tableName else q.tableName, filters := filters);
      var s := ResolveSearchFilter(doc, q1);
      if s.Err? {
        return Err(s.error);
      }
      var (q2, searchApplied) := s.value;
      if searchApplied && |q2.ids| == 0 {
        NoReply(d, w, q, filters);
        return Ok([]);
      }
      r := RunSelect(q2);
      if r.Ok? {
        forall row ensures Wanted(q2, row) <==> Keeps(d, w, q, filters, row) {
          if searchApplied { SearchLeft(dialect, search, doc, q, filters, q2.ids, row); }
        }
        assert RowsFor(w, q) == tables[q2.tableName];
        SelectedReply(d, w, q, filters, q2);
      }
    }

    /** Query. A document type known only by its table is queried as it stands,
        except that SQLite drops the deleted condition for child tables. */
    method Query(q: Select) returns (r: Result<seq<Row>, Error>)
      ensures r.Ok? ==> TableFor(Contents(), q).Some? && IsReply(q, r.value)
      ensures r.Ok? && q.docType !in compiledDocs ==> TableFor(Contents(), q).value in tables
      ensures r.Err? && r.error == NotFound <==> TableFor(Contents(), q).None?
    {
      ghost var d, w := dialect, Contents();
      if q.docType in compiledDocs {
        r := QueryDoc(compiledDocs[q.docType], q);
        return;
      }
      var q1 := q;
      if q.tableName == "" {
        if q.docType !in tableNames {
          return Err(NotFound);
        }
        q1 := q.(tableName := tableNames[q.docType]);
        if dialect.Sqlite? && q.docType in childDocTypes {
          q1 := q1.(includeDeleted := true);
        }
      }
      r := RunSelect(q1);
      if r.Ok? {
        assert FiltersOf(w, q, q.filters);
        SelectedReply(d, w, q, q.filters, q1);
      }
    }
  }

  lemma {:induction false} NoneKept(rows: seq<Row>, keep: Row -> bool)
    requires forall row :: !keep(row)
    ensures Selected(rows, keep) == []
  {
    if rows != [] { NoneKept(rows[..|rows| - 1], keep); }
  }

  lemma NoReply(d: Dialect, w: World, q: Select, filters: map<string, Value>)
    requires forall row :: !Keeps(d, w, q, filters, row)
    ensures Reply(d, w, q, filters) == []
  {
    NoneKept(RowsFor(w, q), row => Keeps(d, w, q, filters, row));
  }

  lemma {:induction false} SameRows(rows: seq<Row>, f: Row -> bool, g: Row -> bool)
    requires forall row :: f(row) == g(row)
    ensures Selected(rows, f) == Selected(rows, g)
  {
    if rows != [] { SameRows(rows[..|rows| - 1], f, g); }
  }

  /** Running a Select that keeps the same rows gives the reply. */
  lemma SelectedReply(d: Dialect, w: World, q: Select, filters: map<string, Value>, run: Select)
    requires forall row :: Wanted(run, row) <==> Keeps(d, w, q, filters, row)
    ensures Selected(RowsFor(w, q), row => Wanted(run, row)) == Reply(d, w, q, filters)
  {
    SameRows(RowsFor(w, q), row => Wanted(run, row), row => Keeps(d, w, q, filters, row));
  }

  lemma {:induction false} SelectedMember(rows: seq<Row>, keep: Row -> bool, row: Row)
    ensures row in Selected(rows, keep) <==> row in rows && keep(row)
  {
    if rows != [] {
      var n := |rows| - 1;
      SelectedMember(rows[..n], keep, row);
      assert rows == rows[..n] + [rows[n]];
    }
  }

  /** Which rows a reply holds. */
  lemma ReplyMember(d: Dialect, w: World, q: Select, filters: map<string, Value>, row: Row)
    ensures row in Reply(d, w, q, filters) <==> row in RowsFor(w, q) && Keeps(d, w, q, filters, row)
  {
    SelectedMember(RowsFor(w, q), r => Keeps(d, w, q, filters, r), row);
  }

  /** With a search text a reply holds exactly the rows that meet the other filters
      and whose id was found; none when nothing was found, although an empty id list
      means no restriction to SelectSQL. */
  lemma SearchedRows(d: Dialect, w: World, q: Select, filters: map<string, Value>, row: Row)
    requires q.docType in w.compiledDocs && "q" in filters && TrimSpace(Sprint(filters["q"])) != ""
    requires d.Sqlite? ==> Searchable(w.compiledDocs[q.docType].fields) != []
    ensures var found := Found(d, w.search, w.compiledDocs[q.docType], Sprint(filters["q"]));
            && (row in Reply(d, w, q, filters) <==>
                  row in RowsFor(w, q) && Wanted(q.(filters := filters - {"q"}, ids := []), row) && HasIdIn(row, found))
            && (found == [] ==> Reply(d, w, q, filters) == [])
  {
    ReplyMember(d, w, q, filters, row);
    OtherFilters(filters, row);
    if Found(d, w.search, w.compiledDocs[q.docType], Sprint(filters["q"])) == [] {
      NoReply(d, w, q, filters);
    }
  }

  /** A blank search text restricts the query to the ids it came with: to no row at
      all when it came with none. */
  lemma BlankSearch(d: Dialect, w: World, q: Select, filters: map<string, Value>, row: Row)
    requires q.docType in w.compiledDocs && "q" in filters && TrimSpace(Sprint(filters["q"])) == ""
    ensures q.ids == [] ==> Reply(d, w, q, filters) == []
    ensures q.ids != [] ==>
              (row in Reply(d, w, q, filters) <==> row in RowsFor(w, q) && Wanted(q.(filters := filters - {"q"}), row))
  {
    ReplyMember(d, w, q, filters, row);
    OtherFilters(filters, row);
    if q.ids == [] { NoReply(d, w, q, filters); }
  }

  // ----- where the two database types differ -----

  /** The two database types give one answer, for every row and search result,
      exactly when there is something to search, nothing to search for, or no id
      list in the Select: without searchable fields SQLite keeps the id list and
      PostgreSQL finds nothing. */
  lemma TwinsAgree(doc: Doc, text: string, preset: seq<string>)
    ensures (forall search: Search ::
            SearchIds(Sqlite, search, doc, text, preset) == SearchIds(Postgres, search, doc, text, preset))
            <==> Searchable(doc.fields) != [] || TrimSpace(text) == "" || preset == []
  {
    var none: Search := (_, _, _) => [];
    if Searchable(doc.fields) == [] && TrimSpace(text) != "" && preset != [] {
      assert SearchIds(Sqlite, none, doc, text, preset) != SearchIds(Postgres, none, doc, text, preset);
    }
  }

  /** Two selections from one table are equal exactly when they agree on its rows. */
  lemma {:induction false} SelectedEqual(rows: seq<Row>, f: Row -> bool, g: Row -> bool)
    ensures Selected(rows, f) == Selected(rows, g) <==> forall row :: row in rows ==> f(row) == g(row)
  {
    if Selected(rows, f) == Selected(rows, g) {
      forall row | row in rows ensures f(row) == g(row) {
        SelectedMember(rows, f, row);
        SelectedMember(rows, g, row);
      }
    }
    if forall row :: row in rows ==> f(row) == g(row) { SelectedAlike(rows, f, g); }
  }

  lemma {:induction false} SelectedAlike(rows: seq<Row>, f: Row -> bool, g: Row -> bool)
    requires forall row :: row in rows ==> f(row) == g(row)
    ensures Selected(rows, f) == Selected(rows, g)
  {
    if rows != [] {
      var n := |rows| - 1;
      assert rows == rows[..n] + [rows[n]];
      SelectedAlike(rows[..n], f, g);
    }
  }

  /** A search over a document without searchable fields. */
  predicate FieldlessSearch(w: World, q: Select, filters: map<string, Value>) {
    && q.docType in w.compiledDocs && Searchable(w.compiledDocs[q.docType].fields) == []
    && "q" in filters && TrimSpace(Sprint(filters["q"])) != ""
  }

  /** The rows that only SQLite returns: on a search without searchable fields those
      of the ids that the Select came with, and on a child table those that are
      deleted or have no deleted column, unless they were asked for. */
  predicate OnlySqlite(w: World, q: Select, filters: map<string, Value>, row: Row) {
    if FieldlessSearch(w, q, filters) then
      Wanted(q.(filters := filters - {"q"}, ids := []), row) && HasIdIn(row, q.ids)
    else
      && ChildQuery(w, q) && !q.includeDeleted
      && Wanted(q.(includeDeleted := true), row) && !SqlEquals(row, "deleted", Bool(false))
  }

  lemma KeptByOne(w: World, q: Select, filters: map<string, Value>, row: Row)
    ensures OnlySqlite(w, q, filters, row) <==>
              Keeps(Sqlite, w, q, filters, row) && !Keeps(Postgres, w, q, filters, row)
    ensures Keeps(Postgres, w, q, filters, row) ==> Keeps(Sqlite, w, q, filters, row)
  {
    OtherFilters(filters, row);
  }

  /** On the same contents the two database types reply alike exactly when the table
      holds no such row. */
  lemma TwinReplies(w: World, q: Select, filters: map<string, Value>)
    ensures Reply(Sqlite, w, q, filters) == Reply(Postgres, w, q, filters) <==>
            forall row :: row in RowsFor(w, q) ==> !OnlySqlite(w, q, filters, row)
  {
    SelectedEqual(RowsFor(w, q), row => Keeps(Sqlite, w, q, filters, row), row => Keeps(Postgres, w, q, filters, row));
    forall row ensures OnlySqlite(w, q, filters, row) <==>
        Keeps(Sqlite, w, q, filters, row) != Keeps(Postgres, w, q, filters, row) {
      KeptByOne(w, q, filters, row);
    }
  }

  /** A column named q cannot be filtered on: the filter is taken for a search, and
      the rows answered are those that meet the other filters and whose id was
      found, whatever they have in that column. */
  lemma ColumnNamedQ(d: Dialect, search: Search, doc: Doc, q: Select, filters: map<string, Value>, name: string,
      row: Row, v: Value)
    requires Resolved(doc, q.filters, filters) && name in q.filters && Resolve(doc.fields, name) == "q"
    ensures "q" in filters
    ensures Answers(d, search, doc, q, filters, row) <==>
            && Wanted(q.(filters := filters - {"q"}, ids := []), row)
            && HasIdIn(row, SearchIds(d, search, doc, Sprint(filters["q"]), q.ids))
    ensures Answers(d, search, doc, q, filters, row["q" := v]) <==> Answers(d, search, doc, q, filters, row)
  {
    OtherFilters(filters, row);
    OtherFilters(filters, row["q" := v]);
  }
}
