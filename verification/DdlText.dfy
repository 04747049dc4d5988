/** The text of the ALTER statements of both dialects, and what the migrator's
    text filter finds in it (dal/dialect/postgres/dialect.go,
    dal/dialect/sqlite/dialect.go, dal/migrator.go). Names stand between quotes. */
module DdlText {
  import opened Strings
  import opened SchemaTypes
  import opened Dialects

  /** %q of a name with no character that it would escape. */
  function Quoted(name: string): string {
    "\"" + name + "\""
  }

  function TwoNames(first: string, table: string, middle: string, column: string, last: string): string {
    first + Quoted(table) + (middle + Quoted(column) + last)
  }

  const ALTER_TABLE := "ALTER TABLE "

  function AddMiddle(d: Dialect): string {
    if d.Postgres? then " ADD COLUMN IF NOT EXISTS " else " ADD COLUMN "
  }

  function AddTail(ddl: string, required: bool): string {
    " " + ddl + (if required then " NOT NULL DEFAULT ''" else "")
  }

  function AddColumnText(d: Dialect, table: string, column: string, ddl: string, required: bool): string {
    TwoNames(ALTER_TABLE, table, AddMiddle(d), column, AddTail(ddl, required))
  }

  function DropColumnText(d: Dialect, table: string, column: string): string {
    TwoNames(ALTER_TABLE, table, if d.Postgres? then " DROP COLUMN IF EXISTS " else " DROP COLUMN ", column, "")
  }

  const ALTER_COLUMN := " ALTER COLUMN "

  function TypeTail(ddl: string): string {
    " TYPE " + ddl
  }

  function AlterTypeText(table: string, column: string, ddl: string): string {
    TwoNames(ALTER_TABLE, table, ALTER_COLUMN, column, TypeTail(ddl))
  }

  function TypeNoteText(table: string, column: string, oldType: string, newType: string): string {
    TwoNames("-- NOTE (sqlite): ALTER COLUMN TYPE is unsupported; rebuild ", table, " manually to change ", column,
             " from " + oldType + " to " + newType + " (see TAD \U{00A7}14.1 step 2)")
  }

  const DROP_COLUMN := "DROP COLUMN"

  /** The filter's test of a statement. */
  predicate SaysDropColumn(text: string) {
    Contains(ToUpper(text), DROP_COLUMN)
  }

  // ----- where the words can stand -----

  /** A string without a quote in it cannot reach across one. */
  lemma ContainsAcross(a: string, q: char, b: string, sub: string)
    requires sub != "" && q !in sub
    ensures Contains(a + [q] + b, sub) <==> Contains(a, sub) || Contains(b, sub)
  {
    var s := a + [q] + b;
    ContainsSomewhere(s, sub);
    ContainsSomewhere(a, sub);
    ContainsSomewhere(b, sub);
    forall i: nat | Occurs(s, sub, i) ensures Occurs(a, sub, i) || (i > |a| && Occurs(b, sub, i - |a| - 1)) {
      OccursAside(a, q, b, sub, i);
    }
    forall i: nat | Occurs(a, sub, i) ensures Occurs(s, sub, i) {
      assert s[i..i + |sub|] == a[i..i + |sub|];
    }
    forall i: nat | Occurs(b, sub, i) ensures Occurs(s, sub, |a| + 1 + i) {
      assert s[|a| + 1 + i..|a| + 1 + i + |sub|] == b[i..i + |sub|];
    }
  }

  lemma OccursAside(a: string, q: char, b: string, sub: string, i: nat)
    requires sub != "" && q !in sub && Occurs(a + [q] + b, sub, i)
    ensures Occurs(a, sub, i) || (i > |a| && Occurs(b, sub, i - |a| - 1))
  {
    var s := a + [q] + b;
    assert s[|a|] == q;
    if i + |sub| <= |a| {
      assert s[i..i + |sub|] == a[i..i + |sub|];
    } else if i > |a| {
      assert s[i..i + |sub|] == b[i - |a| - 1..i - |a| - 1 + |sub|];
    }
  }

  /** The words stand in a name or in the text around it. */
  lemma SaysAround(first: string, name: string, last: string)
    ensures SaysDropColumn(first + Quoted(name) + last) <==>
              SaysDropColumn(first) || SaysDropColumn(name) || SaysDropColumn(last)
  {
    var rest := name + "\"" + last;
    assert first + Quoted(name) + last == first + "\"" + rest;
    UpperQuote(first, rest);
    UpperQuote(name, last);
    ContainsAcross(ToUpper(first), '"', ToUpper(rest), DROP_COLUMN);
    ContainsAcross(ToUpper(name), '"', ToUpper(last), DROP_COLUMN);
  }

  lemma UpperQuote(a: string, b: string)
    ensures ToUpper(a + "\"" + b) == ToUpper(a) + ['"'] + ToUpper(b)
  {
  }

  /** A text that says it has all its letters. */
  lemma SaysHasLetters(text: string, c: char)
    requires c in DROP_COLUMN
    ensures SaysDropColumn(text) ==> c in ToUpper(text)
  {
    if SaysDropColumn(text) {
      ContainsSomewhere(ToUpper(text), DROP_COLUMN);
      var i: nat :| Occurs(ToUpper(text), DROP_COLUMN, i);
      var j :| 0 <= j < |DROP_COLUMN| && DROP_COLUMN[j] == c;
      assert ToUpper(text)[i + j] == c;
    }
  }

  /** c occurs in the text in neither case. */
  predicate Lacks(text: string, c: char) {
    c !in text && LowerChar(c) !in text
  }

  lemma LackingSaysNothing(text: string, c: char)
    requires c in DROP_COLUMN && Lacks(text, c)
    ensures !SaysDropColumn(text)
  {
    SaysHasLetters(text, c);
  }

  /** What SQL says around the names of an addition or a type change never says
      DROP COLUMN: each piece lacks one of its letters. */
  lemma OpeningSaysNothing(text: string)
    requires text == ALTER_TABLE
    ensures !SaysDropColumn(text)
  {
    assert Lacks(text, 'D');
    LackingSaysNothing(text, 'D');
  }

  lemma MiddleSaysNothing(text: string)
    requires text == AddMiddle(Postgres) || text == AddMiddle(Sqlite) || text == ALTER_COLUMN
    ensures !SaysDropColumn(text)
  {
    assert Lacks(text, 'P');
    LackingSaysNothing(text, 'P');
  }

  /** The letter M is in no type name but two. */
  lemma TypeLetters(ddl: string, d: Dialect, f: Field)
    requires ddl == ColumnType(d, f)
    ensures Lacks(ddl, 'M') || ddl == "NUMERIC(20,6)" || ddl == "TIMESTAMPTZ"
  {
  }

  function Missing(ddl: string, added: bool): char {
    if ddl == "NUMERIC(20,6)" then (if added then 'P' else 'D') else if ddl == "TIMESTAMPTZ" then 'R' else 'M'
  }

  lemma TypeLacks(ddl: string, d: Dialect, f: Field, added: bool)
    requires ddl == ColumnType(d, f)
    ensures Lacks(ddl, Missing(ddl, added))
  {
    TypeLetters(ddl, d, f);
  }

  lemma AddTailSaysNothing(d: Dialect, f: Field, required: bool)
    ensures !SaysDropColumn(AddTail(ColumnType(d, f), required))
  {
    var ddl := ColumnType(d, f);
    var c := Missing(ddl, true);
    TypeLacks(ddl, d, f, true);
    LackingSaysNothing(AddTail(ddl, required), c);
  }

  lemma TypeTailSaysNothing(d: Dialect, f: Field)
    ensures !SaysDropColumn(TypeTail(ColumnType(d, f)))
  {
    var ddl := ColumnType(d, f);
    var c := Missing(ddl, false);
    TypeLacks(ddl, d, f, false);
    LackingSaysNothing(TypeTail(ddl), c);
  }

  /** An addition is taken for a column drop exactly because of a name in it. */
  lemma AdditionSays(d: Dialect, table: string, f: Field)
    ensures SaysDropColumn(AddColumnText(d, table, f.dbColumn, ColumnType(d, f), f.required)) <==>
            SaysDropColumn(table) || SaysDropColumn(f.dbColumn)
  {
    var middle, last := AddMiddle(d), AddTail(ColumnType(d, f), f.required);
    OpeningSaysNothing(ALTER_TABLE);
    MiddleSaysNothing(middle);
    AddTailSaysNothing(d, f, f.required);
    SaysAround(middle, f.dbColumn, last);
    SaysAround(ALTER_TABLE, table, middle + Quoted(f.dbColumn) + last);
  }

  lemma TypeChangeSays(d: Dialect, table: string, f: Field)
    ensures SaysDropColumn(AlterTypeText(table, f.dbColumn, ColumnType(d, f))) <==>
              SaysDropColumn(table) || SaysDropColumn(f.dbColumn)
  {
    var last := TypeTail(ColumnType(d, f));
    OpeningSaysNothing(ALTER_TABLE);
    MiddleSaysNothing(ALTER_COLUMN);
    TypeTailSaysNothing(d, f);
    SaysAround(ALTER_COLUMN, f.dbColumn, last);
    SaysAround(ALTER_TABLE, table, ALTER_COLUMN + Quoted(f.dbColumn) + last);
  }

  /** The table of a DocType named "drop column item". */
  lemma SaysItself(name: string)
    requires name == "drop column items"
    ensures SaysDropColumn(name)
  {
    assert ToUpper(name)[..11] == DROP_COLUMN;
    ContainsSomewhere(ToUpper(name), DROP_COLUMN);
    assert Occurs(ToUpper(name), DROP_COLUMN, 0);
  }
}
