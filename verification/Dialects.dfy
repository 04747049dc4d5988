/** The two SQL dialects as far as column types and DDL statements go
    (dal/dialect/postgres/dialect.go, dal/dialect/sqlite/dialect.go). Statements
    are kept as data; text holds names where the source quotes them. */
module Dialects {
  import opened Strings
  import opened SchemaTypes

  datatype Dialect = Postgres | Sqlite

  /** pgType and sqliteType. */
  function ColumnType(d: Dialect, f: Field): string {
    match d
    case Postgres => (
      match f.fieldType
      case IntField => "INTEGER"
      case Int64Field => "BIGINT"
      case BoolField => "BOOLEAN"
      case Float64Field => "DOUBLE PRECISION"
      case CurrencyField => "NUMERIC(20,6)"
      case DateField => "DATE"
      case DateTimeField => "TIMESTAMPTZ"
      case JSONField => "JSONB"
      case _ => "TEXT")
    case Sqlite => (
      match f.fieldType
      case IntField => "INTEGER"
      case Int64Field => "INTEGER"
      case Float64Field => "REAL"
      case CurrencyField => "REAL"
      case BoolField => "INTEGER"
      case _ => "TEXT")
  }

  /** The type name the database reports for a column declared with a DDL type:
      information_schema's name on PostgreSQL, the text of the declaration on SQLite. */
  function Reported(d: Dialect, ddl: string): string {
    match d
    case Sqlite => ddl
    case Postgres =>
      if ddl == "INTEGER" then "integer"
      else if ddl == "BIGINT" then "bigint"
      else if ddl == "BOOLEAN" then "boolean"
      else if ddl == "DOUBLE PRECISION" then "double precision"
      else if ddl == "NUMERIC(20,6)" then "numeric"
      else if ddl == "DATE" then "date"
      else if ddl == "TIMESTAMPTZ" then "timestamp with time zone"
      else if ddl == "JSONB" then "jsonb"
      else "text"
  }

  function Normalize(d: Dialect, raw: string): string {
    var s := ToUpper(TrimSpace(raw));
    match d
    case Sqlite => s
    case Postgres => Canonical(s[..IndexByte(s, '(')])
  }

  function Canonical(s: string): string {
    if s in {"CHARACTER VARYING", "CHARACTER", "VARCHAR", "VARCHAR2"} then "TEXT"
    else if s in {"TIMESTAMP WITH TIME ZONE", "TIMESTAMPTZ"} then "TIMESTAMPTZ"
    else if s in {"TIMESTAMP WITHOUT TIME ZONE", "TIMESTAMP"} then "TIMESTAMP"
    else if s in {"DOUBLE PRECISION", "FLOAT8"} then "DOUBLE PRECISION"
    else s
  }

  predicate NoParen(s: string, n: nat)
    requires n <= |s|
  {
    forall j :: 0 <= j < n ==> s[j] != '('
  }

  lemma NormalForm(raw: string, upper: string, base: nat)
    requires raw != "" && !IsSpace(raw[0]) && !IsSpace(raw[|raw| - 1])
    requires ToUpper(raw) == upper && base <= |upper| && NoParen(upper, base) && (base < |upper| ==> upper[base] == '(')
    ensures Normalize(Sqlite, raw) == upper
    ensures Normalize(Postgres, raw) == Canonical(upper[..base])
  {
    assert TrimSpace(raw) == raw;
    assert IndexByte(upper, '(') == base;
  }

  lemma PlainForm(raw: string, upper: string)
    requires raw != "" && !IsSpace(raw[0]) && !IsSpace(raw[|raw| - 1])
    requires ToUpper(raw) == upper && NoParen(upper, |upper|)
    ensures Normalize(Postgres, raw) == Canonical(upper)
  {
    assert upper[..|upper|] == upper;
    NormalForm(raw, upper, |upper|);
  }

  predicate Capitals(s: string) {
    s != "" && forall i :: 0 <= i < |s| ==> 'A' <= s[i] <= 'Z'
  }

  /** The single-word types but NUMERIC, which PostgreSQL reports in lower case. */
  predicate OneWord(ddl: string, reported: string) {
    || (ddl == "INTEGER" && reported == "integer")
    || (ddl == "BIGINT" && reported == "bigint")
    || (ddl == "BOOLEAN" && reported == "boolean")
    || (ddl == "DATE" && reported == "date")
    || (ddl == "JSONB" && reported == "jsonb")
    || (ddl == "TEXT" && reported == "text")
  }

  lemma OneWordIsCapitals(ddl: string, reported: string)
    requires OneWord(ddl, reported)
    ensures Capitals(ddl) && reported == ToLower(ddl)
  {
  }

  lemma CapitalsRead(ddl: string)
    requires Capitals(ddl)
    ensures Normalize(Postgres, ddl) == Normalize(Postgres, ToLower(ddl))
  {
    assert ToUpper(ToLower(ddl)) == ddl == ToUpper(ddl);
    PlainForm(ddl, ddl);
    PlainForm(ToLower(ddl), ddl);
  }

  lemma OneWordReads(ddl: string, reported: string)
    requires OneWord(ddl, reported)
    ensures Normalize(Postgres, ddl) == Normalize(Postgres, reported)
  {
    OneWordIsCapitals(ddl, reported);
    CapitalsRead(ddl);
  }

  lemma DoubleReads(ddl: string, reported: string)
    requires ddl == "DOUBLE PRECISION" && reported == "double precision"
    ensures Normalize(Postgres, ddl) == Normalize(Postgres, reported)
  {
    DoubleUpper(ddl, reported);
    PlainForm(ddl, ddl);
    PlainForm(reported, ddl);
  }

  lemma DoubleUpper(ddl: string, reported: string)
    requires ddl == "DOUBLE PRECISION" && reported == "double precision"
    ensures ToUpper(ddl) == ddl == ToUpper(reported) && NoParen(ddl, |ddl|)
  {
  }

  lemma NumericReads(ddl: string, reported: string)
    requires ddl == "NUMERIC(20,6)" && reported == "numeric"
    ensures Normalize(Postgres, ddl) == Normalize(Postgres, reported)
  {
    assert ddl[..7] == "NUMERIC";
    NormalForm(ddl, ddl, 7);
    PlainForm(reported, "NUMERIC");
  }

  lemma TimestampReads(ddl: string, reported: string)
    requires ddl == "TIMESTAMPTZ" && reported == "timestamp with time zone"
    ensures Normalize(Postgres, ddl) == Normalize(Postgres, reported)
  {
    var upper := LongTimestamp(reported);
    PlainForm(ddl, ddl);
    PlainForm(reported, upper);
  }

  lemma LongTimestamp(reported: string) returns (upper: string)
    requires reported == "timestamp with time zone"
    ensures upper == "TIMESTAMP WITH TIME ZONE" && ToUpper(reported) == upper && NoParen(upper, |upper|)
  {
    upper := "TIMESTAMP WITH TIME ZONE";
  }

  /** A column reads back as the type it was declared with, up to normal form. */
  lemma DeclaredReadsBack(d: Dialect, f: Field)
    ensures Normalize(d, Reported(d, ColumnType(d, f))) == Normalize(d, ColumnType(d, f))
  {
    var ddl := ColumnType(d, f);
    var reported := Reported(d, ddl);
    if d == Postgres {
      match f.fieldType {
        case Float64Field => DoubleReads(ddl, reported);
        case CurrencyField => NumericReads(ddl, reported);
        case DateTimeField => TimestampReads(ddl, reported);
        case _ => OneWordReads(ddl, reported);
      }
    }
  }

  // ----- which live types pass for a declared one -----

  /** A type name as it is compared: upper case, without the part in parentheses. */
  function BaseName(raw: string): string {
    var s := ToUpper(TrimSpace(raw)); s[..IndexByte(s, '(')]
  }

  /** The type names PostgreSQL may report that pass for a field of this type. */
  function PostgresNames(ft: FieldType): set<string> {
    match ft
    case IntField => {"INTEGER"}
    case Int64Field => {"BIGINT"}
    case BoolField => {"BOOLEAN"}
    case Float64Field => {"DOUBLE PRECISION", "FLOAT8"}
    case CurrencyField => {"NUMERIC"}
    case DateField => {"DATE"}
    case DateTimeField => {"TIMESTAMPTZ", "TIMESTAMP WITH TIME ZONE"}
    case JSONField => {"JSONB"}
    case _ => {"TEXT", "CHARACTER VARYING", "CHARACTER", "VARCHAR", "VARCHAR2"}
  }

  function SqliteName(ft: FieldType): string {
    match ft
    case IntField => "INTEGER"
    case Int64Field => "INTEGER"
    case BoolField => "INTEGER"
    case Float64Field => "REAL"
    case CurrencyField => "REAL"
    case _ => "TEXT"
  }

  /** The aliased types. */
  lemma CanonicalAliases(s: string)
    ensures Canonical(s) == "TEXT" <==> s in {"TEXT", "CHARACTER VARYING", "CHARACTER", "VARCHAR", "VARCHAR2"}
    ensures Canonical(s) == "TIMESTAMPTZ" <==> s in {"TIMESTAMPTZ", "TIMESTAMP WITH TIME ZONE"}
    ensures Canonical(s) == "DOUBLE PRECISION" <==> s in {"DOUBLE PRECISION", "FLOAT8"}
  {
    assert |"TEXT"| == 4 && |"TIMESTAMPTZ"| == 11 && |"TIMESTAMP"| == 9 && |"DOUBLE PRECISION"| == 16;
    assert |"CHARACTER VARYING"| == 17 && |"CHARACTER"| == 9 && |"VARCHAR"| == 7 && |"VARCHAR2"| == 8;
    assert |"TIMESTAMP WITH TIME ZONE"| == 24 && |"TIMESTAMP WITHOUT TIME ZONE"| == 27 && |"FLOAT8"| == 6;
  }

  predicate Unaliased(name: string) {
    name in {"INTEGER", "BIGINT", "BOOLEAN", "NUMERIC", "DATE", "JSONB"}
  }

  lemma CanonicalItself(s: string, name: string)
    requires Unaliased(name)
    ensures Canonical(s) == name <==> s == name
  {
    assert name[0] != 'V' && name[0] != 'F' && name[0] != 'T';
    assert |"VARCHAR"| == 7 && "VARCHAR"[0] == 'V' && |"FLOAT8"| == 6 && "FLOAT8"[0] == 'F';
  }

  lemma CapitalsForm(ddl: string)
    requires Capitals(ddl)
    ensures Normalize(Postgres, ddl) == Canonical(ddl) && Normalize(Sqlite, ddl) == ddl
  {
    assert ToUpper(ddl) == ddl && TrimSpace(ddl) == ddl;
    PlainForm(ddl, ddl);
  }

  lemma DoubleForm(ddl: string)
    requires ddl == "DOUBLE PRECISION"
    ensures Normalize(Postgres, ddl) == Canonical(ddl)
  {
    DoubleUpper(ddl, "double precision");
    PlainForm(ddl, ddl);
  }

  lemma NumericForm(ddl: string)
    requires ddl == "NUMERIC(20,6)"
    ensures Normalize(Postgres, ddl) == Canonical("NUMERIC")
  {
    assert ddl[..7] == "NUMERIC";
    NormalForm(ddl, ddl, 7);
  }

  /** The types that are one word, as they are declared. */
  predicate Word(ddl: string) {
    ddl in {"INTEGER", "BIGINT", "BOOLEAN", "DATE", "JSONB", "TEXT", "TIMESTAMPTZ", "REAL"}
  }

  lemma WordForm(ddl: string)
    requires Word(ddl)
    ensures Normalize(Postgres, ddl) == Canonical(ddl) && Normalize(Sqlite, ddl) == ddl
  {
    assert Capitals(ddl);
    CapitalsForm(ddl);
  }

  /** What a live type has to be for one that is declared under this name. */
  lemma NamesOf(base: string, name: string)
    ensures name == "TEXT" ==> (Canonical(base) == Canonical(name) <==> base in PostgresNames(StringField))
    ensures name == "TIMESTAMPTZ" ==> (Canonical(base) == Canonical(name) <==> base in PostgresNames(DateTimeField))
    ensures name == "DOUBLE PRECISION" ==> (Canonical(base) == Canonical(name) <==> base in PostgresNames(Float64Field))
    ensures Unaliased(name) ==> (Canonical(base) == Canonical(name) <==> base == name)
  {
    CanonicalAliases(base);
    CanonicalAliases(name);
    if Unaliased(name) {
      CanonicalItself(base, name);
      CanonicalItself(name, name);
    }
  }

  lemma SameTypeOnPostgres(raw: string, f: Field)
    ensures Normalize(Postgres, raw) == Normalize(Postgres, ColumnType(Postgres, f)) <==>
            BaseName(raw) in PostgresNames(f.fieldType)
  {
    var ddl, base := ColumnType(Postgres, f), BaseName(raw);
    match f.fieldType {
      case Float64Field =>
        DoubleForm(ddl);
        NamesOf(base, ddl);
      case CurrencyField =>
        NumericForm(ddl);
        NamesOf(base, "NUMERIC");
      case _ =>
        WordForm(ddl);
        NamesOf(base, ddl);
    }
  }

  lemma SameTypeOnSqlite(raw: string, f: Field)
    ensures Normalize(Sqlite, raw) == Normalize(Sqlite, ColumnType(Sqlite, f)) <==>
            ToUpper(TrimSpace(raw)) == SqliteName(f.fieldType)
  {
    var ddl := ColumnType(Sqlite, f);
    SqliteWord(f.fieldType, ddl);
    CapitalsForm(ddl);
  }

  lemma SqliteWord(ft: FieldType, ddl: string)
    requires ddl == SqliteName(ft)
    ensures Capitals(ddl)
  {
  }

  /** The comparison finds no type change exactly for these live types. */
  lemma SameTypeExactly(d: Dialect, raw: string, f: Field)
    ensures Normalize(d, raw) == Normalize(d, ColumnType(d, f)) <==>
            match d
            case Postgres => BaseName(raw) in PostgresNames(f.fieldType)
            case Sqlite => ToUpper(TrimSpace(raw)) == SqliteName(f.fieldType)
  {
    SameTypeOnPostgres(raw, f);
    SameTypeOnSqlite(raw, f);
  }
}
