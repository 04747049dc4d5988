/** SelectSQL of both dialects (dal/dialect/postgres/dialect.go and
    dal/dialect/sqlite/dialect.go): the WHERE clause as a list of conditions with
    placeholders, and the argument list that goes with it. */
module SelectSql {
  import opened Wrappers
  import opened Dialects
  import opened Ordering
  import opened Values

  /** The parts of dal.Select that decide which rows match. */
  datatype Select = Select(docType: string, tableName: string, filters: map<string, Value>, ids: seq<string>,
      includeDeleted: bool)

  datatype Placeholder = Numbered(n: nat) | Positional

  /** A condition as rendered: column = placeholder, or "id" IN (placeholders). */
  datatype Condition = Equals(column: string, p: Placeholder) | InIds(ps: seq<Placeholder>)

  // ----- what a rendered WHERE clause means -----

  function PlaceholdersOf(c: Condition): seq<Placeholder> {
    match c
    case Equals(_, p) => [p]
    case InIds(ps) => ps
  }

  /** The placeholders in the order they stand in the text. */
  function Placeholders(cs: seq<Condition>): seq<Placeholder> {
    if cs == [] then [] else Placeholders(cs[..|cs| - 1]) + PlaceholdersOf(cs[|cs| - 1])
  }

  /** The argument a placeholder stands for: the n-th for $n, the one at its own
      position k in the text for ?. */
  function Argument(args: seq<Value>, p: Placeholder, k: nat): Value {
    match p
    case Numbered(n) => if 1 <= n <= |args| then args[n - 1] else Null
    case Positional => if k < |args| then args[k] else Null
  }

  /** The condition holds of a row when its first placeholder is the k-th. */
  predicate Holds(c: Condition, args: seq<Value>, k: nat, row: Row) {
    match c
    case Equals(column, p) => SqlEquals(row, column, Argument(args, p, k))
    case InIds(ps) => exists i :: 0 <= i < |ps| && SqlEquals(row, "id", Argument(args, ps[i], k + i))
  }

  /** Every condition holds: they are joined with AND. */
  predicate Denotes(cs: seq<Condition>, args: seq<Value>, row: Row) {
    if cs == [] then true else
    var rest := cs[..|cs| - 1];
    Denotes(rest, args, row) && Holds(cs[|cs| - 1], args, |Placeholders(rest)|, row)
  }

  function PlaceholderAt(d: Dialect, k: nat): Placeholder {
    if d.Postgres? then Numbered(k + 1) else Positional
  }

  /** These are the dialect's placeholders from position k on. */
  ghost predicate FromAt(d: Dialect, ps: seq<Placeholder>, k: nat) {
    forall i :: 0 <= i < |ps| ==> ps[i] == PlaceholderAt(d, k + i)
  }

  /** Placeholders and arguments go one for one, in text order. */
  ghost predicate InStep(d: Dialect, cs: seq<Condition>, args: seq<Value>) {
    |Placeholders(cs)| == |args| && FromAt(d, Placeholders(cs), 0)
  }

  lemma FromSplit(d: Dialect, a: seq<Placeholder>, b: seq<Placeholder>, k: nat)
    ensures FromAt(d, a + b, k) <==> FromAt(d, a, k) && FromAt(d, b, k + |a|)
  {
    var all := a + b;
    assert forall i :: 0 <= i < |a| ==> all[i] == a[i];
    forall i | 0 <= i < |b| ensures all[|a| + i] == b[i] && k + (|a| + i) == k + |a| + i {}
    if FromAt(d, all, k) {
      forall i | 0 <= i < |b| ensures b[i] == PlaceholderAt(d, k + |a| + i) {
        assert all[|a| + i] == PlaceholderAt(d, k + (|a| + i));
      }
    }
  }

  lemma ArgumentInStep(d: Dialect, args: seq<Value>, k: nat)
    requires k < |args|
    ensures Argument(args, PlaceholderAt(d, k), k) == args[k]
  {
  }

  lemma PlaceholdersAppend(cs: seq<Condition>, c: Condition)
    ensures Placeholders(cs + [c]) == Placeholders(cs) + PlaceholdersOf(c)
  {
    assert (cs + [c])[..|cs|] == cs;
  }

  /** The condition's placeholders stand from position k on and have arguments. */
  ghost predicate FitsAt(d: Dialect, c: Condition, args: seq<Value>, k: nat) {
    k + |PlaceholdersOf(c)| <= |args| && FromAt(d, PlaceholdersOf(c), k)
  }

  /** The placeholders go one for one with the first arguments. */
  ghost predicate Fits(d: Dialect, cs: seq<Condition>, args: seq<Value>) {
    |Placeholders(cs)| <= |args| && FromAt(d, Placeholders(cs), 0)
  }

  lemma HoldsWithMore(d: Dialect, c: Condition, args: seq<Value>, more: seq<Value>, k: nat, row: Row)
    requires FitsAt(d, c, args, k)
    ensures Holds(c, args + more, k, row) <==> Holds(c, args, k, row)
  {
    forall i | 0 <= i < |PlaceholdersOf(c)|
      ensures Argument(args + more, PlaceholdersOf(c)[i], k + i) == Argument(args, PlaceholdersOf(c)[i], k + i)
    {
      ArgumentInStep(d, args, k + i);
      ArgumentInStep(d, args + more, k + i);
    }
    if c.Equals? { assert PlaceholdersOf(c)[0] == c.p; }
  }

  lemma FitsSplit(d: Dialect, rest: seq<Condition>, c: Condition, args: seq<Value>)
    requires Fits(d, rest + [c], args)
    ensures Fits(d, rest, args) && FitsAt(d, c, args, |Placeholders(rest)|)
  {
    PlaceholdersAppend(rest, c);
    FromSplit(d, Placeholders(rest), PlaceholdersOf(c), 0);
  }

  lemma DenotesAppend(rest: seq<Condition>, c: Condition, args: seq<Value>, row: Row)
    ensures Denotes(rest + [c], args, row) <==> Denotes(rest, args, row) && Holds(c, args, |Placeholders(rest)|, row)
  {
    assert (rest + [c])[..|rest|] == rest;
  }

  /** Later arguments do not change what earlier conditions mean. */
  lemma {:induction false} DenotesWithMore(d: Dialect, cs: seq<Condition>, args: seq<Value>, more: seq<Value>, row: Row)
    requires Fits(d, cs, args)
    ensures Denotes(cs, args + more, row) <==> Denotes(cs, args, row)
  {
    if cs != [] {
      var rest, c := cs[..|cs| - 1], cs[|cs| - 1];
      assert cs == rest + [c];
      FitsSplit(d, rest, c, args);
      DenotesWithMore(d, rest, args, more, row);
      HoldsWithMore(d, c, args, more, |Placeholders(rest)|, row);
      DenotesAppend(rest, c, args, row);
      DenotesAppend(rest, c, args + more, row);
    }
  }

  /** A condition rendered with the next placeholders adds itself and nothing else. */
  lemma AddCondition(d: Dialect, cs: seq<Condition>, args: seq<Value>, c: Condition, more: seq<Value>, row: Row)
    requires InStep(d, cs, args) && |PlaceholdersOf(c)| == |more|
    requires FromAt(d, PlaceholdersOf(c), |args|)
    ensures InStep(d, cs + [c], args + more)
    ensures Denotes(cs + [c], args + more, row) <==> Denotes(cs, args, row) && Holds(c, args + more, |args|, row)
  {
    PlaceholdersAppend(cs, c);
    FromSplit(d, Placeholders(cs), PlaceholdersOf(c), 0);
    DenotesAppend(cs, c, args + more, row);
    DenotesWithMore(d, cs, args, more, row);
  }

  lemma AddEquals(d: Dialect, cs: seq<Condition>, args: seq<Value>, column: string, v: Value)
    requires InStep(d, cs, args)
    ensures var cs', args' := cs + [Equals(column, PlaceholderAt(d, |args|))], args + [v];
            && InStep(d, cs', args')
            && forall row: Row :: Denotes(cs', args', row) <==> Denotes(cs, args, row) && SqlEquals(row, column, v)
  {
    var c := Equals(column, PlaceholderAt(d, |args|));
    AddCondition(d, cs, args, c, [v], map[]);
    forall row: Row ensures Denotes(cs + [c], args + [v], row) <==>
        Denotes(cs, args, row) && SqlEquals(row, column, v) {
      AddCondition(d, cs, args, c, [v], row);
      ArgumentInStep(d, args + [v], |args|);
    }
  }

  function IdValues(ids: seq<string>): (vs: seq<Value>)
    ensures |vs| == |ids| && forall i :: 0 <= i < |ids| ==> vs[i] == Str(ids[i])
  {
    seq(|ids|, i requires 0 <= i < |ids| => Str(ids[i]))
  }

  predicate HasIdIn(row: Row, ids: seq<string>) {
    "id" in row && row["id"].Str? && row["id"].text in ids
  }

  /** The arguments from position k on are the ids. */
  ghost predicate IdsFrom(args: seq<Value>, k: nat, ids: seq<string>) {
    k + |ids| <= |args| && args[k..k + |ids|] == IdValues(ids)
  }

  lemma IdArgument(d: Dialect, args: seq<Value>, k: nat, ids: seq<string>, ps: seq<Placeholder>, i: nat)
    requires IdsFrom(args, k, ids) && |ps| == |ids| && FromAt(d, ps, k) && i < |ids|
    ensures Argument(args, ps[i], k + i) == Str(ids[i])
  {
    assert args[k + i] == args[k..k + |ids|][i];
    ArgumentInStep(d, args, k + i);
  }

  lemma IdsHold(d: Dialect, args: seq<Value>, k: nat, ids: seq<string>, ps: seq<Placeholder>, row: Row)
    requires IdsFrom(args, k, ids) && |ps| == |ids| && FromAt(d, ps, k)
    ensures Holds(InIds(ps), args, k, row) <==> HasIdIn(row, ids)
  {
    if HasIdIn(row, ids) {
      var i :| 0 <= i < |ids| && ids[i] == row["id"].text;
      IdArgument(d, args, k, ids, ps, i);
      assert SqlEquals(row, "id", Argument(args, ps[i], k + i));
    }
    if Holds(InIds(ps), args, k, row) {
      var i :| 0 <= i < |ps| && SqlEquals(row, "id", Argument(args, ps[i], k + i));
      IdArgument(d, args, k, ids, ps, i);
    }
  }

  lemma AddIds(d: Dialect, cs: seq<Condition>, args: seq<Value>, ids: seq<string>, ps: seq<Placeholder>)
    requires InStep(d, cs, args) && |ps| == |ids| && FromAt(d, ps, |args|)
    ensures var cs', args' := cs + [InIds(ps)], args + IdValues(ids);
            && InStep(d, cs', args')
            && forall row :: Denotes(cs', args', row) <==> Denotes(cs, args, row) && HasIdIn(row, ids)
  {
    AddCondition(d, cs, args, InIds(ps), IdValues(ids), map[]);
    assert IdsFrom(args + IdValues(ids), |args|, ids);
    forall row: Row
      ensures Denotes(cs + [InIds(ps)], args + IdValues(ids), row) <==> Denotes(cs, args, row) && HasIdIn(row, ids)
    {
      AddCondition(d, cs, args, InIds(ps), IdValues(ids), row);
      IdsHold(d, args + IdValues(ids), |args|, ids, ps, row);
    }
  }

  // ----- rendering -----

  /** What a Select asks for besides ids: not deleted unless included, and every
      filter equal. */
  predicate WantedApart(q: Select, row: Row) {
    && (!q.includeDeleted ==> SqlEquals(row, "deleted", Bool(false)))
    && (forall k :: k in q.filters ==> SqlEquals(row, k, q.filters[k]))
  }

  /** And the id among IDs when there are any. */
  predicate Wanted(q: Select, row: Row) {
    WantedApart(q, row) && (q.ids != [] ==> HasIdIn(row, q.ids))
  }

  /** The conditions mean that the row meets f. */
  ghost predicate Render(d: Dialect, cs: seq<Condition>, args: seq<Value>, f: Row -> bool) {
    InStep(d, cs, args) && forall row: Row :: Denotes(cs, args, row) <==> f(row)
  }

  /** Not deleted unless included, and the first n filters equal. */
  function UpTo(q: Select, keys: seq<string>, n: nat): Row -> bool
    requires n <= |keys| && forall k :: k in keys ==> k in q.filters
  {
    row => (!q.includeDeleted ==> SqlEquals(row, "deleted", Bool(false)))
           && forall j :: 0 <= j < n ==> SqlEquals(row, keys[j], q.filters[keys[j]])
  }

  lemma RenderNext(d: Dialect, q: Select, keys: seq<string>, n: nat, cs: seq<Condition>, args: seq<Value>)
    requires n < |keys| && (forall k :: k in keys ==> k in q.filters) && Render(d, cs, args, UpTo(q, keys, n))
    ensures Render(d, cs + [Equals(keys[n], PlaceholderAt(d, |args|))], args + [q.filters[keys[n]]],
            UpTo(q, keys, n + 1))
  {
    AddEquals(d, cs, args, keys[n], q.filters[keys[n]]);
    assert forall row :: UpTo(q, keys, n + 1)(row) <==>
        UpTo(q, keys, n)(row) && SqlEquals(row, keys[n], q.filters[keys[n]]);
  }

  lemma RenderFirst(d: Dialect, q: Select, keys: seq<string>)
    requires forall k :: k in keys ==> k in q.filters
    ensures q.includeDeleted ==> Render(d, [], [], UpTo(q, keys, 0))
    ensures !q.includeDeleted ==> Render(d, [Equals("deleted", PlaceholderAt(d, 0))], [Bool(false)], UpTo(q, keys, 0))
  {
    if !q.includeDeleted {
      AddEquals(d, [], [], "deleted", Bool(false));
      assert [] + [Equals("deleted", PlaceholderAt(d, 0))] == [Equals("deleted", PlaceholderAt(d, 0))];
      assert [] + [Bool(false)] == [Bool(false)];
    }
  }

  lemma RenderAll(d: Dialect, q: Select, keys: seq<string>, cs: seq<Condition>, args: seq<Value>)
    requires (forall k :: k in keys <==> k in q.filters) && Render(d, cs, args, UpTo(q, keys, |keys|))
    ensures Render(d, cs, args, row => WantedApart(q, row))
  {
    forall row: Row ensures UpTo(q, keys, |keys|)(row) <==> WantedApart(q, row) {
      if UpTo(q, keys, |keys|)(row) {
        forall k | k in q.filters ensures SqlEquals(row, k, q.filters[k]) {
          var j :| 0 <= j < |keys| && keys[j] == k;
        }
      }
    }
  }

  lemma RenderIds(d: Dialect, q: Select, cs: seq<Condition>, args: seq<Value>, ps: seq<Placeholder>)
    requires Render(d, cs, args, row => WantedApart(q, row)) && |ps| == |q.ids| && FromAt(d, ps, |args|)
    ensures q.ids == [] ==> Render(d, cs, args, row => Wanted(q, row))
    ensures q.ids != [] ==> Render(d, cs + [InIds(ps)], args + IdValues(q.ids), row => Wanted(q, row))
  {
    if q.ids != [] { AddIds(d, cs, args, q.ids, ps); }
  }

  /** PostgreSQL: a counter numbers the placeholders. */
  method PostgresWhere(q: Select) returns (conditions: seq<Condition>, args: seq<Value>)
    ensures InStep(Postgres, conditions, args)
    ensures forall row: Row :: Denotes(conditions, args, row) <==> Wanted(q, row)
  {
    conditions, args := [], [];
    var n := 1;
    if !q.includeDeleted {
      conditions, args, n := [Equals("deleted", Numbered(n))], [Bool(false)], n + 1;
    }
    var keys := SortedKeys(q.filters);
    RenderFirst(Postgres, q, keys);
    for i := 0 to |keys|
      invariant n == |args| + 1 && Render(Postgres, conditions, args, UpTo(q, keys, i))
    {
      RenderNext(Postgres, q, keys, i, conditions, args);
      assert keys[i] in keys;
      conditions, args, n := conditions + [Equals(keys[i], Numbered(n))], args + [q.filters[keys[i]]], n + 1;
    }
    RenderAll(Postgres, q, keys, conditions, args);
    ghost var before := args;
    var ps: seq<Placeholder> := [];
    if |q.ids| > 0 {
      for i := 0 to |q.ids|
        invariant n == |args| + 1 && args == before + IdValues(q.ids)[..i]
        invariant |ps| == i && FromAt(Postgres, ps, |before|)
      {
        ps, args, n := ps + [Numbered(n)], args + [Str(q.ids[i])], n + 1;
      }
      assert IdValues(q.ids)[..|q.ids|] == IdValues(q.ids);
      RenderIds(Postgres, q, conditions, before, ps);
      conditions := conditions + [InIds(ps)];
    } else {
      RenderIds(Postgres, q, conditions, before, ps);
    }
  }

  /** SQLite: every placeholder is the same. */
  method SqliteWhere(q: Select) returns (conditions: seq<Condition>, args: seq<Value>)
    ensures InStep(Sqlite, conditions, args)
    ensures forall row: Row :: Denotes(conditions, args, row) <==> Wanted(q, row)
  {
    conditions, args := [], [];
    if !q.includeDeleted {
      conditions, args := [Equals("deleted", Positional)], [Bool(false)];
    }
    var keys := SortedKeys(q.filters);
    RenderFirst(Sqlite, q, keys);
    for i := 0 to |keys|
      invariant Render(Sqlite, conditions, args, UpTo(q, keys, i))
    {
      RenderNext(Sqlite, q, keys, i, conditions, args);
      assert keys[i] in keys;
      conditions, args := conditions + [Equals(keys[i], Positional)], args + [q.filters[keys[i]]];
    }
    RenderAll(Sqlite, q, keys, conditions, args);
    ghost var before := args;
    var ps: seq<Placeholder> := [];
    if |q.ids| > 0 {
      for i := 0 to |q.ids|
        invariant args == before + IdValues(q.ids)[..i]
        invariant |ps| == i && FromAt(Sqlite, ps, |before|)
      {
        ps, args := ps + [Positional], args + [Str(q.ids[i])];
      }
      assert IdValues(q.ids)[..|q.ids|] == IdValues(q.ids);
      RenderIds(Sqlite, q, conditions, before, ps);
      conditions := conditions + [InIds(ps)];
    } else {
      RenderIds(Sqlite, q, conditions, before, ps);
    }
  }
}
