/** parseFieldsInternal (schema/parser.go): recursion over a possibly cyclic
    graph of Go struct types, with a path that detects circular child tables. */
module TypeParser {
  import opened Wrappers
  import opened SchemaTypes
  import opened Walks

  datatype Kind = StringKind | IntKind | Int64Kind | Float64Kind | BoolKind | Uint8Kind | OtherKind

  /** A Go type as reflection shows it; display is its String(). Struct types are
      referred to by identity, which is what makes cycles possible. */
  datatype GoType =
    | Basic(display: string, basicKind: Kind)
    | Slice(display: string, elem: GoType)
    | Pointer(elem: GoType)
    | Struct(id: string)

  datatype StructField = StructField(
    name: string,
    anonymous: bool,
    skipped: bool,       // oj:"-"
    childTableTag: bool, // oj:"child_table"
    goType: GoType)

  datatype StructType = StructType(display: string, isTime: bool, name: string, fields: seq<StructField>)

  type TypeGraph = map<string, StructType>

  datatype Parsed = Parsed(name: string, fieldType: FieldType)
  datatype Child = Child(fieldName: string, typeName: string, fields: seq<Parsed>)

  function Display(g: TypeGraph, t: GoType): string {
    match t
    case Basic(d, _) => d
    case Slice(d, _) => d
    case Pointer(e) => "*" + Display(g, e)
    case Struct(id) => if id in g then g[id].display else ""
  }

  /** The type's name, with or without the package it is declared in. */
  predicate Spelled(display: string, name: string) {
    display == name || display == "schema." + name
  }

  /** The field type of a type with a name of its own in package schema. */
  function NamedType(display: string): Option<FieldType> {
    if Spelled(display, "Link") then Some(LinkField)
    else if Spelled(display, "Date") then Some(DateField)
    else if Spelled(display, "DateTime") then Some(DateTimeField)
    else if Spelled(display, "Currency") then Some(CurrencyField)
    else if Spelled(display, "Text") then Some(TextField)
    else if Spelled(display, "RichText") then Some(RichTextField)
    else if Spelled(display, "DynamicLink") then Some(DynamicLinkField)
    else if Spelled(display, "Attachment") then Some(AttachmentField)
    else if Spelled(display, "JSON") then Some(JSONField)
    else None
  }

  function GetFieldType(g: TypeGraph, t: GoType): FieldType {
    if t.Struct? && t.id in g && g[t.id].isTime then DateTimeField
    else if NamedType(Display(g, t)).Some? then NamedType(Display(g, t)).value
    else match t
      case Basic(_, StringKind) => StringField
      case Basic(_, IntKind) => IntField
      case Basic(_, Int64Kind) => Int64Field
      case Basic(_, Float64Kind) => Float64Field
      case Basic(_, BoolKind) => BoolField
      case Slice(_, Basic(_, Uint8Kind)) => JSONField
      case Slice(_, Struct(_)) => ChildTableField
      case _ => StringField
  }

  /** The field type after the child_table tag has had its say. */
  function FieldTypeOf(g: TypeGraph, f: StructField): (ft: FieldType)
    ensures ft == ChildTableField ==> f.goType.Slice? && f.goType.elem.Struct?
  {
    var ft := GetFieldType(g, f.goType);
    if f.childTableTag && ft != ChildTableField && f.goType.Slice? && f.goType.elem.Struct? then ChildTableField
    else ft
  }

  predicate Ignored(f: StructField) {
    (f.anonymous && (f.name == "BaseDocument" || f.name == "BaseChild")) || f.skipped
  }

  predicate IsChild(g: TypeGraph, f: StructField) {
    !Ignored(f) && FieldTypeOf(g, f) == ChildTableField
  }

  // ----- which fields hold rows, and what type the others have -----

  const SPECIAL_NAMES :=
    ["Link", "Date", "DateTime", "Currency", "Text", "RichText", "DynamicLink", "Attachment", "JSON"]

  predicate IsSpecial(display: string) {
    exists i :: 0 <= i < |SPECIAL_NAMES| && Spelled(display, SPECIAL_NAMES[i])
  }

  /** No two of the names can be taken for each other. */
  lemma SpelledOnce(display: string, i: nat, j: nat)
    requires i < |SPECIAL_NAMES| && j < |SPECIAL_NAMES|
    requires Spelled(display, SPECIAL_NAMES[i]) && Spelled(display, SPECIAL_NAMES[j])
    ensures i == j
  {
    var a, b := SPECIAL_NAMES[i], SPECIAL_NAMES[j];
    assert a[0] != 's' && b[0] != 's';
    if display != a && display != b {
      assert display[7..] == a && display[7..] == b;
    } else {
      assert display[0] == 's' || display == a == b;
    }
    assert a == b && |a| == |b| && a[0] == b[0];
  }

  /** Embedded bases and fields tagged "-" are no part of the document. */
  predicate LeftOut(f: StructField) {
    f.skipped || (f.anonymous && f.name in {"BaseDocument", "BaseChild"})
  }

  /** A slice of structs, unless its own type has a special name and no tag says
      child_table. */
  predicate HoldsRows(f: StructField) {
    && !LeftOut(f) && f.goType.Slice? && f.goType.elem.Struct?
    && (f.childTableTag || !IsSpecial(f.goType.display))
  }

  lemma NamedExactly(display: string)
    ensures NamedType(display).Some? <==> IsSpecial(display)
    ensures NamedType(display) != Some(ChildTableField)
  {
    if i :| 0 <= i < |SPECIAL_NAMES| && Spelled(display, SPECIAL_NAMES[i]) {
      assert NamedType(display).Some?;
    }
    assert Spelled(display, "Link") ==> Spelled(display, SPECIAL_NAMES[0]);
    assert Spelled(display, "Date") ==> Spelled(display, SPECIAL_NAMES[1]);
    assert Spelled(display, "DateTime") ==> Spelled(display, SPECIAL_NAMES[2]);
    assert Spelled(display, "Currency") ==> Spelled(display, SPECIAL_NAMES[3]);
    assert Spelled(display, "Text") ==> Spelled(display, SPECIAL_NAMES[4]);
    assert Spelled(display, "RichText") ==> Spelled(display, SPECIAL_NAMES[5]);
    assert Spelled(display, "DynamicLink") ==> Spelled(display, SPECIAL_NAMES[6]);
    assert Spelled(display, "Attachment") ==> Spelled(display, SPECIAL_NAMES[7]);
    assert Spelled(display, "JSON") ==> Spelled(display, SPECIAL_NAMES[8]);
  }

  lemma ChildHoldsRows(g: TypeGraph, f: StructField)
    ensures IsChild(g, f) <==> HoldsRows(f)
    ensures Ignored(f) <==> LeftOut(f)
  {
    NamedExactly(Display(g, f.goType));
  }

  /** Each special name gives its own field type, and only that name does. */
  lemma NamedTable(display: string)
    ensures NamedType(display) == Some(LinkField) <==> Spelled(display, "Link")
    ensures NamedType(display) == Some(DateField) <==> Spelled(display, "Date")
    ensures NamedType(display) == Some(DateTimeField) <==> Spelled(display, "DateTime")
    ensures NamedType(display) == Some(CurrencyField) <==> Spelled(display, "Currency")
    ensures NamedType(display) == Some(TextField) <==> Spelled(display, "Text")
    ensures NamedType(display) == Some(RichTextField) <==> Spelled(display, "RichText")
    ensures NamedType(display) == Some(DynamicLinkField) <==> Spelled(display, "DynamicLink")
    ensures NamedType(display) == Some(AttachmentField) <==> Spelled(display, "Attachment")
    ensures NamedType(display) == Some(JSONField) <==> Spelled(display, "JSON")
  {
    forall i, j | 0 <= i < |SPECIAL_NAMES| && 0 <= j < |SPECIAL_NAMES|
                  && Spelled(display, SPECIAL_NAMES[i]) && Spelled(display, SPECIAL_NAMES[j])
      ensures i == j
    {
      SpelledOnce(display, i, j);
    }
    assert SPECIAL_NAMES[0] == "Link" && SPECIAL_NAMES[1] == "Date" && SPECIAL_NAMES[2] == "DateTime";
    assert SPECIAL_NAMES[3] == "Currency" && SPECIAL_NAMES[4] == "Text" && SPECIAL_NAMES[5] == "RichText";
    assert SPECIAL_NAMES[6] == "DynamicLink" && SPECIAL_NAMES[7] == "Attachment" && SPECIAL_NAMES[8] == "JSON";
  }

  /** time.Time. */
  predicate IsTime(g: TypeGraph, t: GoType) {
    t.Struct? && t.id in g && g[t.id].isTime
  }

  /** The field type of every Go kind: a field that holds no rows is a date-time for
      time.Time, goes by a special name of its type before its kind, and is a string
      unless one of these says otherwise. */
  lemma FieldTypeTable(g: TypeGraph, f: StructField)
    requires !LeftOut(f) && !HoldsRows(f)
    ensures var t, ft, name := f.goType, FieldTypeOf(g, f), Display(g, f.goType);
            && (IsTime(g, t) ==> ft == DateTimeField)
            && (!IsTime(g, t) && IsSpecial(name) ==> Some(ft) == NamedType(name))
            && (!IsTime(g, t) && !IsSpecial(name) ==>
                  && (ft == IntField <==> t.Basic? && t.basicKind == IntKind)
                  && (ft == Int64Field <==> t.Basic? && t.basicKind == Int64Kind)
                  && (ft == Float64Field <==> t.Basic? && t.basicKind == Float64Kind)
                  && (ft == BoolField <==> t.Basic? && t.basicKind == BoolKind)
                  && (ft == JSONField <==> t.Slice? && t.elem.Basic? && t.elem.basicKind == Uint8Kind)
                  && ft in {StringField, IntField, Int64Field, Float64Field, BoolField, JSONField})
  {
    ChildHoldsRows(g, f);
    NamedExactly(Display(g, f.goType));
  }

  /** What one field adds to the plain fields. */
  function PlainOf(g: TypeGraph, f: StructField): seq<Parsed> {
    if Ignored(f) || IsChild(g, f) then [] else [Parsed(f.name, FieldTypeOf(g, f))]
  }

  /** What one field adds to the child tables: the plain fields of its row type,
      whose own child tables are dropped. */
  function ChildOf(g: TypeGraph, f: StructField): seq<Child>
    requires FieldClosed(g, f)
  {
    if IsChild(g, f) then
      var row := g[f.goType.elem.id];
      [Child(f.name, row.name, PlainFields(g, row.fields))]
    else []
  }

  /** The plain fields of a struct, in order. */
  function PlainFields(g: TypeGraph, fs: seq<StructField>): seq<Parsed> {
    if fs == [] then [] else PlainFields(g, fs[..|fs| - 1]) + PlainOf(g, fs[|fs| - 1])
  }

  /** The child tables of a struct, in order. */
  function ChildTables(g: TypeGraph, fs: seq<StructField>): seq<Child>
    requires forall i :: 0 <= i < |fs| ==> FieldClosed(g, fs[i])
  {
    if fs == [] then [] else ChildTables(g, fs[..|fs| - 1]) + ChildOf(g, fs[|fs| - 1])
  }

  predicate FieldClosed(g: TypeGraph, f: StructField) {
    f.goType.Slice? && f.goType.elem.Struct? ==> f.goType.elem.id in g
  }

  /** Every struct type a field mentions is in the graph. */
  ghost predicate Closed(g: TypeGraph) {
    forall id, f :: id in g && f in g[id].fields ==> FieldClosed(g, f)
  }

  ghost predicate ChildEdge(g: TypeGraph, a: string, b: string) {
    a in g && exists f :: f in g[a].fields && HoldsRows(f) && f.goType.elem.id == b
  }

  ghost function ChildEdges(g: TypeGraph): Edges {
    (a, b) => ChildEdge(g, a, b)
  }

  /** Some walk of child edges from a type comes back to the path or to itself, on
      a type of the given name. */
  ghost predicate RevisitNames(g: TypeGraph, visited: seq<string>, id: string, name: string) {
    exists to :: RevisitTo(ChildEdges(g), visited, id, to) && to in g && g[to].name == name
  }

  /** No walk through the field comes back to the path. */
  ghost predicate Cleared(g: TypeGraph, path: seq<string>, f: StructField) {
    IsChild(g, f) ==> !RevisitFrom(ChildEdges(g), path, f.goType.elem.id)
  }

  ghost predicate ClearedTo(g: TypeGraph, path: seq<string>, fs: seq<StructField>, n: nat)
    requires n <= |fs|
  {
    forall j :: 0 <= j < n ==> Cleared(g, path, fs[j])
  }

  lemma ClearedNext(g: TypeGraph, path: seq<string>, fs: seq<StructField>, n: nat)
    requires n < |fs| && ClearedTo(g, path, fs, n) && Cleared(g, path, fs[n])
    ensures ClearedTo(g, path, fs, n + 1)
  {
  }

  lemma RevisitByField(g: TypeGraph, visited: seq<string>, id: string) returns (i: nat)
    requires id !in visited && id in g && RevisitFrom(ChildEdges(g), visited, id)
    ensures i < |g[id].fields| && !Cleared(g, visited + [id], g[id].fields[i])
  {
    var next := RevisitLeaves(ChildEdges(g), visited, id);
    var f :| f in g[id].fields && HoldsRows(f) && f.goType.elem.id == next;
    ChildHoldsRows(g, f);
    i :| 0 <= i < |g[id].fields| && g[id].fields[i] == f;
  }

  lemma NoRevisit(g: TypeGraph, visited: seq<string>, id: string)
    requires id !in visited && id in g && ClearedTo(g, visited + [id], g[id].fields, |g[id].fields|)
    ensures !RevisitFrom(ChildEdges(g), visited, id)
  {
    if RevisitFrom(ChildEdges(g), visited, id) {
      var i := RevisitByField(g, visited, id);
    }
  }

  lemma RevisitNamed(g: TypeGraph, visited: seq<string>, id: string, b: string, name: string)
    requires ChildEdge(g, id, b) && RevisitNames(g, visited + [id], b, name)
    ensures RevisitNames(g, visited, id, name) && RevisitFrom(ChildEdges(g), visited, id)
  {
    var to :| RevisitTo(ChildEdges(g), visited + [id], b, to) && to in g && g[to].name == name;
    RevisitThrough(ChildEdges(g), visited, id, b, to);
  }

  /** The measure of the recursion: the types not yet on the path. */
  ghost function OffPath(g: TypeGraph, visited: seq<string>): set<string> {
    set id | id in g && id !in visited
  }

  lemma PathGrows(g: TypeGraph, visited: seq<string>, id: string)
    requires id in g && id !in visited
    ensures OffPath(g, visited + [id]) < OffPath(g, visited)
  {
    assert id in OffPath(g, visited) && id !in OffPath(g, visited + [id]);
  }

  method OnPath(visited: seq<string>, id: string) returns (found: bool)
    ensures found <==> id in visited
  {
    for i := 0 to |visited|
      invariant id !in visited[..i]
    {
      if visited[i] == id {
        return true;
      }
    }
    return false;
  }

  /** parseFieldsInternal. It ends on every finite graph, since each call puts a
      new type on the path; it fails exactly when some child-table walk from the
      type comes back to the path; otherwise it returns the plain fields and one
      child table per child field. */
  method ParseFieldsInternal(g: TypeGraph, t: GoType, visited: seq<string>)
      returns (r: Result<(seq<Parsed>, seq<Child>), string>)
    requires Closed(g) && StructIn(g, t)
    ensures RootOf(t).None? ==> r == Ok(([], []))
    ensures RootOf(t).Some? ==> (r.Err? <==> RevisitFrom(ChildEdges(g), visited, RootOf(t).value))
    ensures RootOf(t).Some? && r.Err? ==> RevisitNames(g, visited, RootOf(t).value, r.error)
    ensures RootOf(t).Some? && r.Ok? ==>
              var fs := g[RootOf(t).value].fields;
              r.value == (PlainFields(g, fs), ChildTables(g, fs))
    decreases OffPath(g, visited), 0
  {
    var t' := if t.Pointer? then t.elem else t;
    if !t'.Struct? {
      return Ok(([], []));
    }
    var id := t'.id;
    var circular := OnPath(visited, id);
    if circular {
      RevisitHere(ChildEdges(g), visited, id);
      return Err(g[id].name);
    }
    PathGrows(g, visited, id);
    r := ParseStruct(g, id, visited + [id]);
    if r.Err? {
      ghost var b :| ChildEdge(g, id, b) && RevisitNames(g, visited + [id], b, r.error);
      RevisitNamed(g, visited, id, b, r.error);
    } else {
      NoRevisit(g, visited, id);
    }
  }

  /** The loop of parseFieldsInternal over the fields of a struct type that has just
      been put on the path. */
  method ParseStruct(g: TypeGraph, id: string, path: seq<string>)
      returns (r: Result<(seq<Parsed>, seq<Child>), string>)
    requires Closed(g) && id in g
    ensures r.Ok? ==>
              && (forall j :: 0 <= j < |g[id].fields| ==> FieldClosed(g, g[id].fields[j]))
              && r.value == (PlainFields(g, g[id].fields), ChildTables(g, g[id].fields))
              && ClearedTo(g, path, g[id].fields, |g[id].fields|)
    ensures r.Err? ==> exists b :: ChildEdge(g, id, b) && RevisitNames(g, path, b, r.error)
    decreases OffPath(g, path), 2
  {
    var all := g[id].fields;
    assert forall j :: 0 <= j < |all| ==> all[j] in all && FieldClosed(g, all[j]);
    var fields: seq<Parsed>, children: seq<Child> := [], [];
    for i := 0 to |all|
      invariant fields == PlainFields(g, all[..i]) && children == ChildTables(g, all[..i])
      invariant ClearedTo(g, path, all, i)
    {
      var parsed := ParseField(g, id, all[i], path);
      if parsed.Err? {
        assert ChildEdge(g, id, all[i].goType.elem.id);
        return Err(parsed.error);
      }
      ClearedNext(g, path, all, i);
      OneMoreField(g, all, i);
      fields := fields + parsed.value.0;
      children := children + parsed.value.1;
    }
    assert all[..|all|] == all;
    return Ok((fields, children));
  }

  lemma OneMoreField(g: TypeGraph, fs: seq<StructField>, i: nat)
    requires i < |fs| && forall j :: 0 <= j < |fs| ==> FieldClosed(g, fs[j])
    ensures PlainFields(g, fs[..i + 1]) == PlainFields(g, fs[..i]) + PlainOf(g, fs[i])
    ensures ChildTables(g, fs[..i + 1]) == ChildTables(g, fs[..i]) + ChildOf(g, fs[i])
  {
    assert fs[..i + 1][..i] == fs[..i];
  }

  /** The loop body of parseFieldsInternal: what one field adds. */
  method ParseField(g: TypeGraph, id: string, f: StructField, path: seq<string>)
      returns (r: Result<(seq<Parsed>, seq<Child>), string>)
    requires Closed(g) && id in g && f in g[id].fields
    ensures r.Ok? ==> FieldClosed(g, f) && r.value == (PlainOf(g, f), ChildOf(g, f)) && Cleared(g, path, f)
    ensures r.Err? ==>
              && IsChild(g, f) && ChildEdge(g, id, f.goType.elem.id)
              && RevisitNames(g, path, f.goType.elem.id, r.error)
    decreases OffPath(g, path), 1
  {
    assert FieldClosed(g, f);
    ChildHoldsRows(g, f);
    if Ignored(f) {
      return Ok(([], []));
    }
    var fType := FieldTypeOf(g, f);
    if fType == ChildTableField {
      var elem := f.goType.elem;
      var sub := ParseFieldsInternal(g, elem, path);
      if sub.Err? {
        return Err(sub.error);
      }
      return Ok(([], [Child(f.name, g[elem.id].name, sub.value.0)]));
    }
    return Ok(([Parsed(f.name, fType)], []));
  }

  // ----- what is returned -----

  /** The fields that are no child tables and not left out. */
  predicate IsData(f: StructField) {
    !LeftOut(f) && !HoldsRows(f)
  }

  function DataFields(fs: seq<StructField>): seq<StructField> {
    if fs == [] then [] else DataFields(fs[..|fs| - 1]) + (if IsData(fs[|fs| - 1]) then [fs[|fs| - 1]] else [])
  }

  function RowFields(fs: seq<StructField>): (rows: seq<StructField>)
    ensures forall f :: f in rows ==> f in fs && HoldsRows(f)
  {
    if fs == [] then [] else RowFields(fs[..|fs| - 1]) + (if HoldsRows(fs[|fs| - 1]) then [fs[|fs| - 1]] else [])
  }

  /** One for each of these fields, in order. */
  ghost predicate FieldsListed(g: TypeGraph, data: seq<StructField>, fields: seq<Parsed>) {
    && |fields| == |data|
    && forall k :: 0 <= k < |data| ==> fields[k] == Parsed(data[k].name, FieldTypeOf(g, data[k]))
  }

  /** One for each of these fields, in order, with the data fields of its row type. */
  ghost predicate ChildrenListed(g: TypeGraph, rows: seq<StructField>, children: seq<Child>) {
    |children| == |rows| && forall k :: 0 <= k < |rows| ==> ChildListed(g, rows[k], children[k])
  }

  ghost predicate ChildListed(g: TypeGraph, f: StructField, child: Child) {
    && f.goType.Slice? && f.goType.elem.Struct? && f.goType.elem.id in g
    && child.fieldName == f.name && child.typeName == g[f.goType.elem.id].name
    && FieldsListed(g, DataFields(g[f.goType.elem.id].fields), child.fields)
  }

  lemma {:induction false} PlainFieldsListed(g: TypeGraph, fs: seq<StructField>)
    ensures FieldsListed(g, DataFields(fs), PlainFields(g, fs))
  {
    if fs != [] {
      var n := |fs| - 1;
      PlainFieldsListed(g, fs[..n]);
      ChildHoldsRows(g, fs[n]);
    }
  }

  lemma {:induction false} ChildTablesListed(g: TypeGraph, fs: seq<StructField>)
    requires forall i :: 0 <= i < |fs| ==> FieldClosed(g, fs[i])
    ensures ChildrenListed(g, RowFields(fs), ChildTables(g, fs))
  {
    if fs != [] {
      var n := |fs| - 1;
      ChildTablesListed(g, fs[..n]);
      ChildHoldsRows(g, fs[n]);
      if HoldsRows(fs[n]) { PlainFieldsListed(g, g[fs[n].goType.elem.id].fields); }
    }
  }

  /** The struct type a parse starts at, after one pointer is removed. */
  function RootOf(t: GoType): Option<string> {
    var t' := if t.Pointer? then t.elem else t;
    if t'.Struct? then Some(t'.id) else None
  }

  ghost predicate StructIn(g: TypeGraph, t: GoType) {
    RootOf(t).Some? ==> RootOf(t).value in g
  }

  /** ParseFields: the circular error is returned exactly when a cycle of child
      tables is reachable from the document's struct type; otherwise there is one
      field for each data field and one child table for each field of rows. */
  method ParseFields(g: TypeGraph, root: string) returns (r: Result<(seq<Parsed>, seq<Child>), string>)
    requires Closed(g) && root in g
    ensures r.Err? <==> CycleReachable(ChildEdges(g), root)
    ensures r.Ok? ==> r.value == (PlainFields(g, g[root].fields), ChildTables(g, g[root].fields))
    ensures r.Ok? ==> FieldsListed(g, DataFields(g[root].fields), r.value.0)
    ensures r.Ok? ==> ChildrenListed(g, RowFields(g[root].fields), r.value.1)
  {
    r := ParseFieldsInternal(g, Struct(root), []);
    RevisitIsCycle(ChildEdges(g), root);
    var fs := g[root].fields;
    assert forall j :: 0 <= j < |fs| ==> fs[j] in fs && FieldClosed(g, fs[j]);
    PlainFieldsListed(g, fs);
    ChildTablesListed(g, fs);
  }
}
