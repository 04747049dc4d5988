/** How tool names are built from DocType names (agent/tools/tools.go) and taken
    apart again (agent/runtime/runtime.go). */
module ToolNames {
  import opened Wrappers
  import opened Strings

  predicate IsUpper(c: char) { 'A' <= c <= 'Z' }
  predicate IsAlnum(c: char) { IsUpper(c) || 'a' <= c <= 'z' || '0' <= c <= '9' }

  /** ASCII letters and digits, starting with a capital. */
  predicate IsDocName(s: string) {
    s != "" && IsUpper(s[0]) && forall i :: 0 <= i < |s| ==> IsAlnum(s[i])
  }

  /** What snakeCase writes for the characters after the first. */
  function SnakeTail(s: string): string {
    if s == "" then ""
    else if IsUpper(s[0]) then ['_', LowerChar(s[0])] + SnakeTail(s[1..])
    else [s[0]] + SnakeTail(s[1..])
  }

  function Snake(s: string): string {
    if s == "" then "" else [LowerChar(s[0])] + SnakeTail(s[1..])
  }

  lemma {:induction false} SnakeTailAppend(s: string, c: char)
    ensures SnakeTail(s + [c]) == SnakeTail(s) + (if IsUpper(c) then ['_', LowerChar(c)] else [c])
  {
    if s != "" {
      assert (s + [c])[1..] == s[1..] + [c];
      SnakeTailAppend(s[1..], c);
    }
  }

  /** snakeCase: one pass writing to a string builder. */
  method SnakeCase(s: string) returns (out: string)
    ensures out == Snake(s)
  {
    out := "";
    for i := 0 to |s|
      invariant out == Snake(s[..i])
    {
      var r := s[i];
      if i > 0 {
        SnakeTailAppend(s[1..i], r);
        assert s[..i + 1][1..] == s[1..i] + [r] && s[..i][1..] == s[1..i];
      }
      if i > 0 && IsUpper(r) {
        out := out + ['_'];
      }
      out := out + [LowerChar(r)];
    }
    assert s[..|s|] == s;
  }

  // ----- snake_case can be undone -----

  function UnsnakeTail(t: string): string {
    if t == "" then ""
    else if t[0] == '_' && |t| > 1 then [UpperChar(t[1])] + UnsnakeTail(t[2..])
    else [t[0]] + UnsnakeTail(t[1..])
  }

  function Unsnake(t: string): string {
    if t == "" then "" else [UpperChar(t[0])] + UnsnakeTail(t[1..])
  }

  lemma {:induction false} UnsnakeTailOf(s: string)
    requires forall i :: 0 <= i < |s| ==> IsAlnum(s[i])
    ensures UnsnakeTail(SnakeTail(s)) == s
  {
    if s != "" {
      UnsnakeTailOf(s[1..]);
      var rest := SnakeTail(s[1..]);
      if IsUpper(s[0]) {
        assert (['_', LowerChar(s[0])] + rest)[2..] == rest;
      } else {
        assert ([s[0]] + rest)[1..] == rest;
      }
    }
  }

  lemma UnsnakeOf(name: string)
    requires IsDocName(name)
    ensures Unsnake(Snake(name)) == name
  {
    UnsnakeTailOf(name[1..]);
    assert Snake(name)[1..] == SnakeTail(name[1..]);
  }

  lemma SnakeInjective(a: string, b: string)
    requires IsDocName(a) && IsDocName(b)
    ensures Snake(a) == Snake(b) <==> a == b
  {
    UnsnakeOf(a);
    UnsnakeOf(b);
  }

  /** Both halves of the naming rule are needed: a lower-case initial or an
      underscore makes two DocTypes share their tool names. */
  lemma SnakeCollides()
    ensures Snake("employee") == Snake("Employee")
    ensures Snake("A_b") == Snake("AB")
  {
    assert "employee"[1..] == "mployee" && "Employee"[1..] == "mployee";
    assert "A_b"[1..] == "_b" && "_b"[1..] == "b" && "b"[1..] == "" && "AB"[1..] == "B" && "B"[1..] == "";
  }

  // ----- operation tools -----

  const OPERATION_PREFIXES: seq<string> :=
    ["create_", "update_", "delete_", "get_", "list_", "search_", "execute_action_"]

  /** splitOperationTool: the first matching prefix without its underscore, and
      the rest; a pair of empty strings when no prefix matches. */
  function SplitOperationTool(name: string): (string, string) {
    SplitBy(name, OPERATION_PREFIXES)
  }

  function SplitBy(name: string, prefixes: seq<string>): (string, string) {
    if prefixes == [] then ("", "")
    else if HasPrefix(name, prefixes[0]) && prefixes[0] != "" then
      (prefixes[0][..|prefixes[0]| - 1], TrimPrefix(name, prefixes[0]))
    else SplitBy(name, prefixes[1..])
  }

  /** No two operation prefixes start with the same letter. */
  lemma PrefixInitials(i: nat, j: nat)
    requires i < j < |OPERATION_PREFIXES|
    ensures OPERATION_PREFIXES[i] != "" && OPERATION_PREFIXES[j] != "" &&
            OPERATION_PREFIXES[i][0] != OPERATION_PREFIXES[j][0]
  {
  }

  lemma {:induction false} SplitFinds(name: string, prefixes: seq<string>, i: nat)
    requires i < |prefixes| && prefixes[i] != "" && HasPrefix(name, prefixes[i])
    requires forall j :: 0 <= j < i ==> !HasPrefix(name, prefixes[j])
    ensures SplitBy(name, prefixes) == (prefixes[i][..|prefixes[i]| - 1], name[|prefixes[i]|..])
  {
    if i > 0 {
      assert !HasPrefix(name, prefixes[0]);
      SplitFinds(name, prefixes[1..], i - 1);
    }
  }

  lemma SplitOf(i: nat, rest: string)
    requires i < |OPERATION_PREFIXES|
    ensures var p := OPERATION_PREFIXES[i];
            p != "" && SplitOperationTool(p + rest) == (p[..|p| - 1], rest)
  {
    var p := OPERATION_PREFIXES[i];
    forall j | 0 <= j < i ensures !HasPrefix(p + rest, OPERATION_PREFIXES[j]) {
      PrefixInitials(j, i);
    }
    assert p != "";
    SplitFinds(p + rest, OPERATION_PREFIXES, i);
  }

  // ----- the runtime's map back to DocTypes -----

  ghost predicate DocNames(docs: seq<string>) {
    && (forall d :: d in docs ==> IsDocName(d))
    && (forall i, j :: 0 <= i < j < |docs| ==> docs[i] != docs[j])
  }

  lemma SnakesDistinct(docs: seq<string>) returns (keys: seq<string>)
    requires DocNames(docs)
    ensures |keys| == |docs| && forall i :: 0 <= i < |docs| ==> keys[i] == Snake(docs[i])
    ensures forall i, j :: 0 <= i < j < |keys| ==> keys[i] != keys[j]
  {
    keys := seq(|docs|, i requires 0 <= i < |docs| => Snake(docs[i]));
    forall i, j | 0 <= i < j < |keys| ensures keys[i] != keys[j] {
      SnakeInjective(docs[i], docs[j]);
    }
  }

  /** buildMaps, the part for DocTypes. */
  method BuildDocTypeByTool(docs: seq<string>) returns (m: map<string, string>)
    requires DocNames(docs)
    ensures |m| == |docs| && Indexes(m, docs)
  {
    m := map[];
    ghost var keys := SnakesDistinct(docs);
    for i := 0 to |docs|
      invariant |m| == i && forall t :: t in m ==> t in keys[..i]
      invariant forall j :: 0 <= j < i ==> keys[j] in m && m[keys[j]] == docs[j]
    {
      var key := SnakeCase(docs[i]);
      assert key == keys[i] && key !in m;
      m := m[key := docs[i]];
    }
  }

  /** docTypeFor: "" when the name is not an operation tool of a known DocType. */
  function DocTypeFor(m: map<string, string>, toolName: string): string {
    var (op, rest) := SplitOperationTool(toolName);
    if op != "" && rest in m then m[rest] else ""
  }

  /** What BuildDocTypeByTool promises. */
  ghost predicate Indexes(m: map<string, string>, docs: seq<string>) {
    forall d :: d in docs ==> Snake(d) in m && m[Snake(d)] == d
  }

  /** A tool name gives back the verb and the DocType it was built from. */
  lemma ToolNameRoundTrip(docs: seq<string>, m: map<string, string>, i: nat, d: string)
    requires Indexes(m, docs) && d in docs && i < |OPERATION_PREFIXES|
    ensures SplitOperationTool(OPERATION_PREFIXES[i] + Snake(d)).0 + "_" == OPERATION_PREFIXES[i]
    ensures DocTypeFor(m, OPERATION_PREFIXES[i] + Snake(d)) == d
  {
    SplitOf(i, Snake(d));
  }

  // ----- generated tool names -----

  datatype DocTools = DocTools(
    name: string,
    searchable: bool,
    canCreate: bool,
    canWrite: bool,
    canDelete: bool,
    hasWorkflow: bool)

  /** Which of the operation prefixes generateDocTemplates uses for a document. */
  predicate Offers(doc: DocTools, i: nat)
    requires i < |OPERATION_PREFIXES|
  {
    match i
    case 0 => doc.canCreate
    case 1 => doc.canWrite
    case 2 => doc.canDelete
    case 5 => doc.searchable
    case 6 => doc.hasWorkflow
    case _ => true  // get_ and list_
  }

  /** The names a document offers, one by one. */
  lemma OfferedNames(doc: DocTools, n: string)
    ensures (exists i ::
              0 <= i < |OPERATION_PREFIXES| && Offers(doc, i) && n == OPERATION_PREFIXES[i] + Snake(doc.name))
            <==>
            || (doc.canCreate && n == "create_" + Snake(doc.name))
            || (doc.canWrite && n == "update_" + Snake(doc.name))
            || (doc.canDelete && n == "delete_" + Snake(doc.name))
            || n == "get_" + Snake(doc.name)
            || n == "list_" + Snake(doc.name)
            || (doc.searchable && n == "search_" + Snake(doc.name))
            || (doc.hasWorkflow && n == "execute_action_" + Snake(doc.name))
  {
    var p := OPERATION_PREFIXES;
    assert p[0] == "create_" && p[1] == "update_" && p[2] == "delete_" && p[3] == "get_" && p[4] == "list_";
    assert p[5] == "search_" && p[6] == "execute_action_";
    if i :| 0 <= i < |p| && Offers(doc, i) && n == p[i] + Snake(doc.name) {
      assert i in {0, 1, 2, 3, 4, 5, 6};
    }
    assert Offers(doc, 3) && Offers(doc, 4);
    assert doc.canCreate ==> Offers(doc, 0);
    assert doc.canWrite ==> Offers(doc, 1);
    assert doc.canDelete ==> Offers(doc, 2);
    assert doc.searchable ==> Offers(doc, 5);
    assert doc.hasWorkflow ==> Offers(doc, 6);
  }

  /** out holds the names for the prefixes in used, one for one and each once. */
  ghost predicate Emitted(snake: string, used: seq<nat>, out: seq<string>) {
    && |used| == |out|
    && (forall k :: 0 <= k < |used| ==> used[k] < |OPERATION_PREFIXES| && out[k] == OPERATION_PREFIXES[used[k]] + snake)
    && (forall j, k :: 0 <= j < k < |used| ==> used[j] != used[k])
  }

  method Emit(out: seq<string>, i: nat, snake: string, ghost used: seq<nat>)
      returns (out': seq<string>, ghost used': seq<nat>)
    requires i < |OPERATION_PREFIXES| && Emitted(snake, used, out) && i !in used
    ensures Emitted(snake, used', out') && forall j :: j in used' <==> j in used || j == i
  {
    out', used' := out + [OPERATION_PREFIXES[i] + snake], used + [i];
  }

  /** The names generateDocTemplates emits, in its order: exactly one for each
      operation the document offers. */
  method GenerateNames(doc: DocTools) returns (out: seq<string>)
    ensures forall i, j :: 0 <= i < j < |out| ==> out[i] != out[j]
    ensures forall n :: n in out <==>
              exists i ::
                0 <= i < |OPERATION_PREFIXES| && Offers(doc, i) && n == OPERATION_PREFIXES[i] + Snake(doc.name)
  {
    out := [];
    ghost var used: seq<nat> := [];
    var snake := SnakeCase(doc.name);
    if doc.searchable { out, used := Emit(out, 5, snake, used); }
    out, used := Emit(out, 4, snake, used);
    out, used := Emit(out, 3, snake, used);
    if doc.canCreate { out, used := Emit(out, 0, snake, used); }
    if doc.canWrite { out, used := Emit(out, 1, snake, used); }
    if doc.canDelete { out, used := Emit(out, 2, snake, used); }
    if doc.hasWorkflow { out, used := Emit(out, 6, snake, used); }
    NamesOfPrefixes(snake, used, out);
    assert forall i :: 0 <= i < |OPERATION_PREFIXES| ==> (Offers(doc, i) <==> i in used);
  }

  lemma NamesOfPrefixes(snake: string, used: seq<nat>, out: seq<string>)
    requires Emitted(snake, used, out)
    ensures forall j, k :: 0 <= j < k < |out| ==> out[j] != out[k]
    ensures forall n :: n in out <==> exists i :: i in used && n == OPERATION_PREFIXES[i] + snake
  {
    forall j, k | 0 <= j < k < |out| ensures out[j] != out[k] {
      if used[j] < used[k] { PrefixInitials(used[j], used[k]); } else { PrefixInitials(used[k], used[j]); }
      assert out[j][0] == OPERATION_PREFIXES[used[j]][0] && out[k][0] == OPERATION_PREFIXES[used[k]][0];
    }
  }

  /** Two generated names are equal only if verb and DocType are. */
  lemma ToolNamesDistinct(i: nat, a: string, j: nat, b: string)
    requires i < |OPERATION_PREFIXES| && j < |OPERATION_PREFIXES| && IsDocName(a) && IsDocName(b)
    ensures OPERATION_PREFIXES[i] + Snake(a) == OPERATION_PREFIXES[j] + Snake(b) <==> i == j && a == b
  {
    SplitOf(i, Snake(a));
    SplitOf(j, Snake(b));
    SnakeInjective(a, b);
    if i < j { PrefixInitials(i, j); }
    if j < i { PrefixInitials(j, i); }
  }

  const DISCOVERY_TOOLS: set<string> := {"list_document_types", "describe_document", "list_relationships"}

  /** A generated name collides with a discovery tool for exactly two DocTypes. */
  lemma DiscoveryCollisions(i: nat, d: string)
    requires i < |OPERATION_PREFIXES| && IsDocName(d)
    ensures OPERATION_PREFIXES[i] + Snake(d) in DISCOVERY_TOOLS <==>
            OPERATION_PREFIXES[i] == "list_" && (d == "DocumentTypes" || d == "Relationships")
  {
    CollidesWithDocumentTypes(i, d, "DocumentTypes");
    CollidesWithRelationships(i, d, "Relationships");
    NotDescribe(i, Snake(d));
  }

  lemma CollidesWithDocumentTypes(i: nat, d: string, word: string)
    requires i < |OPERATION_PREFIXES| && IsDocName(d) && word == "DocumentTypes"
    ensures OPERATION_PREFIXES[i] + Snake(d) == "list_document_types" <==> OPERATION_PREFIXES[i] == "list_" && d == word
  {
    SnakeOfWords(word, 8);
    assert word[1..8] == "ocument" && word[9..] == "ypes";
    assert "list_" + Snake(word) == "list_document_types";
    CollidesWithList(i, d, word, "list_document_types");
  }

  lemma CollidesWithRelationships(i: nat, d: string, word: string)
    requires i < |OPERATION_PREFIXES| && IsDocName(d) && word == "Relationships"
    ensures OPERATION_PREFIXES[i] + Snake(d) == "list_relationships" <==> OPERATION_PREFIXES[i] == "list_" && d == word
  {
    SnakeOfWords(word, 13);
    assert word[1..13] == "elationships";
    assert ['r'] + "elationships" + [] == "relationships";
    assert "list_" + "relationships" == "list_relationships";
    CollidesWithList(i, d, word, "list_relationships");
  }

  lemma CollidesWithList(i: nat, d: string, word: string, tool: string)
    requires i < |OPERATION_PREFIXES| && IsDocName(d) && IsDocName(word) && tool == "list_" + Snake(word)
    ensures OPERATION_PREFIXES[i] + Snake(d) == tool <==> OPERATION_PREFIXES[i] == "list_" && d == word
  {
    assert OPERATION_PREFIXES[4] == "list_";
    ToolNamesDistinct(i, d, 4, word);
    if i < 4 { PrefixInitials(i, 4); }
    if 4 < i { PrefixInitials(4, i); }
  }

  lemma NotDescribe(i: nat, rest: string)
    requires i < |OPERATION_PREFIXES|
    ensures OPERATION_PREFIXES[i] + rest != "describe_document"
  {
    var p := OPERATION_PREFIXES[i];
    if i == 2 {
      assert (p + rest)[2] == 'l';
    } else {
      assert p[0] != 'd' && (p + rest)[0] == p[0];
    }
  }

  predicate NoUpper(s: string) {
    forall i :: 0 <= i < |s| ==> !IsUpper(s[i])
  }

  lemma {:induction false} LowerCopied(a: string, b: string)
    requires NoUpper(a)
    ensures SnakeTail(a + b) == a + SnakeTail(b)
  {
    if a == "" {
      assert a + b == b;
    } else {
      assert (a + b)[1..] == a[1..] + b;
      LowerCopied(a[1..], b);
    }
  }

  /** A name of one or two capitalised words. */
  lemma SnakeOfWords(s: string, k: nat)
    requires 1 <= k <= |s| && IsUpper(s[0]) && NoUpper(s[1..k])
    requires k < |s| ==> IsUpper(s[k]) && NoUpper(s[k + 1..])
    ensures Snake(s) == [LowerChar(s[0])] + s[1..k] + (if k == |s| then [] else ['_', LowerChar(s[k])] + s[k + 1..])
  {
    assert s[1..] == s[1..k] + s[k..];
    LowerCopied(s[1..k], s[k..]);
    if k < |s| {
      assert s[k..][1..] == s[k + 1..];
      LowerCopied(s[k + 1..], "");
      assert s[k + 1..] + "" == s[k + 1..];
    }
  }
}
