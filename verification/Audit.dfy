/** The audit log's view of a change (audit/audit.go): which fields of a row
    changed, and what replaying such changes rebuilds. */
module Audit {
  import opened Wrappers
  import opened Values

  datatype Change = Change(old_: Value, new_: Value)

  /** One change for each field; the order within an entry is the map's own. */
  type Changes = map<string, Change>

  datatype Action = CreateAction | UpdateAction | DeleteAction

  datatype Entry = Entry(action: Action, docID: string, changes: Changes)

  predicate ValuesEqual(a: Value, b: Value) {
    if a == Null || b == Null then a == b else Sprint(a) == Sprint(b)
  }

  /** The two rows print alike in every field. */
  ghost predicate SamePrinted(a: Row, b: Row) {
    forall k :: ValuesEqual(Get(a, k), Get(b, k))
  }

  predicate Differs(old_: Row, new_: Row, k: string) {
    if k in new_ then !ValuesEqual(Get(old_, k), new_[k]) else k in old_
  }

  /** changes are those from one row to the other. */
  ghost predicate IsDiffOf(old_: Row, new_: Row, changes: Changes) {
    && (forall k :: k in changes <==> Differs(old_, new_, k))
    && (forall k :: k in changes ==> changes[k] == Change(Get(old_, k), Get(new_, k)))
  }

  /** DiffMaps: the fields of the new row, then those only the old one had. */
  method DiffMaps(oldRow: Row, newRow: Row) returns (changes: Changes)
    ensures IsDiffOf(oldRow, newRow, changes)
  {
    changes := map[];
    var seen: set<string> := {};
    var todo := newRow.Keys;
    while todo != {}
      invariant todo <= newRow.Keys && seen == newRow.Keys - todo
      invariant forall k :: k in changes <==> k in seen && Differs(oldRow, newRow, k)
      invariant forall k :: k in changes ==> changes[k] == Change(Get(oldRow, k), Get(newRow, k))
      decreases todo
    {
      var k :| k in todo;
      seen := seen + {k};
      todo := todo - {k};
      if !ValuesEqual(Get(oldRow, k), newRow[k]) {
        changes := changes[k := Change(Get(oldRow, k), newRow[k])];
      }
    }
    todo := oldRow.Keys;
    while todo != {}
      invariant todo <= oldRow.Keys
      invariant forall k :: k in changes <==> Differs(oldRow, newRow, k) && (k in newRow || k !in todo)
      invariant forall k :: k in changes ==> changes[k] == Change(Get(oldRow, k), Get(newRow, k))
      decreases todo
    {
      var k :| k in todo;
      todo := todo - {k};
      if k !in seen {
        changes := changes[k := Change(oldRow[k], Null)];
      }
    }
  }

  /** The row after the new values of a set of changes. */
  function Patch(row: Row, changes: Changes): Row {
    row + map k | k in changes :: changes[k].new_
  }

  /** Replaying a record's entries in order from nothing. */
  function Replay(log: seq<Entry>, id: string): Row {
    if log == [] then map[] else
    var e, before := log[|log| - 1], Replay(log[..|log| - 1], id);
    if e.docID == id then Patch(before, e.changes) else before
  }

  /** A diff carries any row that prints like the old one to one that prints like
      the new one. */
  lemma PatchRebuilds(row: Row, old_: Row, new_: Row, changes: Changes)
    requires SamePrinted(row, old_) && IsDiffOf(old_, new_, changes)
    ensures SamePrinted(Patch(row, changes), new_)
  {
    forall k ensures ValuesEqual(Get(Patch(row, changes), k), Get(new_, k)) {
      assert ValuesEqual(Get(row, k), Get(old_, k));
    }
  }

  lemma SamePrintedTransitive(a: Row, b: Row, c: Row)
    requires SamePrinted(a, b) && SamePrinted(b, c)
    ensures SamePrinted(a, c)
  {
    forall k ensures ValuesEqual(Get(a, k), Get(c, k)) {
      assert ValuesEqual(Get(a, k), Get(b, k)) && ValuesEqual(Get(b, k), Get(c, k));
    }
  }

  lemma ReplayAppend(log: seq<Entry>, e: Entry, id: string)
    ensures Replay(log + [e], id) == if e.docID == id then Patch(Replay(log, id), e.changes) else Replay(log, id)
  {
    assert (log + [e])[..|log|] == log;
  }
}
