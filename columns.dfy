/**
 * The kanban column order and the two rules read from it: which columns are
 * neighbours (the only legal moves) and which column follows a given one (the
 * target of a chat request). Columns are plain strings, as in the game, so an
 * unknown name is representable and `indexOf` answers -1 for it.
 */
module Columns {
  import opened Wrappers
  import opened Sequences

  /** The five columns of every board, left to right. */
  const COLUMN_ORDER: seq<string> := ["todo", "doing", "qa", "customer-qa", "done"]

  /** The position of a column in COLUMN_ORDER, -1 for an unknown name. */
  function ColumnIndex(column: string): int {
    IndexOf(COLUMN_ORDER, column)
  }

  /** Each column of COLUMN_ORDER is found at its own position. */
  lemma ColumnIndexAt(k: int)
    requires 0 <= k < |COLUMN_ORDER|
    ensures ColumnIndex(COLUMN_ORDER[k]) == k
  {
    var r := ColumnIndex(COLUMN_ORDER[k]);
    assert COLUMN_ORDER[k] in COLUMN_ORDER;
    assert 0 <= r && COLUMN_ORDER[r] == COLUMN_ORDER[k];
  }

  /** `areNeighborColumns`: the two positions differ by exactly one. */
  predicate AreNeighborColumns(fromColumn: string, toColumn: string) {
    var d := ColumnIndex(fromColumn) - ColumnIndex(toColumn);
    d == 1 || d == -1
  }

  /**
   * An independent reading of adjacency: one column directly follows the
   * other in COLUMN_ORDER, or one is "todo" and the other is not a column at
   * all (its -1 sits next to the 0 of "todo").
   */
  ghost predicate Adjacent(a: string, b: string) {
    (exists k :: 0 <= k < |COLUMN_ORDER| - 1 && COLUMN_ORDER[k] == a && COLUMN_ORDER[k + 1] == b)
    || (exists k :: 0 <= k < |COLUMN_ORDER| - 1 && COLUMN_ORDER[k] == b && COLUMN_ORDER[k + 1] == a)
    || (a == "todo" && b !in COLUMN_ORDER)
    || (b == "todo" && a !in COLUMN_ORDER)
  }

  /** Index difference one means adjacent in the order, or "todo" beside an unknown name. */
  lemma NeighborsAreAdjacent(a: string, b: string)
    requires AreNeighborColumns(a, b)
    ensures Adjacent(a, b)
  {
    var i, j := ColumnIndex(a), ColumnIndex(b);
    ColumnIndexAt(0);
    if i == -1 {
      assert j == 0 && b == "todo";
    } else if j == -1 {
      assert i == 0 && a == "todo";
    } else if i + 1 == j {
      assert COLUMN_ORDER[i] == a && COLUMN_ORDER[i + 1] == b;
    } else {
      assert COLUMN_ORDER[j] == b && COLUMN_ORDER[j + 1] == a;
    }
  }

  /** Adjacent columns differ in index by one. */
  lemma AdjacentAreNeighbors(a: string, b: string)
    requires Adjacent(a, b)
    ensures AreNeighborColumns(a, b)
  {
    ColumnIndexAt(0);
    if k :| 0 <= k < |COLUMN_ORDER| - 1 && COLUMN_ORDER[k] == a && COLUMN_ORDER[k + 1] == b {
      ColumnIndexAt(k);
      ColumnIndexAt(k + 1);
    } else if k :| 0 <= k < |COLUMN_ORDER| - 1 && COLUMN_ORDER[k] == b && COLUMN_ORDER[k + 1] == a {
      ColumnIndexAt(k);
      ColumnIndexAt(k + 1);
    }
  }

  lemma AreNeighborColumnsIsAdjacent(a: string, b: string)
    ensures AreNeighborColumns(a, b) <==> Adjacent(a, b)
    ensures AreNeighborColumns(a, b) <==> AreNeighborColumns(b, a)
    ensures !AreNeighborColumns(a, a)
  {
    if AreNeighborColumns(a, b) {
      NeighborsAreAdjacent(a, b);
    }
    if Adjacent(a, b) {
      AdjacentAreNeighbors(a, b);
    }
  }

  /** As written, any name that is not a column counts as a neighbour of "todo". */
  lemma UnknownColumnNeighboursTodo(x: string)
    requires x !in COLUMN_ORDER
    ensures AreNeighborColumns("todo", x) && AreNeighborColumns(x, "todo")
  {
    ColumnIndexAt(0);
  }

  /** `getNextColumn`: the column after `current`, None for "done" or an unknown name. */
  function GetNextColumn(current: string): (r: Option<string>)
    ensures r.Some? <==> current in COLUMN_ORDER && current != "done"
    ensures r.Some? ==> r.value in COLUMN_ORDER && ColumnIndex(r.value) == ColumnIndex(current) + 1
    ensures r.Some? ==> AreNeighborColumns(current, r.value)
  {
    var index := ColumnIndex(current);
    if 0 <= index < |COLUMN_ORDER| - 1 then
      ColumnIndexAt(index + 1);
      Some(COLUMN_ORDER[index + 1])
    else
      ColumnIndexAt(|COLUMN_ORDER| - 1);
      None
  }
}
