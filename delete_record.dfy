/**
 * `TableViewTab.delete_record`: one DELETE per distinct selected row, visited
 * from the last row to the first, each keyed the way `edit_record` keys its UPDATE.
 */
module DeleteRecord {
  import opened Maybe
  import opened Strings
  import opened Sql
  import opened Schema

  /** The warning shown when nothing is selected. */
  datatype DeleteError = NoSelection

  /** The DELETEs the handler executes and the count it reports afterwards, when every DELETE succeeds. */
  datatype Deletion = Deletion(statements: seq<Statement>, deletedCount: nat)

  // ---------------------------------------------------------------------
  // `sorted(set(rows), reverse=True)`

  /** `set(index.row() for index in selected_indexes)` (line 693). */
  function Rows(selection: seq<nat>): set<nat>
  {
    set r | r in selection
  }

  /** The largest entry of a non-empty list. */
  function MaxOf(s: seq<nat>): (m: nat)
    requires s != []
    ensures m in s && forall i :: 0 <= i < |s| ==> s[i] <= m
  {
    if |s| == 1 then s[0]
    else
      var m := MaxOf(s[1..]);
      if s[0] >= m then s[0] else m
  }

  /** The list with every occurrence of `x` dropped. */
  function Without(s: seq<nat>, x: nat): (r: seq<nat>)
    ensures forall y :: y in r <==> y in s && y != x
    ensures |r| <= |s| && (x in s ==> |r| < |s|)
  {
    if s == [] then []
    else (if s[0] == x then [] else [s[0]]) + Without(s[1..], x)
  }

  /** The distinct selected rows, largest first. */
  function SortedDescending(s: seq<nat>): seq<nat>
    decreases |s|
  {
    if s == [] then [] else [MaxOf(s)] + SortedDescending(Without(s, MaxOf(s)))
  }

  /** The order visits exactly the selected rows. */
  lemma {:induction false} SortedSameRows(s: seq<nat>)
    ensures forall x :: x in SortedDescending(s) <==> x in s
    decreases |s|
  {
    if s != [] {
      SortedSameRows(Without(s, MaxOf(s)));
    }
  }

  /** Everything visited after the largest row is smaller than it. */
  lemma {:induction false} RestBelowMax(s: seq<nat>)
    requires s != []
    ensures forall k :: 0 <= k < |SortedDescending(Without(s, MaxOf(s)))| ==>
              SortedDescending(Without(s, MaxOf(s)))[k] < MaxOf(s)
  {
    var m := MaxOf(s);
    var tail := SortedDescending(Without(s, m));
    SortedSameRows(Without(s, m));
    forall k | 0 <= k < |tail|
      ensures tail[k] < m
    {
      assert tail[k] in s;
      var idx :| 0 <= idx < |s| && s[idx] == tail[k];
    }
  }

  /** The order is strictly decreasing, so no row is visited twice. */
  lemma {:induction false} SortedStrictlyDecreasing(s: seq<nat>)
    ensures forall i, j :: 0 <= i < j < |SortedDescending(s)| ==> SortedDescending(s)[i] > SortedDescending(s)[j]
    decreases |s|
  {
    if s != [] {
      var m := MaxOf(s);
      var rest := Without(s, m);
      SortedStrictlyDecreasing(rest);
      var r, tail := SortedDescending(s), SortedDescending(rest);
      assert r == [m] + tail;
      RestBelowMax(s);
      forall i, j | 0 <= i < j < |r|
        ensures r[i] > r[j]
      {
        assert r[j] == tail[j - 1];
        if i > 0 {
          assert r[i] == tail[i - 1];
        } else {
          assert tail[j - 1] < m;
        }
      }
    }
  }

  /** One visit per distinct row: the length of the order is the size of the set. */
  lemma {:induction false} SortedLength(s: seq<nat>)
    ensures |SortedDescending(s)| == |Rows(s)|
    decreases |s|
  {
    if s != [] {
      var m := MaxOf(s);
      var rest := Without(s, m);
      SortedLength(rest);
      assert Rows(rest) == Rows(s) - {m};
    }
  }

  // ---------------------------------------------------------------------
  // One row's DELETE

  /** `f"DELETE FROM {table} WHERE "`, the part both branches share. */
  function DeleteHead(table: string): string
  {
    "DELETE FROM " + table + " WHERE "
  }

  /** The DELETE that lines 718-735 build for row `row` of the view. */
  function DeleteStatement(table: string, cols: seq<Column>, snap: Snapshot, row: int): Statement
  {
    var pk := FirstPrimaryKey(cols);
    if UsableKey(pk) then
      KeyInNames(cols);
      Statement(DeleteHead(table) + pk.value + " = ?", [Cell(snap, row, IndexOf(Names(cols), pk.value))])
    else
      Statement(DeleteHead(table) + WholeRowWhere(cols), RowCells(snap, row, |cols|))
  }

  /** The statements for the rows of `order`, one each, in that order. */
  function Deletes(table: string, cols: seq<Column>, snap: Snapshot, order: seq<nat>): seq<Statement>
  {
    seq(|order|, i requires 0 <= i < |order| => DeleteStatement(table, cols, snap, order[i]))
  }

  /** The loop of lines 726-731: one `col = ?` condition and one displayed value per column. */
  method RowPredicate(cols: seq<Column>, snap: Snapshot, row: int) returns (where: string, params: seq<Param>)
    ensures where == WholeRowWhere(cols)
    ensures params == RowCells(snap, row, |cols|)
  {
    var conditions: seq<string> := [];
    params := [];
    for i := 0 to |cols|
      invariant |conditions| == i && forall k :: 0 <= k < i ==> conditions[k] == cols[k].name + " = ?"
      invariant params == RowCells(snap, row, i)
    {
      conditions := conditions + [cols[i].name + " = ?"];
      params := params + [Cell(snap, row, i)];
    }
    EqTermsAt(Names(cols));
    assert conditions == EqTerms(Names(cols));
    where := Join(conditions, " AND ");
  }

  /** The body of the loop of lines 717-736 for one row: the DELETE for that row. */
  method RowDelete(table: string, cols: seq<Column>, snap: Snapshot, pk: Option<string>, row: nat)
    returns (st: Statement)
    requires pk == FirstPrimaryKey(cols)
    ensures st == DeleteStatement(table, cols, snap, row)
  {
    if UsableKey(pk) {
      KeyInNames(cols);
      var pkColIdx := IndexOf(Names(cols), pk.value);
      st := Statement("DELETE FROM " + table + " WHERE " + pk.value + " = ?", [Cell(snap, row, pkColIdx)]);
      assert st.sql == DeleteHead(table) + pk.value + " = ?";
    } else {
      var where, params := RowPredicate(cols, snap, row);
      st := Statement("DELETE FROM " + table + " WHERE " + where, params);
      assert st.sql == DeleteHead(table) + where;
    }
  }

  lemma {:induction false} DeletesAppend(table: string, cols: seq<Column>, snap: Snapshot, order: seq<nat>, n: nat)
    requires n < |order|
    ensures Deletes(table, cols, snap, order[..n + 1]) ==
            Deletes(table, cols, snap, order[..n]) + [DeleteStatement(table, cols, snap, order[n])]
  {
    var a, b := Deletes(table, cols, snap, order[..n + 1]), Deletes(table, cols, snap, order[..n]);
    assert |a| == |b| + 1;
    assert forall i :: 0 <= i < n ==> a[i] == b[i];
  }

  /** `delete_record` from the selection to the statements it executes and the count it reports. */
  method BuildDeletes(table: string, cols: seq<Column>, snap: Snapshot, selection: seq<nat>)
    returns (r: Result<Deletion, DeleteError>)
    ensures selection == [] <==> r == Err(NoSelection)
    ensures r.Ok? ==> r.value.statements == Deletes(table, cols, snap, SortedDescending(selection))
    ensures r.Ok? ==> r.value.deletedCount == |Rows(selection)|
  {
    if selection == [] {
      return Err(NoSelection);
    }
    var pk := FindPrimaryKey(cols);
    var order := SortedDescending(selection);
    var statements: seq<Statement> := [];
    var deletedCount := 0;
    for n := 0 to |order|
      invariant statements == Deletes(table, cols, snap, order[..n])
      invariant deletedCount == n
    {
      var st := RowDelete(table, cols, snap, pk, order[n]);
      DeletesAppend(table, cols, snap, order, n);
      statements := statements + [st];
      deletedCount := deletedCount + 1;
    }
    assert order[..|order|] == order;
    SortedLength(selection);
    r := Ok(Deletion(statements, deletedCount));
  }

  // ---------------------------------------------------------------------
  // What each DELETE is

  /** With a usable key, each DELETE binds one parameter: the row's displayed key value. */
  lemma {:induction false} DeleteWithKey(table: string, cols: seq<Column>, snap: Snapshot, row: int, k: nat)
    requires DistinctNames(cols) && KeyAt(cols, k) && cols[k].name != ""
    ensures DeleteStatement(table, cols, snap, row) ==
            Statement(DeleteHead(table) + cols[k].name + " = ?", [Cell(snap, row, k)])
  {
    KeyAtFound(cols, k);
    IndexOfDistinct(cols, k);
  }

  /**
   * Without a usable key, each DELETE binds one parameter per column, the
   * `i`-th being the row's displayed value of column `i`, which is the
   * operand of the `i`-th `col = ?` condition.
   */
  lemma {:induction false} DeleteWholeRow(table: string, cols: seq<Column>, snap: Snapshot, row: int)
    requires !UsableKey(FirstPrimaryKey(cols))
    ensures DeleteStatement(table, cols, snap, row).sql == DeleteHead(table) + Join(EqTerms(Names(cols)), " AND ")
    ensures |DeleteStatement(table, cols, snap, row).params| == |cols| == |EqTerms(Names(cols))|
    ensures forall i :: 0 <= i < |cols| ==>
              DeleteStatement(table, cols, snap, row).params[i] == Cell(snap, row, i) &&
              EqTerms(Names(cols))[i] == cols[i].name + " = ?"
  {
    EqTermsAt(Names(cols));
  }

  /** The shared head holds no placeholder. */
  lemma {:induction false} DeleteHeadCount(table: string)
    requires '?' !in table
    ensures Placeholders(DeleteHead(table)) == 0
  {
    assert '?' !in DeleteHead(table);
    CountAbsent(DeleteHead(table), '?');
  }

  /** Every DELETE binds exactly one parameter per placeholder. */
  lemma {:induction false} DeleteBalanced(table: string, cols: seq<Column>, snap: Snapshot, row: int)
    requires '?' !in table && Unmarked(Names(cols))
    ensures Balanced(DeleteStatement(table, cols, snap, row))
  {
    var st := DeleteStatement(table, cols, snap, row);
    var pk := FirstPrimaryKey(cols);
    var head := DeleteHead(table);
    DeleteHeadCount(table);
    if UsableKey(pk) {
      var i := KeyColumn(cols);
      assert '?' !in Names(cols)[i];
      EqTermCount(pk.value);
      CountConcat(head, pk.value + " = ?", '?');
      assert st.sql == head + (pk.value + " = ?");
    } else {
      JoinedTermsCount(Names(cols), " AND ");
      CountConcat(head, WholeRowWhere(cols), '?');
    }
  }

  /**
   * Without a key, two rows whose displayed cells differ anywhere get different
   * parameters, while two rows that display alike get the very same DELETE,
   * which removes every stored copy of that row.
   */
  lemma {:induction false} DeleteWholeRowTargets(table: string, cols: seq<Column>, snap1: Snapshot, row1: int, snap2: Snapshot, row2: int)
    requires !UsableKey(FirstPrimaryKey(cols))
    ensures (DeleteStatement(table, cols, snap1, row1) == DeleteStatement(table, cols, snap2, row2)) <==>
            forall i :: 0 <= i < |cols| ==> Cell(snap1, row1, i) == Cell(snap2, row2, i)
  {
    DeleteWholeRow(table, cols, snap1, row1);
    DeleteWholeRow(table, cols, snap2, row2);
    var p1, p2 := RowCells(snap1, row1, |cols|), RowCells(snap2, row2, |cols|);
    if forall i :: 0 <= i < |cols| ==> Cell(snap1, row1, i) == Cell(snap2, row2, i) {
      assert p1 == p2;
    }
  }

  /** The batch: the `i`-th statement deletes the `i`-th largest distinct selected row. */
  lemma {:induction false} DeletesInOrder(table: string, cols: seq<Column>, snap: Snapshot, selection: seq<nat>)
    ensures |Deletes(table, cols, snap, SortedDescending(selection))| == |Rows(selection)|
    ensures forall i, j :: 0 <= i < j < |SortedDescending(selection)| ==> SortedDescending(selection)[i] > SortedDescending(selection)[j]
    ensures forall r :: r in Rows(selection) <==> exists i :: 0 <= i < |SortedDescending(selection)| && SortedDescending(selection)[i] == r
  {
    SortedLength(selection);
    SortedStrictlyDecreasing(selection);
    SortedSameRows(selection);
  }
}
