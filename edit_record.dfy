/**
 * `TableViewTab.edit_record`: the UPDATE that writes the dialog's values
 * back to the row selected in the table view.
 */
module EditRecord {
  import opened Maybe
  import opened Strings
  import opened Sql
  import opened Schema
  import opened OrderedDict

  /**
   * Why no UPDATE runs: nothing is selected (line 578), or the key column's
   * widget is a combo box, which has no `setReadOnly` (line 634), so the
   * `AttributeError` ends in the error box of line 681.
   */
  datatype EditError = NoSelection | KeyFieldIsChoice

  /** `row_data` (lines 600-603): each column's name mapped to the displayed value of the row. */
  function RowData(cols: seq<Column>, snap: Snapshot, row: int): Dict<string, Param>
  {
    FromPairs(Names(cols), RowCells(snap, row, |cols|))
  }

  /** Every column name is a key of `row_data`, so `row_data[col]` never fails. */
  lemma {:induction false} RowDataKeys(cols: seq<Column>, snap: Snapshot, row: int)
    ensures forall i :: 0 <= i < |cols| ==> Lookup(RowData(cols, snap, row), cols[i].name).Some?
  {
    FromPairsHasKeys(Names(cols), RowCells(snap, row, |cols|));
    forall i | 0 <= i < |cols| ensures Lookup(RowData(cols, snap, row), cols[i].name).Some? {
      assert Names(cols)[i] == cols[i].name;
      LookupPresent(RowData(cols, snap, row), cols[i].name);
    }
  }

  /** The discovered key is one of the columns. */
  lemma {:induction false} KeyIsColumn(cols: seq<Column>)
    requires FirstPrimaryKey(cols).Some?
    ensures exists i :: 0 <= i < |cols| && FirstPrimaryKey(cols).value == cols[i].name
  {
    var i := KeyColumn(cols);
  }

  /** The captured value of every column, in column order: `[row_data[col] for col in names]`. */
  function Captured(cols: seq<Column>, rowData: Dict<string, Param>): seq<Param>
    requires forall i :: 0 <= i < |cols| ==> Lookup(rowData, cols[i].name).Some?
  {
    seq(|cols|, i requires 0 <= i < |cols| => Lookup(rowData, cols[i].name).value)
  }

  // ---------------------------------------------------------------------
  // The dialog's widgets

  /** Some column named like the discovered key is declared `BOOLEAN` and so gets a combo box. */
  predicate KeyIsChoice(cols: seq<Column>)
  {
    var pk := FirstPrimaryKey(cols);
    pk.Some? && exists i :: 0 <= i < |cols| && cols[i].name == pk.value && KindOf(cols[i].declType) == BooleanChoice
  }

  /**
   * The loop of lines 617-634: one widget per column, and `setReadOnly(True)`
   * on every widget of a column named like the key. It fails at the first
   * such widget that is a combo box.
   */
  method BuildWidgets(cols: seq<Column>, pk: Option<string>) returns (raised: bool)
    ensures raised <==> pk.Some? &&
                        exists i :: 0 <= i < |cols| && cols[i].name == pk.value && KindOf(cols[i].declType) == BooleanChoice
  {
    for i := 0 to |cols|
      invariant forall k :: 0 <= k < i ==>
                  !(pk.Some? && cols[k].name == pk.value && KindOf(cols[k].declType) == BooleanChoice)
    {
      var kind := KindOf(cols[i].declType);
      if pk.Some? && cols[i].name == pk.value && kind == BooleanChoice {
        return true;
      }
    }
    return false;
  }

  /**
   * With distinct names and the key at column `k`, the dialog fails exactly
   * when the key's declared type spells `BOOLEAN` in some mix of cases.
   */
  lemma {:induction false} KeyIsChoiceSpelled(cols: seq<Column>, k: nat)
    requires DistinctNames(cols) && KeyAt(cols, k)
    ensures KeyIsChoice(cols) <==> SpelledAs(cols[k].declType, "BOOLEAN")
  {
    KeyAtFound(cols, k);
    KindOfSpelling(cols[k].declType);
    if KeyIsChoice(cols) {
      var i :| 0 <= i < |cols| && cols[i].name == cols[k].name && KindOf(cols[i].declType) == BooleanChoice;
      assert i == k;
    }
  }

  /** `f"UPDATE {table} SET {set_clause} WHERE "`, the part both branches share. */
  function UpdateHead(table: string, keys: seq<string>): string
  {
    "UPDATE " + table + " SET " + Join(EqTerms(keys), ", ") + " WHERE "
  }

  /** The UPDATE that lines 654-672 build for row `row` of the view. */
  function Update(table: string, cols: seq<Column>, snap: Snapshot, row: int, entered: seq<string>): Statement
    requires |entered| == |cols|
  {
    var pk := FirstPrimaryKey(cols);
    var rowData := RowData(cols, snap, row);
    var newValues := DialogValues(cols, entered);
    RowDataKeys(cols, snap, row);
    if UsableKey(pk) then
      KeyIsColumn(cols);
      Statement(UpdateHead(table, Keys(newValues)) + pk.value + " = ?",
                Values(newValues) + [Lookup(rowData, pk.value).value])
    else
      Statement(UpdateHead(table, Keys(newValues)) + WholeRowWhere(cols),
                Values(newValues) + Captured(cols, rowData))
  }

  /** The loop of lines 600-603 that fills `row_data`. */
  method CaptureRow(cols: seq<Column>, snap: Snapshot, row: int) returns (rowData: Dict<string, Param>)
    ensures rowData == RowData(cols, snap, row)
  {
    var names, cells := Names(cols), RowCells(snap, row, |cols|);
    rowData := [];
    for i := 0 to |cols|
      invariant rowData == FromPairs(names[..i], cells[..i])
    {
      assert names[..i + 1][..i] == names[..i] && cells[..i + 1][..i] == cells[..i];
      rowData := Put(rowData, cols[i].name, Cell(snap, row, i));
    }
    assert names[..|cols|] == names && cells[..|cols|] == cells;
  }

  /** The loop of lines 663-669: one `col = ?` condition and one captured value per column. */
  method WholeRowPredicate(cols: seq<Column>, rowData: Dict<string, Param>) returns (where: string, params: seq<Param>)
    requires forall i :: 0 <= i < |cols| ==> Lookup(rowData, cols[i].name).Some?
    ensures where == WholeRowWhere(cols)
    ensures params == Captured(cols, rowData)
  {
    var conditions: seq<string> := [];
    params := [];
    for i := 0 to |cols|
      invariant |conditions| == i && forall k :: 0 <= k < i ==> conditions[k] == cols[k].name + " = ?"
      invariant params == Captured(cols, rowData)[..i]
    {
      conditions := conditions + [cols[i].name + " = ?"];
      params := params + [Lookup(rowData, cols[i].name).value];
    }
    EqTermsAt(Names(cols));
    assert conditions == EqTerms(Names(cols));
    where := Join(conditions, " AND ");
  }

  /** `edit_record` from the selection to the statement it executes. */
  method BuildUpdate(table: string, cols: seq<Column>, snap: Snapshot, selection: seq<nat>, entered: seq<string>)
    returns (r: Result<Statement, EditError>)
    requires |entered| == |cols|
    ensures selection == [] ==> r == Err(NoSelection)
    ensures selection != [] && KeyIsChoice(cols) ==> r == Err(KeyFieldIsChoice)
    ensures selection != [] && !KeyIsChoice(cols) ==> r == Ok(Update(table, cols, snap, selection[0], entered))
  {
    if selection == [] {
      return Err(NoSelection);
    }
    var row := selection[0];
    var pk := FindPrimaryKey(cols);
    var rowData := CaptureRow(cols, snap, row);
    var raised := BuildWidgets(cols, pk);
    if raised {
      return Err(KeyFieldIsChoice);
    }
    var newValues := DialogValues(cols, entered);
    var setClause := Join(EqTerms(Keys(newValues)), ", ");
    RowDataKeys(cols, snap, row);
    var where, params;
    if UsableKey(pk) {
      KeyIsColumn(cols);
      where := pk.value + " = ?";
      params := Values(newValues) + [Lookup(rowData, pk.value).value];
      r := Ok(Statement("UPDATE " + table + " SET " + setClause + " WHERE " + where, params));
      assert r.value.sql == UpdateHead(table, Keys(newValues)) + pk.value + " = ?";
      assert r.value == Update(table, cols, snap, row, entered);
    } else {
      var conditions, captured := WholeRowPredicate(cols, rowData);
      where := conditions;
      params := Values(newValues) + captured;
      r := Ok(Statement("UPDATE " + table + " SET " + setClause + " WHERE " + where, params));
      assert r.value.sql == UpdateHead(table, Keys(newValues)) + WholeRowWhere(cols);
      assert r.value == Update(table, cols, snap, row, entered);
    }
  }

  // ---------------------------------------------------------------------
  // What the statement is

  /** The shared head holds one placeholder per SET term. */
  lemma {:induction false} UpdateHeadCount(table: string, keys: seq<string>)
    requires '?' !in table && Unmarked(keys)
    ensures Placeholders(UpdateHead(table, keys)) == |keys|
  {
    var front := "UPDATE " + table + " SET ";
    var setClause := Join(EqTerms(keys), ", ");
    JoinedTermsCount(keys, ", ");
    assert '?' !in front;
    CountAbsent(front, '?');
    var back := " WHERE ";
    assert '?' !in back;
    CountAbsent(back, '?');
    CountConcat(front, setClause, '?');
    CountConcat(front + setClause, back, '?');
  }

  /**
   * Whatever the table looks like, the UPDATE binds exactly one parameter per
   * placeholder, provided the identifiers spliced into it hold no `?`.
   */
  lemma {:induction false} UpdateBalanced(table: string, cols: seq<Column>, snap: Snapshot, row: int, entered: seq<string>)
    requires |entered| == |cols|
    requires '?' !in table && Unmarked(Names(cols))
    ensures Balanced(Update(table, cols, snap, row, entered))
  {
    var newValues := DialogValues(cols, entered);
    var keys := Keys(newValues);
    var head := UpdateHead(table, keys);
    DialogValuesUnmarked(cols, entered);
    UpdateHeadCount(table, keys);
    var st := Update(table, cols, snap, row, entered);
    var pk := FirstPrimaryKey(cols);
    if UsableKey(pk) {
      KeyIsColumn(cols);
      var i :| 0 <= i < |cols| && pk.value == cols[i].name;
      assert '?' !in Names(cols)[i];
      EqTermCount(pk.value);
      CountConcat(head, pk.value + " = ?", '?');
      assert st.sql == head + (pk.value + " = ?");
      assert |st.params| == |keys| + 1;
    } else {
      RowDataKeys(cols, snap, row);
      JoinedTermsCount(Names(cols), " AND ");
      CountConcat(head, WholeRowWhere(cols), '?');
      assert st.sql == head + WholeRowWhere(cols);
      assert |st.params| == |keys| + |cols|;
    }
  }

  /**
   * With a usable primary key, the SET clause lists every column in order,
   * the WHERE clause is `key = ?`, and the parameters are the new values in
   * column order followed by the key's displayed value: `ncols + 1` of them.
   */
  lemma {:induction false} UpdateWithKey(table: string, cols: seq<Column>, snap: Snapshot, row: int, entered: seq<string>, k: nat)
    requires |entered| == |cols| && DistinctNames(cols)
    requires KeyAt(cols, k) && cols[k].name != ""
    ensures Update(table, cols, snap, row, entered) ==
            Statement(UpdateHead(table, Names(cols)) + cols[k].name + " = ?",
                      TextParams(entered) + [Cell(snap, row, k)])
    ensures |Update(table, cols, snap, row, entered).params| == |cols| + 1
  {
    KeyAtFound(cols, k);
    var pk := FirstPrimaryKey(cols);
    DialogValuesLayout(cols, entered);
    RowDataAt(cols, snap, row, k);
    var newValues := DialogValues(cols, entered);
    var rowData := RowData(cols, snap, row);
    assert Update(table, cols, snap, row, entered) ==
           Statement(UpdateHead(table, Keys(newValues)) + pk.value + " = ?",
                     Values(newValues) + [Lookup(rowData, pk.value).value]);
  }

  /** With distinct names, `row_data[col]` is the displayed cell of that column. */
  lemma {:induction false} RowDataAt(cols: seq<Column>, snap: Snapshot, row: int, k: nat)
    requires DistinctNames(cols) && k < |cols|
    ensures Lookup(RowData(cols, snap, row), cols[k].name) == Some(Cell(snap, row, k))
  {
    var names, cells := Names(cols), RowCells(snap, row, |cols|);
    NamesDistinct(cols);
    FromPairsDistinct(names, cells);
    ZipParts(names, cells);
    LookupAt(Zip(names, cells), k);
  }

  /**
   * Without a usable key, the WHERE clause is the AND of `col = ?` over every
   * column, and the parameters are the new values followed by every captured
   * value, both in column order: `2 * ncols` of them.
   */
  lemma {:induction false} UpdateWholeRow(table: string, cols: seq<Column>, snap: Snapshot, row: int, entered: seq<string>)
    requires |entered| == |cols| && DistinctNames(cols)
    requires !UsableKey(FirstPrimaryKey(cols))
    ensures Update(table, cols, snap, row, entered) ==
            Statement(UpdateHead(table, Names(cols)) + WholeRowWhere(cols),
                      TextParams(entered) + RowCells(snap, row, |cols|))
    ensures |Update(table, cols, snap, row, entered).params| == 2 * |cols|
  {
    DialogValuesLayout(cols, entered);
    RowDataKeys(cols, snap, row);
    var captured := Captured(cols, RowData(cols, snap, row));
    forall i | 0 <= i < |cols| ensures captured[i] == Cell(snap, row, i) {
      RowDataAt(cols, snap, row, i);
    }
    assert captured == RowCells(snap, row, |cols|);
  }

  /** With a key, the UPDATE depends on the snapshot only through the key's displayed value. */
  lemma {:induction false} UpdateIgnoresOtherCells(table: string, cols: seq<Column>, entered: seq<string>, k: nat,
                                snap1: Snapshot, row1: int, snap2: Snapshot, row2: int)
    requires |entered| == |cols| && DistinctNames(cols)
    requires KeyAt(cols, k) && cols[k].name != ""
    requires Cell(snap1, row1, k) == Cell(snap2, row2, k)
    ensures Update(table, cols, snap1, row1, entered) == Update(table, cols, snap2, row2, entered)
  {
    UpdateWithKey(table, cols, snap1, row1, entered, k);
    UpdateWithKey(table, cols, snap2, row2, entered, k);
  }

  /** Without a key, two rows that differ in any one displayed cell get different parameters. */
  lemma {:induction false} UpdateSeparatesRows(table: string, cols: seq<Column>, entered: seq<string>, j: nat,
                            snap1: Snapshot, row1: int, snap2: Snapshot, row2: int)
    requires |entered| == |cols| && DistinctNames(cols)
    requires !UsableKey(FirstPrimaryKey(cols))
    requires j < |cols| && Cell(snap1, row1, j) != Cell(snap2, row2, j)
    ensures Update(table, cols, snap1, row1, entered).params != Update(table, cols, snap2, row2, entered).params
  {
    UpdateWholeRow(table, cols, snap1, row1, entered);
    UpdateWholeRow(table, cols, snap2, row2, entered);
    assert Update(table, cols, snap1, row1, entered).params[|cols| + j] == Cell(snap1, row1, j);
    assert Update(table, cols, snap2, row2, entered).params[|cols| + j] == Cell(snap2, row2, j);
  }
}
