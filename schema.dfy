/**
 * What the builders read: the rows of `PRAGMA table_info(table)`, primary-key
 * discovery over them, the declared-type classification that picks a dialog
 * widget, and the table view's snapshot of the rows.
 */
module Schema {
  import opened Maybe
  import opened Strings
  import opened Sql
  import opened OrderedDict

  /** One row of `PRAGMA table_info`: `(cid, name, type, notnull, dflt_value, pk)`. */
  datatype Column = Column(cid: int, name: string, declType: string, notNull: int, dflt: Option<string>, pk: int)

  /** `[col[1] for col in columns]`. */
  function Names(cols: seq<Column>): seq<string>
  {
    seq(|cols|, i requires 0 <= i < |cols| => cols[i].name)
  }

  /** SQLite never reports two columns of one table under the same name. */
  predicate DistinctNames(cols: seq<Column>)
  {
    forall i, j :: 0 <= i < j < |cols| ==> cols[i].name != cols[j].name
  }

  lemma {:induction false} NamesDistinct(cols: seq<Column>)
    requires DistinctNames(cols)
    ensures Distinct(Names(cols))
  {
  }

  // ---------------------------------------------------------------------
  // Primary-key discovery

  /** Column `i` is the first one whose `pk` flag is positive. */
  predicate KeyAt(cols: seq<Column>, i: int)
  {
    0 <= i < |cols| && cols[i].pk > 0 && forall j :: 0 <= j < i ==> cols[j].pk <= 0
  }

  /** The name of the first column, in `table_info` order, with `pk > 0`. */
  function FirstPrimaryKey(cols: seq<Column>): Option<string>
  {
    if cols == [] then None
    else if cols[0].pk > 0 then Some(cols[0].name)
    else FirstPrimaryKey(cols[1..])
  }

  /** The discovered key is absent exactly when no column is flagged. */
  lemma {:induction false} NoPrimaryKey(cols: seq<Column>)
    ensures FirstPrimaryKey(cols).None? <==> forall i :: 0 <= i < |cols| ==> cols[i].pk <= 0
  {
    if cols != [] {
      NoPrimaryKey(cols[1..]);
      assert forall i :: 1 <= i < |cols| ==> cols[i] == cols[1..][i - 1];
    }
  }

  /** A discovered key is the name of the first flagged column, and that column is unique. */
  lemma {:induction false} KeyColumn(cols: seq<Column>) returns (i: nat)
    requires FirstPrimaryKey(cols).Some?
    ensures KeyAt(cols, i) && FirstPrimaryKey(cols).value == cols[i].name
    ensures forall j :: KeyAt(cols, j) ==> j == i
  {
    if cols[0].pk > 0 {
      i := 0;
    } else {
      var k := KeyColumn(cols[1..]);
      i := k + 1;
      assert forall j :: 1 <= j < |cols| ==> cols[j] == cols[1..][j - 1];
      forall j | KeyAt(cols, j) ensures j == i {
        assert KeyAt(cols[1..], j - 1);
      }
    }
  }

  /** The first flagged column is the one discovered. */
  lemma {:induction false} KeyAtFound(cols: seq<Column>, k: nat)
    requires KeyAt(cols, k)
    ensures FirstPrimaryKey(cols) == Some(cols[k].name)
  {
    if k > 0 {
      assert KeyAt(cols[1..], k - 1);
      KeyAtFound(cols[1..], k - 1);
    }
  }

  /** The key is found the same way after skipping columns that are not flagged. */
  lemma {:induction false} FirstPrimaryKeySkip(cols: seq<Column>, i: nat)
    requires i < |cols| && cols[i].pk <= 0
    ensures FirstPrimaryKey(cols[i..]) == FirstPrimaryKey(cols[i + 1..])
  {
    assert cols[i..][1..] == cols[i + 1..];
  }

  /** The scan of lines 592-596: stop at the first column with `pk > 0`. */
  method FindPrimaryKey(cols: seq<Column>) returns (pk: Option<string>)
    ensures pk == FirstPrimaryKey(cols)
    ensures pk.None? <==> forall i :: 0 <= i < |cols| ==> cols[i].pk <= 0
    ensures pk.Some? ==> exists i :: KeyAt(cols, i) && pk.value == cols[i].name
  {
    pk := None;
    for i := 0 to |cols|
      invariant pk == None
      invariant forall j :: 0 <= j < i ==> cols[j].pk <= 0
      invariant FirstPrimaryKey(cols) == FirstPrimaryKey(cols[i..])
    {
      if cols[i].pk > 0 {
        pk := Some(cols[i].name);
        assert KeyAt(cols, i);
        break;
      }
      FirstPrimaryKeySkip(cols, i);
    }
  }

  /**
   * `if primary_key_col:` is Python truthiness: a key column whose name is
   * the empty string takes the whole-row path, like a table without a key.
   */
  predicate UsableKey(pk: Option<string>)
  {
    pk.Some? && pk.value != ""
  }

  /** `names.index(x)`: the position of the first occurrence of `x`. */
  function IndexOf(names: seq<string>, x: string): (i: nat)
    requires x in names
    ensures i < |names| && names[i] == x && x !in names[..i]
  {
    if names[0] == x then 0
    else
      assert names[1..][..IndexOf(names[1..], x)] == names[1..IndexOf(names[1..], x) + 1];
      1 + IndexOf(names[1..], x)
  }

  /** In a list without repeats, the first position of the `i`-th entry is `i`. */
  lemma {:induction false} IndexOfAt(names: seq<string>, i: nat)
    requires Distinct(names) && i < |names|
    ensures IndexOf(names, names[i]) == i
  {
    var j := IndexOf(names, names[i]);
    assert names[j] == names[i];
  }

  /** With distinct names, the first position of a column's name is that column. */
  lemma {:induction false} IndexOfDistinct(cols: seq<Column>, i: nat)
    requires DistinctNames(cols) && i < |cols|
    ensures cols[i].name in Names(cols) && IndexOf(Names(cols), cols[i].name) == i
  {
    assert Names(cols)[i] == cols[i].name;
  }

  // ---------------------------------------------------------------------
  // Declared type -> dialog widget

  /** Which input the add and edit dialogs build for a column. */
  datatype InputKind = NumericField | BooleanChoice | TextField

  /** Lines 529-536 and 620-627: the upper-cased declared type picks the widget. */
  function KindOf(declType: string): InputKind
  {
    var t := Upper(declType);
    if t in ["INTEGER", "REAL", "NUMERIC"] then NumericField
    else if t == "BOOLEAN" then BooleanChoice
    else TextField
  }

  /**
   * The classification on every declared type, stated without `upper()`: a
   * numeric field for the spellings of `INTEGER`, `REAL` and `NUMERIC`, a
   * True/False choice for the spellings of `BOOLEAN`, a text field otherwise.
   */
  lemma {:induction false} KindOfSpelling(declType: string)
    ensures KindOf(declType) == NumericField <==>
            SpelledAs(declType, "INTEGER") || SpelledAs(declType, "REAL") || SpelledAs(declType, "NUMERIC")
    ensures KindOf(declType) == BooleanChoice <==> SpelledAs(declType, "BOOLEAN")
    ensures KindOf(declType) == TextField <==>
            !SpelledAs(declType, "INTEGER") && !SpelledAs(declType, "REAL") &&
            !SpelledAs(declType, "NUMERIC") && !SpelledAs(declType, "BOOLEAN")
  {
    var integerName, realName, numericName, booleanName := "INTEGER", "REAL", "NUMERIC", "BOOLEAN";
    assert Capitals(integerName) && Capitals(realName) && Capitals(numericName) && Capitals(booleanName);
    UpperMatches(declType, integerName);
    UpperMatches(declType, realName);
    UpperMatches(declType, numericName);
    UpperMatches(declType, booleanName);
  }

  /** The classification ignores letter case. */
  lemma {:induction false} KindOfIgnoresCase(declType: string)
    ensures KindOf(Upper(declType)) == KindOf(declType)
  {
    UpperIdempotent(declType);
  }

  /**
   * Only the exact names match: `INT`, `FLOAT`, a sized `VARCHAR` or a blank
   * type get a text field; a dotless `\U{131}` upper-cases to `I`.
   */
  lemma {:induction false} KindOfExamples()
    ensures KindOf("integer") == NumericField && KindOf("Real") == NumericField
    ensures KindOf("boolean") == BooleanChoice
    ensures KindOf("INT") == TextField && KindOf("FLOAT") == TextField
    ensures KindOf("VARCHAR(20)") == TextField && KindOf("") == TextField
    ensures KindOf("\U{131}nteger") == NumericField
  {
    assert Upper("integer") == "INTEGER";
    assert Upper("Real") == "REAL";
    assert Upper("boolean") == "BOOLEAN";
    assert Upper("\U{131}nteger") == "INTEGER";
  }

  // ---------------------------------------------------------------------
  // The table view's snapshot

  /**
   * The frame the view was loaded with by `SELECT * FROM table`, every cell
   * already rendered with `str()` (line 28).
   */
  datatype Snapshot = Snapshot(header: seq<string>, rows: seq<seq<string>>)

  /**
   * `model.data(model.index(row, col), Qt.DisplayRole)`: the display string,
   * or `None` when the index lies outside the frame.
   */
  function Cell(snap: Snapshot, row: int, col: int): Param
  {
    if 0 <= row < |snap.rows| && 0 <= col < |snap.header| && col < |snap.rows[row]|
    then SqlText(snap.rows[row][col])
    else SqlNull
  }

  /** The first `n` cells of a row, one per table column. */
  function RowCells(snap: Snapshot, row: int, n: nat): seq<Param>
  {
    seq(n, i requires 0 <= i < n => Cell(snap, row, i))
  }

  /**
   * `" AND ".join(f"{col} = ?" for col in names)`: the predicate edit and
   * delete fall back to when the table has no usable primary key.
   */
  function WholeRowWhere(cols: seq<Column>): string
  {
    Join(EqTerms(Names(cols)), " AND ")
  }

  /** The discovered key is in the list of column names, so `.index` finds it. */
  lemma {:induction false} KeyInNames(cols: seq<Column>)
    requires FirstPrimaryKey(cols).Some?
    ensures FirstPrimaryKey(cols).value in Names(cols)
  {
    var i := KeyColumn(cols);
    assert Names(cols)[i] == cols[i].name;
  }

  // ---------------------------------------------------------------------
  // What the add and edit dialogs hand back

  /**
   * `values` in `add_record` (lines 549-556) and `new_values` in `edit_record`
   * (lines 645-652): one widget per column is stored in `field_inputs` under
   * the column's name, and each widget's text is read back in that dict's
   * order. `entered[i]` is the text of the `i`-th column's widget.
   */
  function DialogValues(cols: seq<Column>, entered: seq<string>): Dict<string, Param>
    requires |entered| == |cols|
  {
    FromPairs(Names(cols), TextParams(entered))
  }

  /** With distinct names, the dialog lists the columns in order with the entered texts. */
  lemma {:induction false} DialogValuesLayout(cols: seq<Column>, entered: seq<string>)
    requires |entered| == |cols| && DistinctNames(cols)
    ensures Keys(DialogValues(cols, entered)) == Names(cols)
    ensures Values(DialogValues(cols, entered)) == TextParams(entered)
  {
    NamesDistinct(cols);
    FromPairsDistinct(Names(cols), TextParams(entered));
  }

  /** Keys drawn from identifiers without `?` are themselves free of `?`. */
  lemma {:induction false} DialogValuesUnmarked(cols: seq<Column>, entered: seq<string>)
    requires |entered| == |cols| && Unmarked(Names(cols))
    ensures Unmarked(Keys(DialogValues(cols, entered)))
    ensures |Values(DialogValues(cols, entered))| == |Keys(DialogValues(cols, entered))|
  {
    var keys := Keys(DialogValues(cols, entered));
    FromPairsHasKeys(Names(cols), TextParams(entered));
    forall i | 0 <= i < |keys| ensures '?' !in keys[i] {
      assert keys[i] in Names(cols);
    }
  }
}
