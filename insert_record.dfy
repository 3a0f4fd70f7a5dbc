/**
 * The INSERT statements of `add_record`, `import_from_csv` and
 * `import_from_excel`: a column list, as many `?` as columns, and the values
 * bound in the order of the column names.
 */
module InsertRecord {
  import opened Maybe
  import opened Strings
  import opened Sql
  import opened Schema
  import opened OrderedDict

  /** `["?" for _ in names]`. */
  function Marks(n: nat): seq<string>
  {
    seq(n, _ => "?")
  }

  /** `f"INSERT INTO {table} ({columns_str}) VALUES ({placeholders})"` (lines 560-562, 775-777, 820-822). */
  function InsertSql(table: string, names: seq<string>): string
  {
    "INSERT INTO " + table + " (" + Join(names, ", ") + ") VALUES (" + Join(Marks(|names|), ", ") + ")"
  }

  lemma {:induction false} CountAllUnmarked(names: seq<string>)
    requires Unmarked(names)
    ensures CountAll(names, '?') == 0
  {
    if names != [] {
      CountAbsent(names[0], '?');
      CountAllUnmarked(names[1..]);
    }
  }

  lemma {:induction false} CountAllMarks(n: nat)
    ensures CountAll(Marks(n), '?') == n
  {
    if n > 0 {
      assert Marks(n)[1..] == Marks(n - 1);
      assert Count("?", '?') == 1;
      CountAllMarks(n - 1);
    }
  }

  /** Literal text and a table name without `?` add no placeholder. */
  lemma {:induction false} InsertFrameCount(table: string)
    requires '?' !in table
    ensures Count("INSERT INTO " + table + " (", '?') == 0
    ensures Count(") VALUES (", '?') == 0 && Count(")", '?') == 0
  {
    var head, middle, close := "INSERT INTO " + table + " (", ") VALUES (", ")";
    assert '?' !in head && '?' !in middle && '?' !in close;
    CountAbsent(head, '?');
    CountAbsent(middle, '?');
    CountAbsent(close, '?');
  }

  /** The INSERT text holds one placeholder per listed column. */
  lemma {:induction false} InsertPlaceholders(table: string, names: seq<string>)
    requires '?' !in table && Unmarked(names)
    ensures Placeholders(InsertSql(table, names)) == |names|
  {
    var head, cols, marks := "INSERT INTO " + table + " (", Join(names, ", "), Join(Marks(|names|), ", ");
    assert Count(cols, '?') == 0 by {
      CountJoin(names, ", ", '?');
      CountAllUnmarked(names);
    }
    assert Count(marks, '?') == |names| by {
      CountJoin(Marks(|names|), ", ", '?');
      CountAllMarks(|names|);
    }
    InsertFrameCount(table);
    CountConcat(head, cols, '?');
    CountConcat(head + cols, ") VALUES (", '?');
    CountConcat(head + cols + ") VALUES (", marks, '?');
    CountConcat(head + cols + ") VALUES (" + marks, ")", '?');
    assert InsertSql(table, names) == head + cols + ") VALUES (" + marks + ")";
  }

  // ---------------------------------------------------------------------
  // add_record

  /** The INSERT `add_record` executes (lines 558-565). */
  function AddRecord(table: string, cols: seq<Column>, entered: seq<string>): Statement
    requires |entered| == |cols|
  {
    var values := DialogValues(cols, entered);
    Statement(InsertSql(table, Keys(values)), Values(values))
  }

  /**
   * Every column of the table is listed once, in table order, and the value
   * bound for the `i`-th listed column is the text of that column's widget.
   */
  lemma {:induction false} AddRecordLayout(table: string, cols: seq<Column>, entered: seq<string>)
    requires |entered| == |cols| && DistinctNames(cols)
    ensures AddRecord(table, cols, entered) == Statement(InsertSql(table, Names(cols)), TextParams(entered))
    ensures |AddRecord(table, cols, entered).params| == |cols|
  {
    DialogValuesLayout(cols, entered);
  }

  /** The INSERT of `add_record` binds one value per placeholder, whatever the column names repeat. */
  lemma {:induction false} AddRecordBalanced(table: string, cols: seq<Column>, entered: seq<string>)
    requires |entered| == |cols| && '?' !in table && Unmarked(Names(cols))
    ensures Balanced(AddRecord(table, cols, entered))
  {
    DialogValuesUnmarked(cols, entered);
    InsertPlaceholders(table, Keys(DialogValues(cols, entered)));
  }

  // ---------------------------------------------------------------------
  // import_from_csv and import_from_excel

  /** The warning shown when the file names a column the table does not have. */
  datatype ImportError = ColumnMismatch

  /**
   * The frame `pandas` read from the file: its column labels and, per record,
   * one value per label (a missing value binds as NULL).
   */
  datatype Frame = Frame(header: seq<string>, records: seq<seq<Param>>)

  /** A data frame has the same number of values in every record. */
  predicate Rectangular(df: Frame)
  {
    forall i :: 0 <= i < |df.records| ==> |df.records[i]| == |df.header|
  }

  /** `all(col in columns for col in csv_columns)` (lines 764 and 809). */
  predicate ColumnsMatch(header: seq<string>, tableNames: seq<string>)
  {
    forall i :: 0 <= i < |header| ==> header[i] in tableNames
  }

  /**
   * `[row[col] for col in csv_columns]`, read through the first position of
   * `col` in the header. `read_csv` and `read_excel` rename repeated headers
   * (`a`, `a.1`), so the header is always distinct and that position is the
   * column's own.
   */
  function RecordValues(header: seq<string>, record: seq<Param>): (values: seq<Param>)
    requires |record| == |header|
    ensures |values| == |header|
  {
    seq(|header|, i requires 0 <= i < |header| => record[IndexOf(header, header[i])])
  }

  /** The INSERT executed for one record. */
  function ImportStatement(table: string, df: Frame, i: nat): Statement
    requires Rectangular(df) && i < |df.records|
  {
    Statement(InsertSql(table, df.header), RecordValues(df.header, df.records[i]))
  }

  /** Lines 756-782 (and 801-826 for Excel): check the columns, then one INSERT per record, in file order. */
  method BuildImport(table: string, tableNames: seq<string>, df: Frame) returns (r: Result<seq<Statement>, ImportError>)
    requires Rectangular(df)
    ensures r.Err? <==> !ColumnsMatch(df.header, tableNames)
    ensures r.Err? ==> r.error == ColumnMismatch
    ensures r.Ok? ==> |r.value| == |df.records| &&
                      forall i :: 0 <= i < |df.records| ==> r.value[i] == ImportStatement(table, df, i)
  {
    var ok := true;
    for c := 0 to |df.header|
      invariant ok <==> forall i :: 0 <= i < c ==> df.header[i] in tableNames
    {
      if df.header[c] !in tableNames {
        ok := false;
      }
    }
    if !ok {
      return Err(ColumnMismatch);
    }
    var insertSql := InsertSql(table, df.header);
    var statements: seq<Statement> := [];
    for n := 0 to |df.records|
      invariant |statements| == n
      invariant forall i :: 0 <= i < n ==> statements[i] == ImportStatement(table, df, i)
    {
      var values := RecordValues(df.header, df.records[n]);
      statements := statements + [Statement(insertSql, values)];
    }
    r := Ok(statements);
  }

  /** With distinct labels, each record is bound exactly as read, in label order. */
  lemma {:induction false} ImportValuesAsRead(table: string, df: Frame, i: nat)
    requires Rectangular(df) && i < |df.records| && Distinct(df.header)
    ensures ImportStatement(table, df, i).params == df.records[i]
  {
    var values := ImportStatement(table, df, i).params;
    forall c | 0 <= c < |df.header| ensures values[c] == df.records[i][c] {
      IndexOfAt(df.header, c);
    }
  }

  /** Every import statement lists only table columns and binds one value per placeholder. */
  lemma {:induction false} ImportBalanced(table: string, tableNames: seq<string>, df: Frame, i: nat)
    requires Rectangular(df) && i < |df.records| && ColumnsMatch(df.header, tableNames)
    requires '?' !in table && Unmarked(tableNames)
    ensures Balanced(ImportStatement(table, df, i))
  {
    forall c | 0 <= c < |df.header| ensures '?' !in df.header[c] {
      var k :| 0 <= k < |tableNames| && tableNames[k] == df.header[c];
    }
    InsertPlaceholders(table, df.header);
  }
}
