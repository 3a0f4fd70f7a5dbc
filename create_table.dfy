/**
 * `TableViewTab.create_table`: the CREATE TABLE text assembled from a table
 * name and free-form column-definition lines (lines 336-348).
 */
module CreateTable {
  import opened Maybe
  import opened Strings

  /** The warning shown when the name or the column text is blank. */
  datatype CreateError = EmptyInput

  /** `[line.strip() for line in lines if line.strip()]`. */
  function Kept(lines: seq<string>): (r: seq<string>)
    ensures |r| <= |lines|
  {
    if lines == [] then []
    else (if Strip(lines[0]) != [] then [Strip(lines[0])] else []) + Kept(lines[1..])
  }

  /** The column definitions of line 346: the stripped, non-blank lines of the text. */
  function ColumnLines(text: string): seq<string>
  {
    Kept(Split(text, '\n'))
  }

  /** Every kept line is the stripped form of some input line. */
  lemma {:induction false} KeptFrom(lines: seq<string>)
    ensures forall x :: x in Kept(lines) ==> x != [] && exists l :: l in lines && x == Strip(l)
  {
    if lines != [] {
      KeptFrom(lines[1..]);
      var head := if Strip(lines[0]) != [] then [Strip(lines[0])] else [];
      assert Kept(lines) == head + Kept(lines[1..]);
      forall x | x in Kept(lines) ensures x != [] && exists l :: l in lines && x == Strip(l) {
        if x in head {
          assert lines[0] in lines;
        } else {
          var l :| l in lines[1..] && x == Strip(l);
          assert l in lines;
        }
      }
    }
  }

  /** Every kept line is non-blank and already stripped. */
  lemma {:induction false} KeptLines(lines: seq<string>)
    ensures forall x :: x in Kept(lines) ==> x != [] && Strip(x) == x
  {
    KeptFrom(lines);
    forall x | x in Kept(lines) ensures x != [] && Strip(x) == x {
      var l :| l in lines && x == Strip(l);
      StripIdempotent(l);
    }
  }

  /** Every input line that is not blank is kept, in stripped form. */
  lemma {:induction false} KeptComplete(lines: seq<string>)
    ensures forall j :: 0 <= j < |lines| && Strip(lines[j]) != [] ==> Strip(lines[j]) in Kept(lines)
  {
    if lines != [] {
      KeptComplete(lines[1..]);
      forall j | 0 <= j < |lines| && Strip(lines[j]) != [] ensures Strip(lines[j]) in Kept(lines) {
        if j > 0 {
          assert lines[j] == lines[1..][j - 1];
        }
      }
    }
  }

  /** Stripping keeps a middle part, so it adds no line break. */
  lemma {:induction false} StripKeepsOut(s: string, c: char)
    requires c !in s
    ensures c !in Strip(s)
  {
    var t := TrimStart(s);
    assert c !in t;
  }

  /** Kept lines never contain the line break they were split on. */
  lemma {:induction false} ColumnLinesSingle(text: string)
    ensures forall x :: x in ColumnLines(text) ==> '\n' !in x
  {
    var lines := Split(text, '\n');
    SplitParts(text, '\n');
    KeptFrom(lines);
    forall x | x in ColumnLines(text) ensures '\n' !in x {
      var l :| l in lines && x == Strip(l);
      StripKeepsOut(l, '\n');
    }
  }

  /** Joining whitespace with whitespace gives whitespace. */
  lemma {:induction false} JoinAllSpace(parts: seq<string>, sep: string)
    requires AllSpace(sep) && forall i :: 0 <= i < |parts| ==> AllSpace(parts[i])
    ensures AllSpace(Join(parts, sep))
    decreases |parts|
  {
    if |parts| >= 2 {
      JoinAllSpace(parts[1..], sep);
      var tail := Join(parts[1..], sep);
      var whole := parts[0] + sep + tail;
      assert forall k :: 0 <= k < |whole| ==> IsSpace(whole[k]) by {
        forall k | 0 <= k < |whole| ensures IsSpace(whole[k]) {
          if k < |parts[0]| {
            assert whole[k] == parts[0][k];
          } else if k < |parts[0]| + |sep| {
            assert whole[k] == sep[k - |parts[0]|];
          } else {
            assert whole[k] == tail[k - |parts[0]| - |sep|];
          }
        }
      }
    }
  }

  /** A text that is not blank yields at least one column definition. */
  lemma {:induction false} ColumnLinesNonEmpty(text: string)
    requires !AllSpace(text)
    ensures ColumnLines(text) != []
  {
    var lines := Split(text, '\n');
    SplitJoin(text, '\n');
    if forall i :: 0 <= i < |lines| ==> AllSpace(lines[i]) {
      JoinAllSpace(lines, "\n");
      assert false;
    }
    var j :| 0 <= j < |lines| && !AllSpace(lines[j]);
    StripEmpty(lines[j]);
    KeptComplete(lines);
  }

  /** The two blank-input tests of line 339, stated on the raw dialog text. */
  lemma {:induction false} BlankInput(nameText: string, columnsText: string)
    ensures Strip(nameText) == [] <==> AllSpace(nameText)
    ensures Strip(columnsText) == [] <==> AllSpace(columnsText)
    ensures Strip(columnsText) != [] ==> ColumnLines(Strip(columnsText)) != []
  {
    StripEmpty(nameText);
    StripEmpty(columnsText);
    var text := Strip(columnsText);
    if text != [] {
      StripIdempotent(columnsText);
      StripEmpty(text);
      ColumnLinesNonEmpty(text);
    }
  }

  /** Lines 339-348: reject a blank name or column text, otherwise build the statement with `+=`. */
  method BuildCreateTable(nameText: string, columnsText: string) returns (r: Result<string, CreateError>)
    ensures r.Err? <==> AllSpace(nameText) || AllSpace(columnsText)
    ensures r.Ok? ==> ColumnLines(Strip(columnsText)) != []
    ensures r.Ok? ==> r.value == "CREATE TABLE " + Strip(nameText) + " (\n" +
                                 Join(ColumnLines(Strip(columnsText)), ",\n") + "\n)"
  {
    var tableName := Strip(nameText);
    var text := Strip(columnsText);
    BlankInput(nameText, columnsText);
    if tableName == [] || text == [] {
      return Err(EmptyInput);
    }
    var createSql := "CREATE TABLE " + tableName + " (\n";
    var columns := ColumnLines(text);
    createSql := createSql + Join(columns, ",\n");
    createSql := createSql + "\n)";
    r := Ok(createSql);
  }
}
