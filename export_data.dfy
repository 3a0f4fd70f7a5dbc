/**
 * `TableViewTab.export_data`: which suffix the chosen file name is given and
 * which writer the resulting name selects (lines 275-304).
 */
module ExportData {
  import opened Maybe
  import opened Strings

  /**
   * A format other than `"csv"` and `"xlsx"` leaves `file_filter` and
   * `default_suffix` unbound, so line 289 raises before any dialog opens.
   */
  datatype ExportError = UnboundFilter

  /** Which `DataFrame` writer lines 301-304 call, if any. */
  datatype Writer = CsvWriter | ExcelWriter | NoWriter

  /** A confirmed export: the path written to and the writer used. */
  datatype Export = Export(path: string, writer: Writer)

  /** `if format:` — `None` and the empty string are false. */
  predicate Truthy(format: Option<string>)
  {
    format.Some? && format.value != ""
  }

  /** `default_suffix` as lines 276-287 set it; `None` where it stays unbound. */
  function SuffixFor(format: Option<string>): Option<string>
  {
    if !Truthy(format) then Some("")
    else if format.value == "csv" then Some(".csv")
    else if format.value == "xlsx" then Some(".xlsx")
    else None
  }

  /** Line 294-295: append the suffix only when the path does not already end with it. */
  function WithSuffix(path: string, suffix: string): string
  {
    if EndsWith(path, suffix) then path else path + suffix
  }

  /** The path lines 294-295 leave in `file_path`. */
  function FixedPath(format: Option<string>, chosen: string): string
    requires SuffixFor(format).Some?
  {
    if Truthy(format) then WithSuffix(chosen, SuffixFor(format).value) else chosen
  }

  /** Lines 301-304: the writer is picked from the final path's ending. */
  function WriterFor(path: string): Writer
  {
    if EndsWith(path, ".csv") then CsvWriter
    else if EndsWith(path, ".xlsx") then ExcelWriter
    else NoWriter
  }

  /** After the fix-up the path ends with the suffix. */
  lemma {:induction false} WithSuffixEnds(path: string, suffix: string)
    ensures EndsWith(WithSuffix(path, suffix), suffix)
  {
    if !EndsWith(path, suffix) {
      var r := path + suffix;
      assert r[|r| - |suffix|..] == suffix;
    }
  }

  /** The suffix is appended at most once: fixing a fixed path changes nothing. */
  lemma {:induction false} WithSuffixIdempotent(path: string, suffix: string)
    ensures WithSuffix(WithSuffix(path, suffix), suffix) == WithSuffix(path, suffix)
    ensures EndsWith(path, suffix) ==> WithSuffix(path, suffix) == path
  {
    WithSuffixEnds(path, suffix);
  }

  /** A path cannot end with both `.csv` and `.xlsx`. */
  lemma {:induction false} OneEnding(path: string)
    ensures !(EndsWith(path, ".csv") && EndsWith(path, ".xlsx"))
  {
    if EndsWith(path, ".csv") {
      assert path[|path| - 1] == ".csv"[3] == 'v';
      assert ".xlsx"[4] == 'x';
    }
  }

  /**
   * A named format always reaches its own writer, and running the fix-up
   * again on its result leaves it unchanged.
   */
  lemma {:induction false} FormatPicksWriter(format: Option<string>, chosen: string)
    requires Truthy(format) && SuffixFor(format).Some?
    ensures EndsWith(FixedPath(format, chosen), SuffixFor(format).value)
    ensures FixedPath(format, FixedPath(format, chosen)) == FixedPath(format, chosen)
    ensures format.value == "csv" ==> WriterFor(FixedPath(format, chosen)) == CsvWriter
    ensures format.value == "xlsx" ==> WriterFor(FixedPath(format, chosen)) == ExcelWriter
  {
    var suffix := SuffixFor(format).value;
    WithSuffixEnds(chosen, suffix);
    WithSuffixIdempotent(chosen, suffix);
    OneEnding(FixedPath(format, chosen));
  }

  /** Without a format the chosen name is kept as typed, so a name with neither ending writes no file. */
  lemma {:induction false} NoFormatKeepsPath(chosen: string)
    ensures FixedPath(None, chosen) == chosen
    ensures !EndsWith(chosen, ".csv") && !EndsWith(chosen, ".xlsx") ==> WriterFor(FixedPath(None, chosen)) == NoWriter
  {
  }

  /**
   * `export_data` from its `format` argument and the name returned by the
   * save dialog (`""` when the dialog is cancelled) to the export it performs.
   */
  method ExportTarget(format: Option<string>, chosen: string) returns (r: Result<Option<Export>, ExportError>)
    ensures r.Err? <==> SuffixFor(format).None?
    ensures r.Ok? ==> (r.value.None? <==> chosen == "")
    ensures r.Ok? && r.value.Some? ==>
              r.value.value.path == FixedPath(format, chosen) &&
              r.value.value.writer == WriterFor(FixedPath(format, chosen))
  {
    var defaultSuffix: string;
    if Truthy(format) {
      if format.value == "csv" {
        defaultSuffix := ".csv";
      } else if format.value == "xlsx" {
        defaultSuffix := ".xlsx";
      } else {
        return Err(UnboundFilter);
      }
    } else {
      defaultSuffix := "";
    }
    if chosen == "" {
      return Ok(None);
    }
    var filePath := chosen;
    if Truthy(format) && !EndsWith(filePath, defaultSuffix) {
      filePath := filePath + defaultSuffix;
    }
    var writer;
    if EndsWith(filePath, ".csv") {
      writer := CsvWriter;
    } else if EndsWith(filePath, ".xlsx") {
      writer := ExcelWriter;
    } else {
      writer := NoWriter;
    }
    r := Ok(Some(Export(filePath, writer)));
  }
}
