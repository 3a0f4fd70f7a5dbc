# SQLite manager: statement builders and tab rules

`db_manager.py` is a PyQt5 desktop tool that browses and edits SQLite
databases. Most of it is widgets. Inside its event handlers sit the decisions
that shape what reaches the database. This project models those decisions
in Dafny and proves what they do:

- **Primary-key discovery.** The scan picks the first `PRAGMA table_info` row
  whose `pk` flag is positive.
- **UPDATE and DELETE.** `edit_record` and `delete_record` build their
  statements from the table view's snapshot of a row. The WHERE clause is
  `key = ?` when a usable key was found, and otherwise the `AND` of `col = ?`
  over every column.
- **INSERT.** `add_record` and the two import handlers build INSERT text, and
  the import handlers first check the file's columns against the table.
- **CREATE TABLE.** `create_table` assembles the DDL from the dialog's text.
- **Export.** `export_data` applies the file-suffix rule and picks a writer.
- **Tabs.** `DatabaseManager` manages its tab widget: it installs the SQL
  page, reuses an open tab, and refuses to close the SQL page.

Modules, one per concern:

- `maybe.dfy`: `Option` and `Result`.
- `strings.dfy`: the Python `str` operations the builders use, with their
  Python behaviour. These are `join`, `count`, `strip` (over the `str.isspace`
  set), `split`, `upper` (the single-character mappings that yield an ASCII
  capital) and `endswith`.
- `ordered_dict.dfy`: Python `dict` with insertion order. Assigning an existing
  key keeps its position and replaces its value.
- `sql.dfy`: parameters, statements, placeholder counting, and `col = ?` terms.
- `schema.dfy`: `table_info` rows, key discovery, the declared-type →
  widget-kind rule, the view snapshot, and the values the dialogs hand back.
- `edit_record.dfy`, `delete_record.dfy`, `insert_record.dfy`,
  `create_table.dfy`, `export_data.dfy`: the handlers.
- `tabs.dfy`: the `DatabaseManager` class, with its pages, current index and
  SQL tab as fields.

Inputs the code gets from outside are parameters:

- the `table_info` rows;
- the snapshot the view shows, where `PandasModel.data` renders every cell
  with `str()` and gives `None` (bound as NULL) outside the frame;
- the selected rows;
- the texts left in the dialog widgets;
- the frame read from an import file;
- the name returned by the save dialog.

Two behaviours of the code that the model keeps as they are:

- **Composite keys.** The code takes the first flagged column even when
  several are flagged, so a composite key is matched on that one column; the
  model does the same.
- **Empty key name.** The code's `if primary_key_col:` is a truthiness test,
  so a key column named `""` takes the whole-row path. `UsableKey` models that
  test.

## Model

| member | source | states |
|---|---|---|
| Schema.FindPrimaryKey | db_manager.py:592-596 | The scan returns the name of the first column in `table_info` order whose `pk` is positive, and nothing exactly when no column is flagged |
| Schema.NoPrimaryKey | db_manager.py:707-711 | No key is found if and only if every column has `pk <= 0` |
| Schema.KeyColumn | db_manager.py:592-596 | A found key is the name of a flagged column with no flagged column before it, and that column is unique |
| Schema.KeyAtFound | db_manager.py:707-711 | The first flagged column is the one the scan reports |
| Schema.KeyInNames | db_manager.py:720 | The found key is among the column names, so `.index(primary_key_col)` cannot fail |
| Schema.IndexOfDistinct | db_manager.py:720 | With distinct names, `.index` of a column's name is that column's position |
| Schema.KindOfSpelling | db_manager.py:529-536 | On every declared type: a numeric field exactly for the spellings of `INTEGER`, `REAL`, `NUMERIC`, a True/False choice exactly for the spellings of `BOOLEAN`, a text field otherwise |
| Strings.UpperMatches | db_manager.py:620-627 | The model's `Upper(t)` equals a capital word exactly when each character of `t` is that letter, its lower case, or dotless `ı`/long `ſ` for `I`/`S` |
| Schema.KindOfIgnoresCase | db_manager.py:529-536 | The widget kind depends only on the upper-cased declared type |
| Schema.KindOfExamples | db_manager.py:620-627 | `integer`/`Real` get a numeric field and `boolean` a True/False choice; `INT`, `FLOAT`, `VARCHAR(20)` and the empty type get a plain text field; `ınteger` is numeric |
| Schema.DialogValuesLayout | db_manager.py:549-557 | With distinct names, the dialog's dict lists every column once, in table order, each with the text of its own widget |
| Schema.DialogValuesUnmarked | db_manager.py:645-652 | The dict's keys are column names, so they carry no `?`, and there is one value per key |
| OrderedDict.PutLookup | db_manager.py:603 | After `d[k] = v`, looking up `k` gives `v` and every other key is unchanged |
| OrderedDict.FromPairsDistinct | db_manager.py:600-603 | Filling a dict from distinct keys keeps exactly those pairs, in insertion order |
| OrderedDict.FromPairsHasKeys | db_manager.py:600-603 | Every inserted key is present, and the dict is never longer than the key list, even with repeated keys |
| OrderedDict.LookupPresent | db_manager.py:660 | `row_data[k]` finds a value exactly when `k` is one of the keys |
| Strings.Leading | db_manager.py:336-339 | The count covers whitespace only and stops at the first non-whitespace character, so `strip()` removes the whole leading run |
| Strings.Trailing | db_manager.py:336-339 | The count covers whitespace only and stops at the last non-whitespace character, so `strip()` removes the whole trailing run |
| Strings.StripEmpty | db_manager.py:336-339 | `s.strip()` is empty exactly when `s` is all whitespace |
| Strings.StripIdempotent | db_manager.py:346 | Stripping twice is the same as stripping once |
| Strings.SplitJoin | db_manager.py:346 | Joining the parts of `split('\n')` with `'\n'` gives the text back |
| Sql.EqTermsAt | db_manager.py:655 | There is one `col = ?` term per name, in name order |
| Sql.JoinedTermsCount | db_manager.py:655 | Joined `col = ?` terms hold exactly one placeholder per column |
| EditRecord.CaptureRow | db_manager.py:600-603 | The loop builds `row_data` as the dict of each column's name and its displayed cell |
| EditRecord.RowDataKeys | db_manager.py:600-603 | Every column name is a key of `row_data` |
| EditRecord.RowDataAt | db_manager.py:600-603 | With distinct names, `row_data[col]` is the displayed cell of that column |
| EditRecord.WholeRowPredicate | db_manager.py:663-669 | The loop yields the `AND`-join of `col = ?` over all columns, and the captured values in column order |
| EditRecord.BuildWidgets | db_manager.py:617-634 | The widget loop fails exactly when some column named like the key is declared as a spelling of `BOOLEAN`, whose combo box has no `setReadOnly` |
| EditRecord.KeyIsChoiceSpelled | db_manager.py:617-634 | With distinct names, the edit dialog fails exactly when the key column's declared type spells `BOOLEAN` |
| EditRecord.BuildUpdate | db_manager.py:576-682 | An empty selection is refused; a key column whose widget is a combo box makes the dialog fail with no UPDATE; otherwise the statement is the UPDATE for the first selected row |
| EditRecord.UpdateHeadCount | db_manager.py:655 | `UPDATE t SET … WHERE` holds one placeholder per SET term |
| EditRecord.UpdateBalanced | db_manager.py:654-672 | On both paths the UPDATE binds exactly one parameter per placeholder |
| EditRecord.UpdateWithKey | db_manager.py:655-660 | With a key: SET lists `col = ?` for every column in order, WHERE is `key = ?`, and the parameters are the new values followed by the row's displayed key value (`ncols + 1`) |
| EditRecord.UpdateWholeRow | db_manager.py:662-670 | Without a key: WHERE is the `AND` of `col = ?` over all columns, and the parameters are the new values followed by every displayed cell in column order (`2 * ncols`) |
| EditRecord.UpdateIgnoresOtherCells | db_manager.py:658-660 | With a key, the UPDATE depends on the snapshot only through the key column's displayed value |
| EditRecord.UpdateSeparatesRows | db_manager.py:662-670 | Without a key, rows that differ in any displayed cell get different parameters |
| DeleteRecord.MaxOf | db_manager.py:717 | The chosen element is in the list and no element exceeds it |
| DeleteRecord.SortedSameRows | db_manager.py:693 | The visiting order contains exactly the selected rows |
| DeleteRecord.SortedStrictlyDecreasing | db_manager.py:717 | The visiting order is strictly decreasing, so no row comes twice |
| DeleteRecord.SortedLength | db_manager.py:737 | The visiting order is as long as the set of distinct selected rows |
| DeleteRecord.RowPredicate | db_manager.py:726-731 | The loop yields the `AND`-join of `col = ?` over all columns, and the row's displayed cells in column order |
| DeleteRecord.RowDelete | db_manager.py:718-735 | The loop body builds the row's DELETE: with a key, `WHERE key = ?` on the key column's cell, otherwise the whole-row predicate |
| DeleteRecord.RestBelowMax | db_manager.py:717 | Every row visited after the largest one is smaller than it |
| DeleteRecord.BuildDeletes | db_manager.py:684-737 | An empty selection is refused; otherwise there is one DELETE per row of the descending order, and `deleted_count` is the number of distinct selected rows |
| DeleteRecord.DeleteWithKey | db_manager.py:718-723 | With a key, each DELETE is `… WHERE key = ?` and binds one parameter, the displayed value at the key column's index |
| DeleteRecord.DeleteWholeRow | db_manager.py:724-735 | Without a key, the `i`-th parameter is the row's `i`-th displayed cell and the operand of the `i`-th `col = ?` condition |
| DeleteRecord.DeleteHeadCount | db_manager.py:722 | `DELETE FROM t WHERE` holds no placeholder |
| DeleteRecord.DeleteBalanced | db_manager.py:718-735 | On both paths the DELETE binds exactly one parameter per placeholder |
| DeleteRecord.DeleteWholeRowTargets | db_manager.py:724-735 | Without a key, two rows get the same DELETE exactly when they display the same cells |
| DeleteRecord.DeletesInOrder | db_manager.py:717-737 | The batch has one statement per distinct row, in strictly descending row order, and covers every selected row |
| InsertRecord.InsertPlaceholders | db_manager.py:560-562 | The INSERT text holds exactly as many `?` as listed columns |
| InsertRecord.AddRecordLayout | db_manager.py:549-565 | With distinct names, the INSERT lists every column in table order and binds each widget's text under its own column |
| InsertRecord.AddRecordBalanced | db_manager.py:558-565 | The INSERT of `add_record` binds one value per placeholder |
| InsertRecord.BuildImport | db_manager.py:756-782 | The import is refused exactly when some file column is not a table column; otherwise there is one INSERT per record, in file order, over the file's columns (Excel path: lines 801-827) |
| InsertRecord.ImportValuesAsRead | db_manager.py:780-782 | With distinct labels, each record is bound exactly as read, in label order |
| InsertRecord.ImportBalanced | db_manager.py:775-782 | Every import INSERT binds one value per placeholder |
| CreateTable.KeptFrom | db_manager.py:346 | Each kept definition is non-blank and is the stripped form of an input line |
| CreateTable.KeptLines | db_manager.py:346 | Each kept definition is non-blank and already stripped |
| CreateTable.KeptComplete | db_manager.py:346 | Every input line that is not blank is kept, stripped |
| CreateTable.ColumnLinesSingle | db_manager.py:346 | No kept definition contains a line break |
| CreateTable.ColumnLinesNonEmpty | db_manager.py:337-346 | A column text that is not blank yields at least one definition |
| CreateTable.BlankInput | db_manager.py:336-339 | The emptiness tests on the stripped texts are tests for all-whitespace input |
| CreateTable.BuildCreateTable | db_manager.py:336-348 | Refused exactly when the name or the column text is blank. Otherwise the text is `CREATE TABLE name (\n` + the kept lines joined by `,\n` + `\n)`, with at least one line |
| ExportData.WithSuffixEnds | db_manager.py:294-295 | After the fix-up the path ends with the suffix |
| ExportData.WithSuffixIdempotent | db_manager.py:294-295 | The suffix is appended only when missing, so fixing a fixed path changes nothing |
| ExportData.OneEnding | db_manager.py:301-304 | No path ends with both `.csv` and `.xlsx` |
| ExportData.FormatPicksWriter | db_manager.py:276-304 | With `csv` or `xlsx`, the final path ends with its suffix, a second fix-up changes nothing, and the matching writer is chosen |
| ExportData.ExportTarget | db_manager.py:275-304 | An unknown format fails before the dialog; a cancelled dialog exports nothing; otherwise the fixed path and the writer its ending selects |
| Tabs.CurrentAfterRemoval | db_manager.py:956 | After a removal the current index stays within the remaining tabs, and is `-1` exactly when none remain |
| Tabs.RemoveKeeps | db_manager.py:956 | Removing one page keeps every other page |
| Tabs.RemoveDistinct | db_manager.py:956 | Removing one page from pages with distinct titles leaves the titles distinct |
| Tabs.DatabaseManager.constructor | db_manager.py:838-842 | The window starts with no connection, no page and no SQL tab |
| Tabs.DatabaseManager.Connect | db_manager.py:910-928 | Connecting leaves exactly one page, the new SQL page, which is current |
| Tabs.DatabaseManager.FindTab | db_manager.py:941-944 | The result is the first tab whose text is the table name, or `-1` exactly when no tab has that text |
| Tabs.DatabaseManager.OpenTable | db_manager.py:934-949 | Nothing happens for a negative index or without a connection. An open tab of that name becomes current; otherwise one fresh page is appended and made current. The tab selected is the first with that text, and titles that were distinct stay distinct |
| Tabs.DatabaseManager.CloseTab | db_manager.py:951-956 | The SQL page is never removed. Any other page in range is removed and the rest are kept in order. An index outside the tabs changes nothing. Titles that were distinct stay distinct |

## Left out

- The PyQt5 widgets, dialogs, menus and message boxes are not modelled, nor the parent-chain walk in lines 356-358. Dialog answers are inputs: confirmation prompts are taken as answered Yes, and selections and typed texts are parameters.
- The create, add and edit form dialogs (lines 335, 550 and 645) are taken as accepted. A cancelled dialog builds and executes nothing, and that path is not modelled.
- SQLite execution, `commit`, `PRAGMA` queries and `sqlite_master` reads are foreign calls. The model gives the statements each handler hands to `cursor.execute` when every call succeeds. It does not model which stored rows they match.
- DeleteRecord.BuildDeletes: every `cursor.execute` in the loop of lines 717-737 is assumed to succeed. If one raises, the later DELETEs are never issued, the `commit` of line 739 is skipped, the earlier DELETEs stay in the open transaction, and no count is reported. The model's statement list and `deletedCount` describe only the all-succeed path.
- InsertRecord.BuildImport: every `cursor.execute` in the loops of lines 780-782 and 825-827 is assumed to succeed. If one raises, the later INSERTs are never issued, the `commit` of line 784 or 829 is skipped, and the earlier INSERTs stay in the open transaction. The model's statement list describes only the all-succeed path.
- pandas reading and writing (`read_sql_query`, `read_csv`, `read_excel`, `to_csv`, `to_excel`) is library I/O and is not modelled. pandas scalar types are not modelled either: an imported value is a text or NULL `Param`.
- `str()` rendering of pandas cells is library behaviour. The snapshot holds the rendered strings.
- `show_table_structure` is display only, and is not modelled.
- The connection lifecycle of `connect_database` and `main` is file and process I/O. Only the resulting tab changes are modelled, as `Connect` on its successful path.
- `delete_table` and `alter_table` are outside the modelled handlers.
- Schema.KindOf: `str.upper()` is modelled for the characters whose upper case is one ASCII capital (`a`-`z`, dotless `ı`, long `ſ`); every other character is kept as it is. Python's other mappings either give a non-ASCII result or, like `ß` → `SS` and the ligatures `ﬀ`, `ﬁ`, `ﬂ`, `ﬃ`, `ﬄ`, `ﬅ`, `ﬆ`, give runs of capitals (`SS`, `FF`, `FI`, `FL`, `FFI`, `FFL`, `ST`) that occur in none of `INTEGER`, `REAL`, `NUMERIC`, `BOOLEAN`, so no type name matches in Python that the model misses.
- EditRecord.BuildUpdate: the texts typed into the dialog are free inputs. The model does not constrain the key column's read-only field to its prefilled value, nor the boolean combo box to `True`/`False`.
- Tabs.DatabaseManager.CloseTab: which tab becomes current after a removal is decided by Qt, not by this program. It is modelled as Qt's default rule of selecting the right neighbour, or the left one for the last tab.
- Tabs.DatabaseManager: `alter_table` is not modelled. Its rename path refills the table combo box (lines 492-493), which can open a tab for the new name, and then `setTabText` at line 498 renames the old tab, so two tabs can carry the same text. `Valid()` therefore does not require distinct titles. `OpenTable` and `CloseTab` are stated for any pages, and `OpenTable` selects the first tab with the name.
- Tabs.DatabaseManager.OpenTable: the table name comes from the combo box's current text and is a parameter. The title compared is the tab text set when the tab was added.
- Tabs.DatabaseManager.Connect: the SQL page's query widget is not modelled. A failed connection is not modelled.
