/**
 * The tab handling of `DatabaseManager`: connecting installs the SQL query
 * page, `open_table` selects an already open table instead of opening it
 * twice, and `close_tab` never removes the SQL query page.
 */
module Tabs {

  /** A page of the tab widget together with the text of its tab. */
  class Page {
    const title: string

    constructor (title: string)
      ensures this.title == title
    {
      this.title := title;
    }
  }

  /** The tab text the SQL query page is added under (line 928). */
  const SqlTitle: string := "SQL\U{67e5}\U{8be2}"

  /** No two pages carry the same tab text. */
  predicate DistinctTitles(pages: seq<Page>)
  {
    forall i, j :: 0 <= i < j < |pages| ==> pages[i].title != pages[j].title
  }

  /**
   * The current index Qt's tab bar moves to when the tab at `removed` is
   * removed from `count` tabs while `cur` is current: a tab before the
   * current one shifts it left; removing the current tab selects its right
   * neighbour, or its left one when it was the last (Qt's default).
   */
  function CurrentAfterRemoval(cur: int, removed: nat, count: nat): (r: int)
    requires 0 <= cur < count && removed < count
    ensures -1 <= r < count - 1
    ensures r == -1 <==> count == 1
    ensures r >= 0 && removed != cur ==> (if removed < cur then r == cur - 1 else r == cur)
  {
    if removed < cur then cur - 1
    else if removed > cur then cur
    else if removed < count - 1 then removed
    else removed - 1
  }

  /** Removing one page keeps every other page. */
  lemma {:induction false} RemoveKeeps(pages: seq<Page>, k: nat)
    requires k < |pages|
    ensures forall p :: p in pages && p != pages[k] ==> p in pages[..k] + pages[k + 1..]
  {
    var rest := pages[..k] + pages[k + 1..];
    forall p | p in pages && p != pages[k] ensures p in rest {
      var i :| 0 <= i < |pages| && pages[i] == p;
      assert rest[if i < k then i else i - 1] == p;
    }
  }

  /** Removing one page from pages with distinct titles leaves distinct titles. */
  lemma {:induction false} RemoveDistinct(pages: seq<Page>, k: nat)
    requires k < |pages| && DistinctTitles(pages)
    ensures DistinctTitles(pages[..k] + pages[k + 1..])
  {
    var rest := pages[..k] + pages[k + 1..];
    assert forall i :: 0 <= i < |rest| ==> rest[i] == pages[if i < k then i else i + 1];
  }

  class DatabaseManager {
    /** Whether `db_connection` is set. */
    var connected: bool
    /** The pages of `tab_widget`, in tab order. */
    var pages: seq<Page>
    /** `tab_widget.currentIndex()`: `-1` exactly when there is no page. */
    var current: int
    /** `self.sql_tab`: `None` until a database is connected. */
    var sqlTab: Page?

    /**
     * The current index names a page, or is `-1` when there is none, and the
     * SQL page is always open once installed. Titles may repeat: renaming a
     * table (line 498) can give a second tab the text of an open one.
     */
    ghost predicate Valid()
      reads this
    {
      -1 <= current < |pages| && (current == -1 <==> pages == []) &&
      (sqlTab != null ==> sqlTab in pages)
    }

    /** Lines 838-842 and 891: no connection, no page, no SQL tab. */
    constructor ()
      ensures Valid()
      ensures !connected && pages == [] && sqlTab == null
    {
      connected := false;
      pages := [];
      current := -1;
      sqlTab := null;
    }

    /** `tab_widget.widget(index)`: the page at `index`, or `None` outside the tab range. */
    function WidgetAt(index: int): Page?
      reads this
    {
      if 0 <= index < |pages| then pages[index] else null
    }

    /** Lines 910-928 on a successful connection: close every tab, then add the SQL page. */
    method Connect()
      modifies this
      ensures Valid()
      ensures connected && |pages| == 1 && current == 0
      ensures sqlTab == pages[0] && fresh(sqlTab) && sqlTab.title == SqlTitle
    {
      connected := true;
      pages := [];
      var page := new Page(SqlTitle);
      sqlTab := page;
      pages := pages + [page];
      current := 0;
    }

    /** The loop of lines 941-944: the first tab whose text is `title`, or `-1`. */
    method FindTab(title: string) returns (index: int)
      ensures -1 <= index < |pages|
      ensures index == -1 <==> forall i :: 0 <= i < |pages| ==> pages[i].title != title
      ensures index >= 0 ==> pages[index].title == title &&
                             forall i :: 0 <= i < index ==> pages[i].title != title
    {
      for i := 0 to |pages|
        invariant forall k :: 0 <= k < i ==> pages[k].title != title
      {
        if pages[i].title == title {
          return i;
        }
      }
      return -1;
    }

    /**
     * `open_table` (lines 934-949) for the table named `tableName`: an open
     * tab of that name is selected, otherwise a new page is added and selected.
     */
    method OpenTable(index: int, tableName: string)
      requires Valid()
      modifies this
      ensures Valid()
      ensures connected == old(connected) && sqlTab == old(sqlTab)
      ensures index < 0 || !connected ==> pages == old(pages) && current == old(current)
      ensures index >= 0 && connected && (exists i :: 0 <= i < |old(pages)| && old(pages)[i].title == tableName) ==>
                pages == old(pages) && pages[current].title == tableName &&
                forall i :: 0 <= i < current ==> pages[i].title != tableName
      ensures index >= 0 && connected && (forall i :: 0 <= i < |old(pages)| ==> old(pages)[i].title != tableName) ==>
                |pages| == |old(pages)| + 1 && pages[..|pages| - 1] == old(pages) && current == |pages| - 1 &&
                fresh(pages[current]) && pages[current].title == tableName
      ensures DistinctTitles(old(pages)) ==> DistinctTitles(pages)
    {
      if index < 0 || !connected {
        return;
      }
      var i := FindTab(tableName);
      if i >= 0 {
        current := i;
        return;
      }
      var tableTab := new Page(tableName);
      pages := pages + [tableTab];
      current := |pages| - 1;
    }

    /** `close_tab` (lines 951-956): every tab but the SQL page can be closed. */
    method CloseTab(index: int)
      requires Valid()
      modifies this
      ensures Valid()
      ensures connected == old(connected) && sqlTab == old(sqlTab)
      ensures old(sqlTab) != null ==> sqlTab in pages
      ensures 0 <= index < |old(pages)| && old(pages)[index] != old(sqlTab) ==>
                pages == old(pages)[..index] + old(pages)[index + 1..] &&
                current == CurrentAfterRemoval(old(current), index, |old(pages)|)
      ensures !(0 <= index < |old(pages)| && old(pages)[index] != old(sqlTab)) ==>
                pages == old(pages) && current == old(current)
      ensures DistinctTitles(old(pages)) ==> DistinctTitles(pages)
    {
      if WidgetAt(index) == sqlTab {
        return;
      }
      if 0 <= index < |pages| {
        RemoveKeeps(pages, index);
        if DistinctTitles(pages) {
          RemoveDistinct(pages, index);
        }
        current := CurrentAfterRemoval(current, index, |pages|);
        pages := pages[..index] + pages[index + 1..];
      }
    }
  }
}
