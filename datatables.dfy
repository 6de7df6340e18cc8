/** The paginated data table: the full list of rows, the page size, the current page,
    the page count, and the widgets that show them (the visible slice of rows, the
    "Total Rows" and "page/pages" labels, and the page and page-size input fields). */
module DataTables {
  import opened Wrappers
  import opened Text

  const DefaultRowsPerPage: int := 10

  function Min(a: int, b: int): int { if a <= b then a else b }
  function Max(a: int, b: int): int { if a >= b then a else b }

  /** `divmod(num_rows, rows_per_page)` plus one for a remainder: the ceiling of the
      quotient, the least page count whose pages hold every row. */
  function PageCount(n: nat, rpp: int): (p: nat)
    requires rpp > 0
    ensures p * rpp >= n
    ensures n > 0 ==> (p - 1) * rpp < n
    ensures p == 0 <==> n == 0
  {
    var q, rem := n / rpp, n % rpp;
    assert (q + 1) * rpp == q * rpp + rpp;
    assert (q - 1) * rpp == q * rpp - rpp;
    q + (if rem != 0 then 1 else 0)
  }

  /** The page counts the behaviour is pinned to. */
  lemma PageCountExamples()
    ensures PageCount(25, 10) == 3 && PageCount(25, 5) == 5 && PageCount(0, 10) == 0
    ensures PageCount(1, 10) == 1
  {
  }

  /** `paginate`: the bounds of the current page's slice, always one page size apart. */
  function Paginate(currentPage: int, rpp: int): (r: (int, int))
    ensures r.0 == (currentPage - 1) * rpp
    ensures r.1 - r.0 == rpp
  {
    var multiplier := if currentPage == 1 then 0 else currentPage - 1;
    assert currentPage * rpp == (currentPage - 1) * rpp + rpp;
    (multiplier * rpp, currentPage * rpp)
  }

  /** One bound of a Python slice: a negative one counts from the end; both are then
      clamped to the list. */
  function SliceIndex(i: int, n: nat): (k: nat)
    ensures k <= n
    ensures 0 <= i <= n ==> k == i
  {
    if i < 0 then Max(0, i + n) else Min(i, n)
  }

  /** `rows[slice(i, j)]`. */
  function PySlice<T>(s: seq<T>, i: int, j: int): (r: seq<T>)
    ensures 0 <= i <= |s| ==> |r| == Max(0, SliceIndex(j, |s|) - i)
    ensures 0 <= i <= |s| ==> forall k :: 0 <= k < |r| ==> r[k] == s[i + k]
  {
    var a, b := SliceIndex(i, |s|), SliceIndex(j, |s|);
    if a < b then s[a..b] else []
  }

  /** `build_rows`: for a page from 1 on, the rows from the page's first index onwards,
      at most a page's worth and none past the end. */
  function BuildRows<Row>(rows: seq<Row>, currentPage: int, rpp: int): (r: seq<Row>)
    requires rpp > 0
    ensures currentPage >= 1 ==>
              var start := (currentPage - 1) * rpp;
              |r| == (if start >= |rows| then 0 else Min(rpp, |rows| - start)) &&
              forall k :: 0 <= k < |r| ==> r[k] == rows[start + k]
  {
    var bounds := Paginate(currentPage, rpp);
    if currentPage >= 1 then
      assert bounds.0 >= 0 by { assert (currentPage - 1) * rpp >= 0; }
      if bounds.0 >= |rows| then [] else PySlice(rows, bounds.0, bounds.1)
    else PySlice(rows, bounds.0, bounds.1)
  }

  /** The last page of a non-empty table holds between one row and a full page. */
  lemma LastPageRows<Row>(rows: seq<Row>, rpp: int)
    requires rpp > 0 && |rows| > 0
    ensures var last := BuildRows(rows, PageCount(|rows|, rpp), rpp);
            1 <= |last| <= rpp && |last| == |rows| - (PageCount(|rows|, rpp) - 1) * rpp
  {
  }

  /** 25 rows, 10 to a page: the third page shows rows 21 to 25. */
  lemma LastOfTwentyFive<Row>(rows: seq<Row>)
    requires |rows| == 25
    ensures |BuildRows(rows, 3, 10)| == 5 && BuildRows(rows, 3, 10)[0] == rows[20]
  {
  }

  /** The argument of `set_page(page=...)`: an int, or a string from the page field. */
  datatype PageArg = PageNumber(n: int) | PageText(s: string)

  /** `int(page)`, or `None` where it raises `ValueError`. */
  function PageValue(arg: PageArg): Option<int> {
    match arg
    case PageNumber(n) => Some(n)
    case PageText(s) => ParseInt(s)
  }

  /** The page `set_page(page=...)` selects: the requested page when it exists, page 1
      otherwise. */
  function ChosenPage(arg: PageArg, numPages: int): (p: int)
    ensures p >= 1
    ensures PageValue(arg).Some? && 1 <= PageValue(arg).value <= numPages ==> p == PageValue(arg).value
    ensures !(PageValue(arg).Some? && 1 <= PageValue(arg).value <= numPages) ==> p == 1
  {
    var v := PageValue(arg);
    if v.Some? && 1 <= v.value <= numPages then v.value else 1
  }

  /** The page size `set_rows_per_page` selects: the typed number when it is between 1
      and the number of rows, the default otherwise; never below 1. */
  function ChosenRowsPerPage(typed: string, numRows: int): (rpp: int)
    ensures rpp >= 1
    ensures ParseInt(typed).Some? && 1 <= ParseInt(typed).value <= numRows ==> rpp == ParseInt(typed).value
    ensures !(ParseInt(typed).Some? && 1 <= ParseInt(typed).value <= numRows) ==> rpp == DefaultRowsPerPage
  {
    var v := ParseInt(typed);
    if v.Some? && 1 <= v.value <= numRows then v.value else DefaultRowsPerPage
  }

  /** The page `update_data` keeps: reset to 1 when past the new last page or when
      there are no pages, kept otherwise. */
  function PageAfterUpdate(currentPage: int, numPages: nat): (p: int)
    ensures numPages == 0 || currentPage > numPages ==> p == 1
    ensures 0 < numPages && currentPage <= numPages ==> p == currentPage
  {
    if currentPage > numPages && numPages > 0 then 1
    else if numPages == 0 then 1
    else currentPage
  }

  class DataTableComponent<Row(==)> {
    var rows: seq<Row>
    var rowsPerPage: int
    var numRows: int
    var currentPage: int
    var numPages: int
    /** `shown_datatable.rows`. */
    var shownRows: seq<Row>
    /** `v_count.value`, `None` until the first redraw, and the text of
        `v_current_page`. */
    var countText: Option<string>
    var pageText: string
    /** `current_page_changer_field` and `v_current_page` visibility, and the two
        fields' values. */
    var pageFieldVisible: bool
    var pageLabelVisible: bool
    var pageFieldValue: string
    var rowsFieldValue: string

    /** The page count always matches the rows and the page size. */
    predicate Valid()
      reads this
    {
      rowsPerPage > 0 && numRows == |rows| && numPages == PageCount(numRows, rowsPerPage)
    }

    /** The current page is one the navigation buttons can reach. */
    predicate InRange()
      reads this
    {
      1 <= currentPage <= Max(1, numPages)
    }

    /** What `refresh_data` leaves on screen. */
    predicate Shown()
      reads this
      requires Valid()
    {
      shownRows == BuildRows(rows, currentPage, rowsPerPage) &&
      countText == Some("Total Rows: " + IntToString(numRows)) &&
      pageText == IntToString(currentPage) + "/" + IntToString(numPages) &&
      !pageFieldVisible && pageLabelVisible
    }

    constructor (datatableRows: seq<Row>, initialRowsPerPage: int)
      requires initialRowsPerPage > 0
      ensures Valid() && InRange()
      ensures rows == datatableRows && rowsPerPage == initialRowsPerPage && currentPage == 1
      ensures shownRows == BuildRows(rows, 1, rowsPerPage) && pageText == "1" && countText.None?
      ensures !pageFieldVisible && pageLabelVisible && pageFieldValue == "1"
      ensures rowsFieldValue == IntToString(initialRowsPerPage)
    {
      rows := datatableRows;
      rowsPerPage := initialRowsPerPage;
      numRows := |datatableRows|;
      currentPage := 1;
      numPages := PageCount(|datatableRows|, initialRowsPerPage);
      countText := None;
      pageText := IntToString(1);
      shownRows := BuildRows(datatableRows, 1, initialRowsPerPage);
      pageFieldValue := IntToString(1);
      pageFieldVisible := false;
      pageLabelVisible := true;
      rowsFieldValue := IntToString(initialRowsPerPage);
    }

    /** `refresh_data`: redraws the slice and the labels and shows the page label. */
    method RefreshData()
      requires Valid()
      modifies this
      ensures Valid() && Shown()
      ensures rows == old(rows) && rowsPerPage == old(rowsPerPage) && numRows == old(numRows)
      ensures currentPage == old(currentPage) && numPages == old(numPages)
      ensures pageFieldValue == old(pageFieldValue) && rowsFieldValue == old(rowsFieldValue)
    {
      shownRows := BuildRows(rows, currentPage, rowsPerPage);
      countText := Some("Total Rows: " + IntToString(numRows));
      pageText := IntToString(currentPage) + "/" + IntToString(numPages);
      pageFieldVisible := false;
      pageLabelVisible := true;
    }

    /** `set_page`: an explicit page wins; otherwise a non-zero delta moves the page by
        that much; with neither, nothing happens. */
    method SetPage(page: Option<PageArg>, delta: int)
      requires Valid()
      modifies this
      ensures Valid()
      ensures rows == old(rows) && rowsPerPage == old(rowsPerPage) && numRows == old(numRows)
      ensures numPages == old(numPages)
      ensures pageFieldValue == old(pageFieldValue) && rowsFieldValue == old(rowsFieldValue)
      ensures page.Some? ==> currentPage == ChosenPage(page.value, numPages) && Shown()
      ensures page.None? && delta != 0 ==> currentPage == old(currentPage) + delta && Shown()
      ensures page.None? && delta == 0 ==> unchanged(this)
    {
      if page.Some? {
        currentPage := ChosenPage(page.value, numPages);
      } else if delta != 0 {
        currentPage := currentPage + delta;
      } else {
        return;
      }
      RefreshData();
    }

    /** `next_page`: moves on only from before the last page. */
    method NextPage()
      requires Valid()
      modifies this
      ensures Valid() && numPages == old(numPages) && rows == old(rows)
      ensures rowsPerPage == old(rowsPerPage) && numRows == old(numRows)
      ensures pageFieldValue == old(pageFieldValue) && rowsFieldValue == old(rowsFieldValue)
      ensures currentPage == (if old(currentPage) < numPages then old(currentPage) + 1 else old(currentPage))
      ensures old(currentPage) < numPages ==> Shown()
      ensures old(currentPage) >= numPages ==> unchanged(this)
      ensures old(InRange()) ==> InRange()
    {
      if currentPage < numPages {
        SetPage(None, 1);
      }
    }

    /** `prev_page`: moves back only from after the first page. */
    method PrevPage()
      requires Valid()
      modifies this
      ensures Valid() && numPages == old(numPages) && rows == old(rows)
      ensures rowsPerPage == old(rowsPerPage) && numRows == old(numRows)
      ensures pageFieldValue == old(pageFieldValue) && rowsFieldValue == old(rowsFieldValue)
      ensures currentPage == (if old(currentPage) > 1 then old(currentPage) - 1 else old(currentPage))
      ensures old(currentPage) > 1 ==> Shown()
      ensures old(currentPage) <= 1 ==> unchanged(this)
      ensures old(InRange()) ==> InRange()
    {
      if currentPage > 1 {
        SetPage(None, -1);
      }
    }

    /** `goto_first_page`. */
    method GotoFirstPage()
      requires Valid()
      modifies this
      ensures Valid() && numPages == old(numPages) && rows == old(rows)
      ensures rowsPerPage == old(rowsPerPage) && numRows == old(numRows)
      ensures pageFieldValue == old(pageFieldValue) && rowsFieldValue == old(rowsFieldValue)
      ensures currentPage == 1 && InRange() && Shown()
    {
      SetPage(Some(PageNumber(1)), 0);
    }

    /** `goto_last_page`: the last page, or page 1 when there are no pages. */
    method GotoLastPage()
      requires Valid()
      modifies this
      ensures Valid() && numPages == old(numPages) && rows == old(rows)
      ensures rowsPerPage == old(rowsPerPage) && numRows == old(numRows)
      ensures pageFieldValue == old(pageFieldValue) && rowsFieldValue == old(rowsFieldValue)
      ensures currentPage == Max(1, numPages) && InRange() && Shown()
    {
      SetPage(Some(PageNumber(numPages)), 0);
    }

    /** `set_rows_per_page`: the typed size or the default, the page count for it, and
        back to page 1. */
    method SetRowsPerPage(typed: string)
      requires Valid()
      modifies this
      ensures Valid() && InRange() && Shown()
      ensures rows == old(rows) && numRows == old(numRows)
      ensures rowsPerPage == ChosenRowsPerPage(typed, numRows)
      ensures rowsFieldValue == IntToString(rowsPerPage) && pageFieldValue == old(pageFieldValue)
      ensures numPages == PageCount(numRows, rowsPerPage) && currentPage == 1
    {
      rowsPerPage := ChosenRowsPerPage(typed, numRows);
      rowsFieldValue := IntToString(rowsPerPage);
      numPages := PageCount(numRows, rowsPerPage);
      SetPage(Some(PageNumber(1)), 0);
    }

    /** `update_data`: new rows, a page count for them, and the page kept or reset. */
    method UpdateData(newRows: seq<Row>)
      requires Valid()
      modifies this
      ensures Valid() && Shown()
      ensures rows == newRows && rowsPerPage == old(rowsPerPage)
      ensures pageFieldValue == old(pageFieldValue) && rowsFieldValue == old(rowsFieldValue)
      ensures currentPage == PageAfterUpdate(old(currentPage), numPages)
      ensures 1 <= old(currentPage) ==> InRange()
    {
      rows := newRows;
      numRows := |newRows|;
      numPages := PageCount(numRows, rowsPerPage);
      currentPage := PageAfterUpdate(currentPage, numPages);
      RefreshData();
    }

    /** `toggle_page_field`: shows the page field, filled with the current page. */
    method TogglePageField()
      modifies this
      ensures !pageLabelVisible && pageFieldVisible && pageFieldValue == IntToString(currentPage)
      ensures currentPage == old(currentPage) && numPages == old(numPages) && rows == old(rows)
      ensures rowsPerPage == old(rowsPerPage) && numRows == old(numRows)
      ensures shownRows == old(shownRows) && pageText == old(pageText) && countText == old(countText)
      ensures rowsFieldValue == old(rowsFieldValue)
    {
      pageLabelVisible := false;
      pageFieldVisible := true;
      pageFieldValue := IntToString(currentPage);
    }

    /** `hide_page_field`. */
    method HidePageField()
      modifies this
      ensures !pageFieldVisible && pageLabelVisible
      ensures currentPage == old(currentPage) && numPages == old(numPages) && rows == old(rows)
      ensures rowsPerPage == old(rowsPerPage) && numRows == old(numRows)
      ensures shownRows == old(shownRows) && pageText == old(pageText) && countText == old(countText)
      ensures pageFieldValue == old(pageFieldValue) && rowsFieldValue == old(rowsFieldValue)
    {
      pageFieldVisible := false;
      pageLabelVisible := true;
    }

    /** `on_page_field_submit`: the submitted text selects the page as `set_page` does. */
    method OnPageFieldSubmit(submitted: string)
      requires Valid()
      modifies this
      ensures Valid() && Shown() && InRange()
      ensures currentPage == ChosenPage(PageText(submitted), numPages)
      ensures numPages == old(numPages) && rows == old(rows)
      ensures rowsPerPage == old(rowsPerPage) && numRows == old(numRows)
      ensures pageFieldValue == old(pageFieldValue) && rowsFieldValue == old(rowsFieldValue)
    {
      SetPage(Some(PageText(submitted)), 0);
      HidePageField();
    }
  }

  /** A non-numeric page text selects page 1. */
  lemma NonNumericPageIsFirst(s: string, numPages: int)
    requires ParseInt(s).None?
    ensures ChosenPage(PageText(s), numPages) == 1
  {
  }
}
