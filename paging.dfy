/**
 * Pagination of a result list: ten records per page, the window a page
 * shows with its row numbers, the Previous / page / Next controls, and the
 * page state that `displayResults` resets and the controls move.
 */
module Paging {
  import opened Seqs
  import opened LandRecords

  const RecordsPerPage: nat := 10

  /** `Math.ceil(n / recordsPerPage)`: the fewest pages that hold `n` records. */
  function TotalPages(n: nat): (t: nat)
    ensures t == 0 <==> n == 0
    ensures t > 0 ==> (t - 1) * RecordsPerPage < n <= t * RecordsPerPage
  {
    (n + RecordsPerPage - 1) / RecordsPerPage
  }

  /** Index in the result list of the first record of `page` (pages count from 1). */
  function PageStart(page: int): int
  {
    (page - 1) * RecordsPerPage
  }

  /**
   * `records.slice(startIndex, endIndex)` with `endIndex` the smaller of
   * `startIndex + recordsPerPage` and the number of records: at most ten
   * consecutive records starting at the page's first index, and non-empty
   * exactly for the pages 1 to the page count.
   */
  function PageWindow(records: seq<Record>, page: int): (w: seq<Record>)
    requires page >= 1
    ensures |w| <= RecordsPerPage
    ensures w != [] ==> PageStart(page) + |w| <= |records|
    ensures forall j :: 0 <= j < |w| ==> PageStart(page) + j < |records| && w[j] == records[PageStart(page) + j]
    ensures w != [] <==> page <= TotalPages(|records|)
    ensures page <= TotalPages(|records|) ==> |w| == Min(RecordsPerPage, |records| - PageStart(page))
  {
    var startIndex := PageStart(page);
    var endIndex := Min(startIndex + RecordsPerPage, |records|);
    if startIndex < endIndex then records[startIndex..endIndex] else []
  }

  /** A table row: the number in its first cell and the record it shows. */
  datatype Row = Row(number: nat, record: Record)

  /**
   * The rows `displayPage(records, page)` puts in the table body: at most
   * ten, row `k` numbered `startIndex + k + 1`, which is the 1-based
   * position of its record in the whole result list.
   */
  function PageRows(records: seq<Record>, page: int): (rows: seq<Row>)
    requires page >= 1
    ensures |rows| <= RecordsPerPage
    ensures forall k :: 0 <= k < |rows| ==>
      rows[k].number == PageStart(page) + k + 1 && 1 <= rows[k].number <= |records| && records[rows[k].number - 1] == rows[k].record
  {
    var w := PageWindow(records, page);
    seq(|w|, j requires 0 <= j < |w| => Row(PageStart(page) + j + 1, w[j]))
  }

  /** The windows of pages 1 to `k`, one after the other. */
  function PagesUpTo(records: seq<Record>, k: nat): seq<Record>
  {
    if k == 0 then [] else PagesUpTo(records, k - 1) + PageWindow(records, k)
  }

  /** The first `k` pages hold exactly the first `10 k` records (or all of them). */
  lemma {:induction false} PagesUpToPrefix(records: seq<Record>, k: nat)
    ensures PagesUpTo(records, k) == records[..Min(k * RecordsPerPage, |records|)]
  {
    if k > 0 {
      PagesUpToPrefix(records, k - 1);
      var startIndex := (k - 1) * RecordsPerPage;
      var endIndex := Min(startIndex + RecordsPerPage, |records|);
      assert k * RecordsPerPage == startIndex + RecordsPerPage;
      assert PagesUpTo(records, k) == PagesUpTo(records, k - 1) + PageWindow(records, k);
      if startIndex < |records| {
        assert PageWindow(records, k) == records[startIndex..endIndex];
        assert records[..startIndex] + records[startIndex..endIndex] == records[..endIndex];
      } else {
        assert PageWindow(records, k) == [];
      }
    }
  }

  /** Reading pages 1 to the page count in turn shows every result exactly once, in order. */
  lemma PagesCoverResults(records: seq<Record>)
    ensures PagesUpTo(records, TotalPages(|records|)) == records
  {
    PagesUpToPrefix(records, TotalPages(|records|));
  }

  /** One control of the pagination bar. */
  datatype Control = PrevButton(disabled: bool) | PageButton(page: nat, active: bool) | NextButton(disabled: bool)

  /** The bar `displayPagination` builds: Previous, one button per page numbered from 1, Next. */
  function Controls(totalPages: nat, currentPage: int): (bar: seq<Control>)
    ensures |bar| == totalPages + 2
    ensures bar[0].PrevButton? && bar[totalPages + 1].NextButton?
    ensures forall k :: 1 <= k <= totalPages ==> bar[k].PageButton? && bar[k].page == k
  {
    [PrevButton(currentPage == 1)]
    + seq(totalPages, j requires 0 <= j < totalPages => PageButton(j + 1, j + 1 == currentPage))
    + [NextButton(currentPage == totalPages)]
  }

  /**
   * On a valid page exactly the current page's button is active, Previous
   * is disabled exactly when its handler would do nothing, and so is Next.
   */
  lemma ControlsAgreeWithHandlers(totalPages: nat, currentPage: int)
    requires 1 <= currentPage <= totalPages
    ensures Controls(totalPages, currentPage)[0].disabled <==> !(currentPage > 1)
    ensures Controls(totalPages, currentPage)[totalPages + 1].disabled <==> !(currentPage < totalPages)
    ensures forall k :: 0 <= k < totalPages + 2 ==>
      (Controls(totalPages, currentPage)[k].PageButton? && Controls(totalPages, currentPage)[k].active <==> k == currentPage)
  {
  }

  /**
   * The page state of the results table: the result list last displayed,
   * its page count (captured by the pagination handlers), the global
   * current page, whether the pagination bar is shown, the bar's controls
   * and the rows of the table body.
   */
  class Pager {
    var records: seq<Record>
    var totalPages: nat
    var currentPage: int
    var controlsShown: bool
    var controls: seq<Control>
    var rows: seq<Row>

    ghost predicate Valid()
      reads this
    {
      && currentPage >= 1
      && (records != [] ==>
            totalPages == TotalPages(|records|) && currentPage <= totalPages &&
            rows == PageRows(records, currentPage))
      && (records == [] ==> rows == [])
      && controlsShown == (|records| > RecordsPerPage)
      && (controlsShown ==> controls == Controls(totalPages, currentPage))
    }

    /** The state on page load: nothing displayed, `currentPage = 1`. */
    constructor ()
      ensures Valid()
      ensures records == [] && currentPage == 1 && rows == [] && !controlsShown && controls == []
    {
      records := [];
      totalPages := 0;
      currentPage := 1;
      controlsShown := false;
      controls := [];
      rows := [];
    }

    /** `displayPage(records, page)`: rebuild the table body from the page's window. */
    method DisplayPage(page: int)
      requires page >= 1
      modifies this`rows
      ensures rows == PageRows(records, page)
    {
      var startIndex := PageStart(page);
      var endIndex := Min(startIndex + RecordsPerPage, |records|);
      var pageRecords := if startIndex < endIndex then records[startIndex..endIndex] else [];
      rows := [];
      var index := 0;
      while index < |pageRecords|
        invariant 0 <= index <= |pageRecords|
        invariant rows == seq(index, j requires 0 <= j < index => Row(startIndex + j + 1, pageRecords[j]))
      {
        rows := rows + [Row(startIndex + index + 1, pageRecords[index])];
        index := index + 1;
      }
    }

    /** `displayPagination(totalPages, records)`: rebuild the bar for the current page. */
    method DisplayPagination()
      modifies this`controls
      ensures controls == Controls(totalPages, currentPage)
    {
      var current, total := currentPage, totalPages;
      controls := [PrevButton(current == 1)];
      for i := 1 to total + 1
        invariant controls == [PrevButton(current == 1)]
          + seq(i - 1, j requires 0 <= j < i - 1 => PageButton(j + 1, j + 1 == current))
      {
        controls := controls + [PageButton(i, i == current)];
      }
      controls := controls + [NextButton(currentPage == totalPages)];
    }

    /**
     * `displayResults(results)`: with no results the table is emptied and the
     * bar hidden, leaving the page number as it was; otherwise the page count
     * is recomputed, the current page reset to 1, the bar rebuilt and shown
     * when there is more than one page's worth, and page 1 displayed.
     */
    method DisplayResults(results: seq<Record>)
      requires Valid()
      modifies this
      ensures Valid()
      ensures records == results
      ensures results != [] ==> currentPage == 1 && totalPages == TotalPages(|results|) && rows == PageRows(results, 1)
      ensures results == [] ==> currentPage == old(currentPage) && totalPages == old(totalPages) && rows == []
      ensures controlsShown <==> |results| > RecordsPerPage
      ensures controls == if |results| > RecordsPerPage then Controls(TotalPages(|results|), 1) else old(controls)
    {
      rows := [];
      records := results;
      if |results| == 0 {
        controlsShown := false;
      } else {
        totalPages := TotalPages(|results|);
        currentPage := 1;
        if |results| > RecordsPerPage {
          DisplayPagination();
          controlsShown := true;
        } else {
          controlsShown := false;
        }
        DisplayPage(1);
      }
    }

    /** The Previous button: go back one page unless on page 1. */
    method Previous()
      requires Valid() && controlsShown
      modifies this`currentPage, this`rows, this`controls
      ensures Valid()
      ensures currentPage == if old(currentPage) > 1 then old(currentPage) - 1 else old(currentPage)
      ensures old(currentPage) == 1 ==> rows == old(rows) && controls == old(controls)
      ensures rows == PageRows(records, currentPage) && controls == Controls(totalPages, currentPage)
    {
      if currentPage > 1 {
        currentPage := currentPage - 1;
        DisplayPage(currentPage);
        DisplayPagination();
      }
    }

    /** A page button: show page `i`. */
    method JumpTo(i: int)
      requires Valid() && controlsShown
      requires 1 <= i <= totalPages
      modifies this`currentPage, this`rows, this`controls
      ensures Valid()
      ensures currentPage == i
      ensures rows == PageRows(records, i) && controls == Controls(totalPages, i)
    {
      currentPage := i;
      DisplayPage(currentPage);
      DisplayPagination();
    }

    /** The Next button: go forward one page unless on the last page. */
    method Next()
      requires Valid() && controlsShown
      modifies this`currentPage, this`rows, this`controls
      ensures Valid()
      ensures currentPage == if old(currentPage) < totalPages then old(currentPage) + 1 else old(currentPage)
      ensures old(currentPage) == totalPages ==> rows == old(rows) && controls == old(controls)
      ensures rows == PageRows(records, currentPage) && controls == Controls(totalPages, currentPage)
    {
      if currentPage < totalPages {
        currentPage := currentPage + 1;
        DisplayPage(currentPage);
        DisplayPagination();
      }
    }
  }

  /**
   * Twenty-five results: three pages, page 1 shows the first ten; Next twice
   * reaches page 3 and a third Next stays there, showing results 21 to 25.
   */
  method TwentyFiveResults(results: seq<Record>) returns (pages: nat, finalPage: int, finalRows: seq<Row>)
    requires |results| == 25
    ensures pages == 3 && finalPage == 3
    ensures |finalRows| == 5 && finalRows[0] == Row(21, results[20]) && finalRows[4] == Row(25, results[24])
  {
    var pager := new Pager();
    pager.DisplayResults(results);
    assert pager.currentPage == 1 && pager.controlsShown;
    assert |pager.rows| == 10 && pager.rows[0] == Row(1, results[0]);
    pager.Next();
    pager.Next();
    assert pager.currentPage == 3;
    pager.Next();
    pages, finalPage, finalRows := pager.totalPages, pager.currentPage, pager.rows;
  }
}
