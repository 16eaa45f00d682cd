/**
 * The two actions that run the filter over the loaded records with the
 * form's criteria: the search, which displays the matches, and the
 * download, which exports them as CSV text.
 */
module Search {
  import opened Wrappers
  import opened LandRecords
  import opened FilterEngine
  import opened Paging
  import opened CsvExport

  /**
   * `performSearch()`: the matching records are displayed from page 1, and
   * a notice reports their number when there is at least one; with no match
   * the table is emptied and the page number, page count and bar are kept.
   */
  method PerformSearch(pager: Pager, landRecords: seq<Record>, c: Criteria) returns (notice: Option<nat>)
    requires pager.Valid()
    modifies pager
    ensures pager.Valid()
    ensures pager.records == Filter(landRecords, c)
    ensures pager.records != [] ==> pager.currentPage == 1 && pager.rows == PageRows(pager.records, 1)
    ensures pager.records == [] ==> pager.currentPage == old(pager.currentPage) && pager.totalPages == old(pager.totalPages)
    ensures pager.controlsShown <==> |Filter(landRecords, c)| > RecordsPerPage
    ensures pager.controls == if |pager.records| > RecordsPerPage then Controls(TotalPages(|pager.records|), 1) else old(pager.controls)
    ensures notice == if pager.records == [] then None else Some(|pager.records|)
  {
    var filteredRecords := Filter(landRecords, c);
    pager.DisplayResults(filteredRecords);
    if |filteredRecords| > 0 {
      notice := Some(|filteredRecords|);
    } else {
      notice := None;
    }
  }

  /**
   * `downloadResults()`: the same matches, exported; with no match the
   * outcome is the "nothing to download" error.
   */
  method DownloadResults(landRecords: seq<Record>, c: Criteria) returns (res: Result<string, ExportError>)
    ensures res == Export(Filter(landRecords, c))
    ensures res.Failure? <==> forall r :: r in landRecords ==> !Matches(r, c)
  {
    var filteredRecords := Filter(landRecords, c);
    FilterEmptyIff(landRecords, c);
    res := BuildCsv(filteredRecords);
  }

  /**
   * When no field of any record holds a quote or a line break, the
   * downloaded text consists of the header line and one line per match;
   * line `k + 1` reads back as number `k + 1` and the `k`-th match, in
   * the order a search with the same form values displays them.
   */
  lemma DownloadListsSearchResults(landRecords: seq<Record>, c: Criteria)
    requires forall r :: r in landRecords ==> NoLineBreaks(r) && NoQuotes(r)
    requires Filter(landRecords, c) != []
    ensures Export(Filter(landRecords, c)).Success?
    ensures
      var found := Filter(landRecords, c);
      var lines := SplitLines(Export(found).value);
      |lines| == |found| + 2 && lines[0] == Header &&
      forall k :: 0 <= k < |found| ==> ParseRow(lines[k + 1]) == Some((k + 1, found[k]))
  {
    var found := Filter(landRecords, c);
    forall k | 0 <= k < |found|
      ensures NoLineBreaks(found[k]) && NoQuotes(found[k])
    {
      FilterMembership(landRecords, c, found[k]);
    }
    CsvReadsBack(found);
  }
}
