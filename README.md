# Land-record search: a Dafny model of the search page's data pipeline

The search page (`script.js`) loads a list of land records (taluka, village,
holder name, year, survey number, non-agricultural type, link to the
drawing) and lets a user find records with a six-field form. This project
models the part of the page that computes:

- the **filter** that `performSearch` and `downloadResults` both apply
  (exact taluka, village and type; case-insensitive substring holder name
  and survey number; loose year equality; an empty field imposes nothing);
- the **pager**: the global `currentPage`, the page count, the ten-record
  window `displayPage` shows with its row numbers, the Previous / page /
  Next bar `displayPagination` builds, and the three button handlers;
- the **CSV export** built by `downloadResults`: an error with no match,
  otherwise the fixed header and one quoted, 1-based numbered row per match;
- the **dropdown choices**: distinct talukas and villages in order of first
  appearance, distinct years newest first, and the village list rebuilt
  for the selected taluka (`updateVillages`' `while` loop and appends);
- the two **input filters** that delete disallowed characters from the
  holder-name and survey-number fields.

Modules: `Wrappers` and `Seqs` (Option/Result, first-occurrence search,
subsequences), `Text` (ASCII lower-casing, `includes`, numerals),
`LandRecords` (record and criteria), `FilterEngine`, `Paging` (functions
plus the `Pager` class holding the page state), `CsvExport`, `Dropdowns`
(functions plus the `SearchForm` class holding the select options),
`Sanitizers`, and `Search` (the two actions wired to the filter).

Three behaviours of the code shape the model:

- The page number is never clamped. Page buttons exist only for pages
  1 to the page count, and Previous and Next test their bound before
  moving. So `Paging.Pager.JumpTo` requires a page in that range.
- With no match, `displayResults` leaves `currentPage` as it was.
- The download reads the form again and filters again. It exports the
  matches for the form's current values, not the table on display, so the
  two differ when the form was edited after the search.
- The CSV text ends with a line break after every line. Splitting it at
  line breaks therefore gives the n + 1 lines and a final empty piece.

## Model

| member | source | states |
|---|---|---|
| FilterEngine.FieldHolds | script.js:206-211 | one field test; a field whose criterion is blank imposes nothing |
| FilterEngine.Matches | script.js:206-211 | a record matches exactly when each of the six field tests holds |
| FilterEngine.Filter | script.js:205-212 | the matches are never more than the records |
| FilterEngine.FilterMembership | script.js:205-212 | a record is in the result exactly when it is in the input and meets every criterion |
| FilterEngine.FilterEmptyIff | script.js:205-212 | the result is empty exactly when no record matches |
| FilterEngine.ExcludedFailsSomeField | script.js:206-211 | a record left out fails the test of at least one field whose criterion is not blank |
| FilterEngine.FilterAppend | script.js:205-212 | filtering a concatenation is the concatenation of the filtered parts (stability) |
| FilterEngine.FilterIsSubsequence | script.js:205-212 | the result is an order-preserving subsequence of the records |
| FilterEngine.FilterMultiplicity | script.js:205-212 | each matching record keeps its number of occurrences, every other record has none |
| FilterEngine.FilterNoCriteria | script.js:205-212 | an empty form returns every record in order |
| FilterEngine.HolderNameIgnoresCase | script.js:199-209 | the holder-name test holds exactly when the lower-cased criterion occurs in the lower-cased name |
| FilterEngine.SurveyNoIgnoresCase | script.js:200-209 | the same for the survey number |
| FilterEngine.FilterCaseInsensitive | script.js:199-209 | lower-casing the typed holder name and survey number does not change the result |
| FilterEngine.HolderNameExample | script.js:208 | "ram" finds "Ramesh Patil" |
| FilterEngine.YearNumeralMatches | script.js:210 | a year select value (the year's numeral) matches exactly the records of that year |
| FilterEngine.TalukaExample | script.js:206 | of two records, taluka "A" finds only the first |
| Text.Lower | script.js:199-200 | lower-casing keeps the length, maps each upper-case letter to its lower-case partner, leaves every other character as it is, and leaves no upper-case letter |
| Text.LowerIsIdempotent | script.js:199-200 | lower-casing twice is lower-casing once |
| Text.Contains | script.js:208-209 | a string contains a part only if the part is no longer than it |
| Text.ContainsAt | script.js:208-209 | `includes` holds exactly when the part occurs at some position |
| Text.ShowNat | script.js:420 | the rendered index is a non-empty string of digits, without a leading zero, whose value is the index |
| Text.ParseInt | script.js:210 | a criterion denotes a year only if it is non-empty and ends with a digit, and a non-negative one unless it starts with '-' |
| Text.ParseShowInt | script.js:210 | comparing a year with its own numeral succeeds: the numeral reads back as the year |
| Text.ShowIntPlain | script.js:420 | a rendered year holds neither a line break nor a quote |
| Paging.TotalPages | script.js:254 | the page count is the least number of ten-record pages holding all results, 0 only for none |
| Paging.PageWindow | script.js:273-275 | a page shows consecutive results from its first index, ten of them or the rest of the list when fewer remain, and is non-empty exactly for pages 1 to the page count |
| Paging.PageRows | script.js:281-285 | at most ten rows; row k of a page is numbered startIndex + k + 1, the 1-based position of its record |
| Paging.PagesUpToPrefix | script.js:273-275 | the first k pages together are the first 10 k results |
| Paging.PagesCoverResults | script.js:273-275 | pages 1 to the page count together are exactly the results, in order |
| Paging.Controls | script.js:318-355 | the bar is Previous, one button per page numbered 1 to the page count, then Next |
| Paging.ControlsAgreeWithHandlers | script.js:318-355 | on a valid page only the current page's button is active, and Previous and Next are disabled exactly at the bounds where their handlers do nothing |
| Paging.Pager.constructor | script.js:3 | on load nothing is shown and the current page is 1 |
| Paging.Pager.DisplayPage | script.js:271-300 | the table body becomes the rows of the requested page |
| Paging.Pager.DisplayPagination | script.js:314-356 | the bar becomes Previous, one button per page, Next, for the current page |
| Paging.Pager.DisplayResults | script.js:230-266 | new results: page count recomputed, current page 1, page 1 shown, bar shown exactly when there are more than ten; no results: table emptied and bar hidden |
| Paging.Pager.Previous | script.js:321-329 | moves back one page only when past page 1, otherwise changes nothing, keeping 1 <= page <= page count |
| Paging.Pager.JumpTo | script.js:331-342 | shows the chosen page, keeping 1 <= page <= page count |
| Paging.Pager.Next | script.js:346-355 | moves forward one page only before the last, a no-op on the last page, keeping 1 <= page <= page count |
| Paging.TwentyFiveResults | script.js:247-355 | 25 results make three pages; three Nexts end on page 3 showing results 21 to 25 |
| CsvExport.RowLine | script.js:420 | a row starts with `"k",` for its number k |
| CsvExport.CsvText | script.js:417-421 | the text starts with the header line |
| CsvExport.Export | script.js:411-421 | export fails exactly when there are no results, and otherwise starts with the header line |
| CsvExport.BuildCsv | script.js:411-421 | no results gives the "nothing to download" error, otherwise the loop's text is the header, a line break, and each record's row followed by a line break |
| CsvExport.CsvTextSnoc | script.js:419-421 | one more iteration appends exactly that record's row and a line break |
| CsvExport.CsvLines | script.js:417-421 | the text splits into the header, one row per record in order, each starting with its quoted 1-based number |
| CsvExport.ParseRowLine | script.js:420 | a row of a record without quotes in its values reads back as its number and the record |
| CsvExport.RowsReadBack | script.js:419-421 | row k of the export reads back as number k + 1 and the k-th record |
| CsvExport.CsvReadsBack | script.js:417-421 | the whole text reads back as the header and the numbered records, in order |
| CsvExport.QuoteInValueBreaksRow | script.js:420 | since quotes are not escaped, a holder name that is a lone quote makes the row unreadable |
| Dropdowns.Distinct | script.js:124-126 | each value once, and exactly the values of the input |
| Dropdowns.DistinctKeepsFirstOccurrenceOrder | script.js:124-126 | distinct values appear in the order of their first occurrences |
| Dropdowns.SortDescending | script.js:126 | the sort gives the same values, largest first |
| Dropdowns.SortDistinctIsStrict | script.js:126 | sorting values without repeats gives a strictly descending list |
| Dropdowns.TalukaChoices | script.js:124 | no taluka is offered twice |
| Dropdowns.YearChoices | script.js:126 | the years offered are distinct and strictly newest first |
| Dropdowns.VillageChoices | script.js:163-186 | no village is offered twice |
| Dropdowns.TalukaChoicesSpec | script.js:124 | a taluka is offered exactly when some record is in it |
| Dropdowns.YearChoicesSpec | script.js:126 | a year is offered exactly when some record has it |
| Dropdowns.VillageChoicesSpec | script.js:163-186 | a village is offered exactly when a record lies in it (and in the selected taluka, if any) |
| Dropdowns.OfferedVillageFindsRecords | script.js:165-170 | a taluka and one of the villages offered for it find at least one record |
| Dropdowns.OfferedYearFindsRecords | script.js:145-149 | any offered year finds at least one record |
| Dropdowns.AppendOptions | script.js:137-142 | the options, then one more option per value, in order |
| Dropdowns.AppendYearOptions | script.js:145-150 | the same for years, each option's value being the year's numeral |
| Dropdowns.SearchForm.PopulateDropdowns | script.js:118-151 | appends the distinct talukas, the distinct villages and the distinct years newest first |
| Dropdowns.SearchForm.UpdateVillages | script.js:154-187 | keeps only the first village option, then appends the villages offered for the selected taluka |
| Sanitizers.Allowed | script.js:63-71 | letters, Devanagari and white space are allowed in both fields; digits, '/', '-' and '.' are allowed in the survey number; nothing else is allowed |
| Sanitizers.Sanitize | script.js:63-71 | the new value holds only allowed characters and is no longer than the old |
| Sanitizers.SanitizeIsSubsequence | script.js:63-71 | the kept characters keep their order |
| Sanitizers.SanitizeMultiplicity | script.js:63-71 | every allowed character keeps its count, every other one is removed |
| Sanitizers.SanitizeUnchangedIff | script.js:63-71 | a value is unchanged exactly when all its characters are allowed |
| Sanitizers.SanitizeIdempotent | script.js:63-71 | filtering a filtered value changes nothing |
| Sanitizers.HolderNameFilterIsStricter | script.js:63-71 | whatever the holder-name filter keeps, the survey-number filter keeps |
| Sanitizers.SanitizeExample | script.js:63-71 | digits and '/' are dropped from a holder name, kept in a survey number; '!' is dropped from both |
| Search.PerformSearch | script.js:191-226 | the matches are displayed from page 1 and their number is reported when there is one; the bar is rebuilt and shown exactly when there are more than ten; with no match the page number, page count and bar are kept |
| Search.DownloadResults | script.js:393-421 | the export of the same matches, failing exactly when no record matches |
| Search.DownloadListsSearchResults | script.js:393-421 | without quotes or line breaks in the values, the downloaded text reads back as the header and every match, in the order a search with the same form values displays them |

## Left out

- Loading the records (`fetch` of the JSON file, its error notice): external I/O; the records are a parameter (script.js:75-100).
- The one-second `setTimeout` before a search, the loading spinner and the auto-hiding notices: timers and display only. `Search.PerformSearch` returns the count the success notice shows.
- The `try`/`catch` around the search: nothing in the modelled filter throws.
- DOM building and styling, the results-section visibility, the PDF popup, scroll locking, the keyboard shortcuts and the reset button: display only.
- The Blob, object URL, file name and `link.click()` of the download, and `window.print`: browser services. The model stops at the CSV text.
- The UTF-8 encoding of the downloaded file: the text is modelled as a sequence of characters.
- `updateStatistics` (counts and `Math.min(...years)`): header figures only; on an empty list its minimum is `Infinity`.
- The first option of each select comes from the page markup, which is not part of this model. `Dropdowns.SearchForm` holds whatever options are there and appends to them.
- Text.Lower: only ASCII letters are mapped to lower case. Devanagari has no case, and the other Unicode case mappings of `toLowerCase` are not modelled.
- Text.ParseInt: the loose year comparison reads the criterion as an optional sign followed by decimal digits. The other spellings JavaScript's number conversion accepts (surrounding spaces, decimals, exponents, hexadecimal) are not modelled. The year select only ever offers plain numerals.
- Paging.Pager.Previous: the handlers require the bar to be shown (more than ten results), because their buttons exist only then. This holds for Paging.Pager.Next and Paging.Pager.JumpTo too.
- CsvExport.CsvReadsBack: reading back is stated only for values without double quotes or line breaks. Quotes are emitted unescaped, as the page does. `CsvExport.QuoteInValueBreaksRow` shows what a quote in a value does.
- Sanitizers.Sanitize: characters are Unicode scalar values. The page's regular expressions work on UTF-16 code units. Both remove a character outside the Basic Multilingual Plane completely, so the results agree.
