# NBA MVP viewer: a Dafny model of its data core

MVPViewerEnhanced is a Swing window that loads `mvp_candidates.csv`
into a list of player records. It shows them in a table, filters them by
a name search and a team, sorts them on one of seven keys in either
direction, and exports the table as CSV or JSON. This project models
what that window computes, and proves properties of the model:

- `Text` covers the Java string operations the program relies on:
  `toLowerCase` on ASCII letters, `contains`, `String.compareTo`,
  `split(",")` with its removal of trailing empty strings, the
  StringBuilder join, `Integer.toString` and `trim`.
- `Numbers` covers `Double.parseDouble` as a partial function on
  decimal text. Values are exact reals.
- `Players` covers the `PlayerData` record and the seven entries of
  the "Sort by" combo box. It also holds the comparators the sort
  switch hands to `List.sort`.
- `Lists` covers `ArrayList.removeIf`, both as a function and as the
  in-place compaction of an array.
- `Sorting` covers the stable sort `List.sort` performs:
  - a functional insertion sort, which is its specification;
  - an in-place insertion sort on an array, proved equal to it;
  - proofs of permutation, order, stability, and reversal when there
    are no ties.
- `Teams` covers the `TreeSet` of teams behind the team combo box.
- `View` covers `applyFilters`: the two removeIf stages, the sort and
  the numbered rows.
- `Loading` covers the parse loop of `loadData`: which lines give
  records, which are skipped, and which end the load.
- `Summary` covers the status line written by `updateStats`.
- `Export` covers the lines `exportToCSV` and `exportToJSON` write from
  the table model.
- `Viewer` is the window as a class, `MvpViewer`. Its fields are the
  state its widgets hold:
  - the records;
  - the search text;
  - the team combo box and its selection;
  - the sort key;
  - the ascending check box;
  - the status label;
  - the table model.

  Its methods are the user actions wired up in `setupEventHandlers`
  and on the buttons.

Where the code does something a reader might not expect, the model follows the code:
- The field-count guard is `data.length >= 7`, although eight fields are read (see Findings).
- Names are written into the JSON file without escaping.
- The CSV export puts a rank column first, so an exported file is not
  one `loadData` reads back (`Export.ExportedRowNotLoadable`).
- With no records the status line reads "No data loaded" rather than
  showing a zero average.

Java's evaluation order matters in the parse loop. The constructor
arguments are evaluated left to right, so `data[2]` to `data[6]` are
parsed before `data[7]` is read. The outcomes are:
- A seven-field line with an unparsable statistic is skipped, because
  the NumberFormatException is caught.
- A seven-field line whose statistics all parse throws
  ArrayIndexOutOfBoundsException. That exception escapes to the outer
  `catch (Exception e)`, so the rest of the load is abandoned. The
  records read before that line stay in the list, and the table, the
  team combo box and the status label are not updated:
  - on the first load the table gets no columns, the team combo box
    stays empty and the status label keeps "Ready";
  - on a reload by the Refresh button the previous columns, rows, teams
    and status stay.

## Model

| member | source | states |
|---|---|---|
| Text.ToLower | MVPViewerEnhanced.java:380 | toLowerCase keeps the length, turns each upper-case letter into its lower-case letter and changes no other character |
| Text.ContainsIff | MVPViewerEnhanced.java:382 | contains is true exactly when the needle occurs at some index of the name |
| Text.CompareTextFlip | MVPViewerEnhanced.java:427-429 | String.compareTo is antisymmetric in sign |
| Text.CompareTextZero | MVPViewerEnhanced.java:427-429 | String.compareTo is zero exactly on equal strings |
| Text.CompareTextTransitive | MVPViewerEnhanced.java:427-429 | String.compareTo is transitive |
| Text.SplitJoinDropsTrailing | MVPViewerEnhanced.java:265 | split(",") of two or more comma-free fields joined by commas gives those fields back without their trailing empty ones |
| Text.SplitJoin | MVPViewerEnhanced.java:265 | split(",") of comma-free fields joined by commas gives those fields back, when the last is not empty |
| Text.JoinSnoc | MVPViewerEnhanced.java:471-481 | appending a cell to a joined line adds one comma and the cell |
| Text.NatToStringValue | MVPViewerEnhanced.java:316 | the digits Integer.toString writes for a rank have that rank as their value |
| Numbers.ParseIntToString | MVPViewerEnhanced.java:274-279 | Double.parseDouble reads the text of any integer back as that integer |
| Numbers.ParseNegated | MVPViewerEnhanced.java:274-279 | a minus sign followed by digits parses as minus their value |
| Numbers.ParseNeedsDigit | MVPViewerEnhanced.java:274-282 | a field without a decimal digit throws NumberFormatException (None), the NaN and Infinity words aside (see Left out) |
| Players.SortKeysListed | MVPViewerEnhanced.java:128-130 | the sort combo box lists all seven keys, each once, under distinct labels |
| Players.CompareReal | MVPViewerEnhanced.java:398 | Double.compare is zero exactly on equal values and negative exactly when the first is smaller |
| Players.ComparatorFlip | MVPViewerEnhanced.java:395-431 | each sort lambda, in either direction, is antisymmetric and ties exactly on equal key values |
| Players.ComparatorTransitive | MVPViewerEnhanced.java:395-431 | each sort lambda, in either direction, is transitive |
| Lists.RemoveIfCounts | MVPViewerEnhanced.java:382 | removeIf keeps every element its predicate does not drop, as often as it occurred, and no other |
| Lists.RemoveIfMembers | MVPViewerEnhanced.java:388 | an element survives removeIf exactly when it was present and not dropped |
| Lists.RemoveIfTwice | MVPViewerEnhanced.java:379-389 | the two removeIf stages in a row equal one removeIf dropping what either drops |
| Lists.RemoveIfInPlace | MVPViewerEnhanced.java:382 | compacting an array prefix in place leaves the kept elements in order at the front and the rest of the array untouched |
| Sorting.SortByPermutes | MVPViewerEnhanced.java:397-429 | the sorted list holds the same records, each as often |
| Sorting.SortBySorted | MVPViewerEnhanced.java:397-429 | the sorted list is ordered by any comparator that is a total preorder |
| Sorting.SortByStable | MVPViewerEnhanced.java:397-429 | records that tie keep their relative order (List.sort is stable) |
| Sorting.OppositeReverses | MVPViewerEnhanced.java:397-399 | without ties, sorting with the swapped comparator gives the reverse order |
| Sorting.InsertionSort | MVPViewerEnhanced.java:397-429 | the in-place sort of an array prefix yields exactly the specified stable sort and leaves the rest of the array alone |
| Teams.TreeAdd | MVPViewerEnhanced.java:334-337 | TreeSet.add keeps the set strictly ascending and adds exactly the new team |
| Teams.TeamsListed | MVPViewerEnhanced.java:334-341 | every team of the records is listed once, no other, in ascending order |
| Teams.AscendingUnique | MVPViewerEnhanced.java:339-341 | the listing depends only on the set of teams |
| Teams.CollectTeams | MVPViewerEnhanced.java:330-342 | the loop yields "All Teams" followed by the ascending team listing |
| View.Ranked | MVPViewerEnhanced.java:435-449 | row i shows the i-th record with rank i + 1 |
| View.NumberRows | MVPViewerEnhanced.java:313-327 | the row loop produces the ranked rows |
| View.FilterAndSort | MVPViewerEnhanced.java:377-431 | copying, both removeIf stages on an array and the in-place sort produce the specified view |
| View.ComparatorForValid | MVPViewerEnhanced.java:395-431 | every key's comparator is a total preorder in both directions, the descending one is the ascending one swapped, and ties are equal keys |
| View.FilteredCounts | MVPViewerEnhanced.java:379-389 | the filters keep exactly the records passing the name and team tests, each as often as loaded |
| View.ViewContents | MVPViewerEnhanced.java:377-431 | the view is a permutation of exactly the records that pass both filters |
| View.ViewOrdered | MVPViewerEnhanced.java:392-431 | the view is ordered on the chosen key in the chosen direction |
| View.ViewOrderedByStat | MVPViewerEnhanced.java:395-425 | on a numeric key the statistic never decreases (ascending) or never increases (descending) down the view |
| View.ViewStable | MVPViewerEnhanced.java:392-431 | tied records keep their post-filter order in either direction |
| View.DescendingReversesAscending | MVPViewerEnhanced.java:397-429 | without ties the descending view is the ascending view reversed |
| View.TiesKeepOrderInBothDirections | MVPViewerEnhanced.java:397-399 | two distinct records tied on MVP score keep load order in both directions, so the descending view is not the ascending one reversed |
| View.OneTeamStageKeepsAll | MVPViewerEnhanced.java:386-389 | when every record belongs to the selected team, the team removeIf removes nothing |
| View.NoFilterKeepsAll | MVPViewerEnhanced.java:380-389 | empty search text with "All Teams" or no selection keeps every record |
| View.ResetView | MVPViewerEnhanced.java:452-458 | after a reset the view is every record by MVP score from the highest |
| Loading.ReadRecords | MVPViewerEnhanced.java:256-286 | the read loop skips the first line and returns the records and whether an exception ended it, as the load function says |
| Loading.LoadSources | MVPViewerEnhanced.java:264-285 | each record comes from its own data line that parses to it, in file order |
| Loading.LoadAppend | MVPViewerEnhanced.java:264-286 | the lines after an aborting stretch are never read; otherwise their records follow |
| Loading.RecordLineAppends | MVPViewerEnhanced.java:271-281 | a parsable line appends exactly its record |
| Loading.SkippedLineIgnored | MVPViewerEnhanced.java:282-284 | a skipped line changes nothing wherever it stands |
| Loading.AbortKeepsPrefix | MVPViewerEnhanced.java:295-299 | an aborting line ends the load with the records read before it |
| Loading.ParsedFields | MVPViewerEnhanced.java:270-281 | eight or more fields whose statistics parse give the record of the first eight, under either guard |
| Loading.FieldsOutcome | MVPViewerEnhanced.java:269-284 | under either guard and for any number parser: a record exactly when there are eight fields whose six statistics parse, and then the record of fields 0 to 7; an abort exactly when the guard of seven admits seven fields whose five statistics parse; a skip whenever a statistic present fails to parse |
| Loading.ParseLineOutcomes | MVPViewerEnhanced.java:265-284 | a data line gives a PlayerData only if it has eight fields whose six statistics parse, and then the record of those fields; it aborts exactly when it has seven fields whose five statistics parse; a statistic that fails to parse makes it be skipped |
| Loading.IntendedLineOutcomes | MVPViewerEnhanced.java:269-284 | with the corrected guard a line gives the same records under the same condition and never aborts |
| Loading.LineOfFields | MVPViewerEnhanced.java:265-281 | a line splitting into eight or more fields with parsable statistics gives the record of its first eight fields (the converse is Loading.ParseLineOutcomes) |
| Loading.WellFormedLine | MVPViewerEnhanced.java:265-281 | a comma-joined line of comma-free name and team, six integers and any further comma-free fields, empty ones included, loads as that record |
| Loading.SevenFieldLineAborts | MVPViewerEnhanced.java:269-279 | a line joined from a comma-free name and team and five integer statistics aborts under the written guard and is skipped under the corrected one |
| Loading.FirstLineOutcome | MVPViewerEnhanced.java:262-268 | the header line is never parsed; an aborting first data line loads nothing and a skipped one is ignored |
| Loading.FirstLineAborts | MVPViewerEnhanced.java:262-279 | a file whose first data line aborts loads nothing; with the corrected guard the rest loads |
| Loading.SevenFieldFileAborts | MVPViewerEnhanced.java:269-279 | a file whose first data line is "Alice,TeamA,30,5,10,2,1" loads no record at all |
| Loading.IntendedLineNeverAborts | MVPViewerEnhanced.java:269-285 | with the guard data.length >= 8 no line aborts |
| Loading.IntendedLoadCompletes | MVPViewerEnhanced.java:264-286 | with the corrected guard every load reaches the end of the file |
| Loading.GuardsAgree | MVPViewerEnhanced.java:269 | the written and corrected guards differ only on lines of exactly seven fields |
| Loading.LoadsAgree | MVPViewerEnhanced.java:264-286 | files without seven-field lines load the same under both guards |
| Loading.SameOutcomesSameLoad | MVPViewerEnhanced.java:264-286 | two line parsers that agree on every line load the same records |
| Summary.Summarize | MVPViewerEnhanced.java:344-356 | "No data loaded" exactly when there are no records, and the loaded summary exactly when there are some, with the count and the first record |
| Summary.SumBounds | MVPViewerEnhanced.java:351 | the sum of the scores lies between n times any lower and upper bound |
| Summary.MeanBounds | MVPViewerEnhanced.java:351 | the average MVP score lies between any lower and upper bound of the scores |
| Summary.TopNeedNotBeBest | MVPViewerEnhanced.java:352 | the "Top" player is the first record, which need not have the highest score |
| Export.Cells | MVPViewerEnhanced.java:472-479 | a row has nine cells under the nine columns and none without them |
| Export.CsvRows | MVPViewerEnhanced.java:470-482 | one line per table row, each its cells joined by commas |
| Export.JoinCells | MVPViewerEnhanced.java:471-481 | the StringBuilder loop builds the comma join of the cells |
| Export.WriteCsv | MVPViewerEnhanced.java:465-482 | the writer receives the header and then the line of each row |
| Export.WriteJson | MVPViewerEnhanced.java:498-523 | the writer receives the head, one object per row and the tail, or fails after "      {" on a table without columns |
| Export.JsonSeparators | MVPViewerEnhanced.java:505-519 | object i occupies lines 11i to 11i + 10, commas separate the objects and none follows the last |
| Export.JsonShape | MVPViewerEnhanced.java:499-523 | the export completes exactly when the table is empty or has columns, with 8 + 11n lines, else fails after 6 |
| Export.CsvWithoutColumns | MVPViewerEnhanced.java:470-481 | a table model without columns writes an empty line for each of its rows after the header |
| Export.CsvRowSplits | MVPViewerEnhanced.java:467-481 | a CSV data line splits back into its nine cells when no cell holds a comma |
| Export.ExportedRowNotLoadable | MVPViewerEnhanced.java:470-481 | an exported row is skipped by loadData when the team has no digit, since the rank column shifts every field (the NaN and Infinity words aside, see Left out) |
| Viewer.MvpViewer.constructor | MVPViewerEnhanced.java:23-27 | the first load fills the table in file order, the teams and the status, or leaves all three as created when the load fails |
| Viewer.MvpViewer.Refresh | MVPViewerEnhanced.java:256-300 | a reload replaces the records; a complete one relists the teams, selects "All Teams", shows the filtered sorted view and updates the status; one that aborts changes nothing else |
| Viewer.MvpViewer.UpdateTable | MVPViewerEnhanced.java:302-328 | nine columns unless there are no records, and the records ranked in their current order |
| Viewer.MvpViewer.UpdateTeamFilter | MVPViewerEnhanced.java:330-342 | the combo box lists "All Teams" and the teams ascending, with "All Teams" selected |
| Viewer.MvpViewer.UpdateStats | MVPViewerEnhanced.java:344-356 | the status label is the summary of the records |
| Viewer.MvpViewer.ApplyFilters | MVPViewerEnhanced.java:374-450 | the rows become the ranked view of the current widget state, and nothing else changes |
| Viewer.MvpViewer.Reset | MVPViewerEnhanced.java:452-458 | clears the search and restores "All Teams", MVP Score and descending, or stops after the search when the team box is empty |
| Viewer.MvpViewer.EditSearch | MVPViewerEnhanced.java:360-364 | a change of the search text re-applies the filters |
| Viewer.MvpViewer.SelectTeam | MVPViewerEnhanced.java:367 | choosing a team re-applies the filters with it |
| Viewer.MvpViewer.SelectSortKey | MVPViewerEnhanced.java:370 | choosing a sort key re-applies the filters with it |
| Viewer.MvpViewer.ToggleAscending | MVPViewerEnhanced.java:371 | toggling the check box re-applies the filters in the other direction |
| Viewer.MvpViewer.ExportCsv | MVPViewerEnhanced.java:460-491 | exports the CSV lines of the table as it stands |
| Viewer.MvpViewer.ExportJson | MVPViewerEnhanced.java:493-532 | exports the JSON lines of the table as it stands |

## Left out

- File reading, the file dialogs, the message dialogs and `printStackTrace` are left out. The file is a parameter, a sequence of lines or None when it cannot be opened.
- The `System.err` message for a skipped line is left out.
- Drawing the window and its widgets is left out, as are the look-and-feel setup and the layout.
- `DecimalFormat("#.##")` is a parameter `fmt` of the exports. A locale whose decimal separator is a comma would put extra commas in the CSV lines; that is not modelled.
- The `new Date()` text of the JSON export is a parameter `date`.
- Numbers are exact reals. Rounding to double, NaN, infinities, `-0.0`, hexadecimal literals and the "Infinity"/"NaN" words of `Double.parseDouble` are not modelled.
- Text.ToLower: covers ASCII letters only, not the full Unicode case mapping of `String.toLowerCase`.
- Text.CompareText: compares by character code and returns only the sign, where `String.compareTo` returns the difference.
- Text.CompareText: a Dafny `char` is a Unicode scalar value, while `String.compareTo` compares UTF-16 code units. The two orders differ between characters above U+FFFF and those from U+E000 to U+FFFF, so the ascending team list and the "Player Name" sort are not modelled for names that mix them.
- Summary.Summarize: the status keeps the count, the mean and the top record as values. The `"%.1f"` rendering of the text is not modelled.
- JSON string escaping is left out, because the program writes names and teams without escaping.
- Sorting.InsertionSort: stands in for the TimSort of `List.sort`. Both are stable and give the same result on a total preorder, but the comparison sequence is not modelled.
- Viewer.MvpViewer.Refresh: `removeAllItems` and `addItem` fire events that run `applyFilters` part-way through `loadData`. Only the last call, which decides the rows, is modelled.
- Viewer.MvpViewer.Reset: the same applies to the intermediate `applyFilters` calls fired by `setText("")`, `teamFilter.setSelectedIndex(0)` and `sortCombo.setSelectedIndex(0)`.
- The "Apply Filters" button (`MVPViewerEnhanced.java:145`) runs the same `applyFilters`, which is `Viewer.MvpViewer.ApplyFilters`.
- The `allPlayers == null` guard of `applyFilters` is left out, because the constructor always assigns the list before any listener is attached.
- The "Export CSV" and "Export JSON" buttons only open a dialog and call the export methods, so they are left out.

## Findings

| source | as written | input that shows it | evidently intended | confidence | as-written member | corrected member |
|---|---|---|---|---|---|---|
| MVPViewerEnhanced.java:269 | the guard `data.length >= 7` admits seven-field lines, and reading `data[7]` on line 279 then throws ArrayIndexOutOfBoundsException, which the outer catch turns into the end of the whole load | a file whose first data line is `Alice,TeamA,30,5,10,2,1` loads no record at all; on the first load the table and the team box stay empty and the status keeps "Ready", and on a reload they keep their previous contents | `data.length >= 8`, so a short line is skipped like any other malformed line and the load goes on | not executed | Loading.SevenFieldFileAborts | Loading.IntendedLoadCompletes |

`Viewer.MvpViewer` loads with `Loading.ParseLine`, the guard as written, so the class describes the program as it behaves. `Loading.IntendedLine` is the corrected parser. It never aborts (`Loading.IntendedLineNeverAborts`). It loads every file to its end (`Loading.IntendedLoadCompletes`). It agrees with the written guard on every file without seven-field lines (`Loading.LoadsAgree`).
