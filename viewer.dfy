/**
 * The MVPViewerEnhanced window with its widgets reduced to the state they
 * hold: the loaded records, the search text, the team combo box, the sort
 * combo box and the ascending check box, the status label and the table
 * model. The listeners attached after the initial load become the methods
 * a user action calls.
 */
module Viewer {
  import opened Wrappers
  import opened Players
  import opened Teams
  import opened View
  import opened Loading
  import opened Summary
  import opened Export

  class MvpViewer {
    var allPlayers: seq<Player>
    var searchText: string            // the search field
    var teamItems: seq<string>        // the entries of the team combo box
    var selectedTeam: Option<string>  // its selected item; None is null
    var sortKey: SortKey              // the selected entry of the sort combo box
    var ascending: bool               // the ascending check box
    var status: Status                // the status label
    var hasColumns: bool              // whether the table model has its nine columns
    var rows: seq<Row>                // the rows of the table model

    /**
     * The team combo box is empty or starts with "All Teams", and it has a
     * selection, one of its entries, exactly when it is not empty.
     */
    ghost predicate Valid()
      reads this
    {
      && (teamItems == [] || teamItems[0] == AllTeams)
      && (selectedTeam.Some? ==> selectedTeam.value in teamItems)
      && (teamItems == [] <==> selectedTeam.None?)
    }

    /**
     * Builds the window and runs loadData before any listener is attached.
     * `file` holds the lines of mvp_candidates.csv, or None when it cannot
     * be opened. A load that reaches the end of the file fills the table
     * with the records in file order, the team list and the status label; a
     * load that stops on an exception leaves all three as created.
     */
    constructor(file: Option<seq<string>>)
      ensures Valid()
      ensures allPlayers == if file.None? then [] else LoadFile(file.value, ParseLine).players
      ensures searchText == "" && sortKey == MvpScore && !ascending
      ensures file.Some? && !LoadFile(file.value, ParseLine).aborted ==>
        && rows == Ranked(allPlayers) && hasColumns == (allPlayers != [])
        && teamItems == TeamItems(allPlayers) && selectedTeam == Some(AllTeams)
        && status == Summarize(allPlayers)
      ensures file.None? || LoadFile(file.value, ParseLine).aborted ==>
        && rows == [] && !hasColumns && teamItems == [] && selectedTeam == None && status == Ready
    {
      allPlayers := [];
      searchText := "";
      teamItems := [];
      selectedTeam := None;
      sortKey := MvpScore;
      ascending := false;
      status := Ready;
      hasColumns := false;
      rows := [];
      new;
      if file.Some? {
        var aborted;
        allPlayers, aborted := ReadRecords(file.value, ParseLine);
        if !aborted {
          UpdateTable();
          UpdateTeamFilter();
          UpdateStats();
        }
      }
    }

    /**
     * The Refresh button: loadData again, now with the listeners attached.
     * Selecting "All Teams", the first entry updateTeamFilter adds, fires
     * applyFilters, so a complete load shows the filtered, sorted view
     * rather than the file order. A load that stops on an exception has
     * already replaced the records and changes nothing else.
     */
    method Refresh(file: Option<seq<string>>)
      requires Valid()
      modifies this
      ensures Valid()
      ensures allPlayers == if file.None? then [] else LoadFile(file.value, ParseLine).players
      ensures searchText == old(searchText) && sortKey == old(sortKey) && ascending == old(ascending)
      ensures file.Some? && !LoadFile(file.value, ParseLine).aborted ==>
        && rows == Ranked(View.View(allPlayers, searchText, Some(AllTeams), sortKey, ascending))
        && hasColumns == (allPlayers != [])
        && teamItems == TeamItems(allPlayers) && selectedTeam == Some(AllTeams)
        && status == Summarize(allPlayers)
      ensures file.None? || LoadFile(file.value, ParseLine).aborted ==>
        && rows == old(rows) && hasColumns == old(hasColumns) && teamItems == old(teamItems)
        && selectedTeam == old(selectedTeam) && status == old(status)
    {
      allPlayers := [];
      if file.Some? {
        var aborted;
        allPlayers, aborted := ReadRecords(file.value, ParseLine);
        if !aborted {
          UpdateTable();
          UpdateTeamFilter();
          ApplyFilters();
          UpdateStats();
        }
      }
    }

    /** updateTable: the records in their current order, numbered from 1, under nine columns unless there are none. */
    method UpdateTable()
      modifies this
      ensures hasColumns == (allPlayers != []) && rows == Ranked(allPlayers)
      ensures allPlayers == old(allPlayers) && searchText == old(searchText) && teamItems == old(teamItems)
      ensures selectedTeam == old(selectedTeam) && sortKey == old(sortKey) && ascending == old(ascending) && status == old(status)
    {
      rows := [];
      hasColumns := false;
      if allPlayers == [] {
        return;
      }
      hasColumns := true;
      rows := NumberRows(allPlayers);
    }

    /** updateTeamFilter: "All Teams" and the teams in ascending order; the first entry added is selected. */
    method UpdateTeamFilter()
      modifies this
      ensures teamItems == TeamItems(allPlayers) && selectedTeam == Some(AllTeams)
      ensures allPlayers == old(allPlayers) && searchText == old(searchText) && sortKey == old(sortKey)
      ensures ascending == old(ascending) && status == old(status) && hasColumns == old(hasColumns) && rows == old(rows)
    {
      teamItems := CollectTeams(allPlayers);
      selectedTeam := Some(AllTeams);
    }

    /** updateStats: "No data loaded", or the count, the mean score and the first record. */
    method UpdateStats()
      modifies this
      ensures status == Summarize(allPlayers)
      ensures allPlayers == old(allPlayers) && searchText == old(searchText) && teamItems == old(teamItems)
      ensures selectedTeam == old(selectedTeam) && sortKey == old(sortKey) && ascending == old(ascending)
      ensures hasColumns == old(hasColumns) && rows == old(rows)
    {
      status := Summarize(allPlayers);
    }

    /**
     * applyFilters: filters and sorts a copy of the records, then refills
     * the table rows. The records themselves are not touched.
     */
    method ApplyFilters()
      modifies this
      ensures rows == Ranked(View.View(allPlayers, searchText, selectedTeam, sortKey, ascending))
      ensures allPlayers == old(allPlayers) && searchText == old(searchText) && teamItems == old(teamItems)
      ensures selectedTeam == old(selectedTeam) && sortKey == old(sortKey) && ascending == old(ascending)
      ensures status == old(status) && hasColumns == old(hasColumns)
    {
      var shown := FilterAndSort(allPlayers, searchText, selectedTeam, sortKey, ascending);
      rows := NumberRows(shown);
    }

    /**
     * resetFilters: clears the search text, selects the first team entry,
     * the "MVP Score" key and descending order, then re-applies the filters.
     * With an empty team combo box selecting its first entry throws, and
     * only the clearing of the search text has happened.
     */
    method Reset()
      requires Valid()
      modifies this
      ensures Valid()
      ensures searchText == "" && allPlayers == old(allPlayers) && teamItems == old(teamItems)
      ensures status == old(status) && hasColumns == old(hasColumns)
      ensures old(teamItems) != [] ==>
        && selectedTeam == Some(AllTeams) && sortKey == MvpScore && !ascending
        && rows == Ranked(View.View(allPlayers, "", Some(AllTeams), MvpScore, false))
      ensures old(teamItems) == [] ==>
        && selectedTeam == None && sortKey == old(sortKey) && ascending == old(ascending)
        && rows == if old(searchText) != "" then Ranked(View.View(allPlayers, "", None, sortKey, ascending)) else old(rows)
    {
      if searchText != "" {
        searchText := "";
        ApplyFilters();
      }
      if teamItems == [] {
        return;
      }
      selectedTeam := Some(teamItems[0]);
      sortKey := MvpScore;
      ascending := false;
      ApplyFilters();
    }

    /** Typing in the search field: each change of its text re-applies the filters. */
    method EditSearch(text: string)
      requires Valid()
      modifies this
      ensures Valid()
      ensures searchText == text
      ensures rows == Ranked(View.View(allPlayers, text, selectedTeam, sortKey, ascending))
      ensures allPlayers == old(allPlayers) && teamItems == old(teamItems) && selectedTeam == old(selectedTeam)
      ensures sortKey == old(sortKey) && ascending == old(ascending) && status == old(status) && hasColumns == old(hasColumns)
    {
      searchText := text;
      ApplyFilters();
    }

    /** Choosing entry `i` of the team combo box. */
    method SelectTeam(i: nat)
      requires Valid() && i < |teamItems|
      modifies this
      ensures Valid()
      ensures allPlayers == old(allPlayers) && searchText == old(searchText) && teamItems == old(teamItems)
      ensures selectedTeam == Some(teamItems[i])
      ensures rows == Ranked(View.View(allPlayers, searchText, Some(teamItems[i]), sortKey, ascending))
      ensures sortKey == old(sortKey) && ascending == old(ascending) && status == old(status) && hasColumns == old(hasColumns)
    {
      selectedTeam := Some(teamItems[i]);
      ApplyFilters();
    }

    /** Choosing an entry of the sort combo box. */
    method SelectSortKey(k: SortKey)
      requires Valid()
      modifies this
      ensures Valid()
      ensures sortKey == k
      ensures rows == Ranked(View.View(allPlayers, searchText, selectedTeam, k, ascending))
      ensures allPlayers == old(allPlayers) && searchText == old(searchText) && teamItems == old(teamItems)
      ensures selectedTeam == old(selectedTeam) && ascending == old(ascending) && status == old(status) && hasColumns == old(hasColumns)
    {
      sortKey := k;
      ApplyFilters();
    }

    /** Clicking the ascending check box. */
    method ToggleAscending()
      requires Valid()
      modifies this
      ensures Valid()
      ensures ascending == !old(ascending)
      ensures rows == Ranked(View.View(allPlayers, searchText, selectedTeam, sortKey, ascending))
      ensures allPlayers == old(allPlayers) && searchText == old(searchText) && teamItems == old(teamItems)
      ensures selectedTeam == old(selectedTeam) && sortKey == old(sortKey) && status == old(status) && hasColumns == old(hasColumns)
    {
      ascending := !ascending;
      ApplyFilters();
    }

    /** exportToCSV: the lines written for the table as it stands. */
    method ExportCsv(fmt: real -> string) returns (lines: seq<string>)
      ensures lines == CsvLines(rows, hasColumns, fmt)
    {
      lines := WriteCsv(rows, hasColumns, fmt);
    }

    /** exportToJSON: the lines written for the table as it stands, `date` being the text of new Date(). */
    method ExportJson(date: string, fmt: real -> string) returns (outcome: JsonOutcome)
      ensures outcome == JsonExport(rows, hasColumns, date, fmt)
    {
      outcome := WriteJson(rows, hasColumns, date, fmt);
    }
  }
}
