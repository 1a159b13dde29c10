/**
 * The text exportToCSV and exportToJSON write from the table model, one
 * string per println. Numbers go through the viewer's DecimalFormat, which
 * is a parameter `fmt` here; the export date is a parameter too.
 */
module Export {
  import opened Text
  import opened Numbers
  import opened Players
  import opened View
  import opened Loading

  const CsvHeader: string := "Rank,Player,Team,Points,Assists,Rebounds,Steals,Blocks,MVP_Score"

  /**
   * The text of a row's cells, column by column: the rank with
   * Integer.toString, the two strings as they are, the six statistics with
   * `fmt`. A table model without columns holds no cells at all.
   */
  function Cells(row: Row, hasColumns: bool, fmt: real -> string): (cells: seq<string>)
    ensures |cells| == if hasColumns then 9 else 0
  {
    if !hasColumns then []
    else
      var p := row.player;
      [NatToString(row.rank), p.name, p.team, fmt(p.points), fmt(p.assists), fmt(p.rebounds), fmt(p.steals), fmt(p.blocks), fmt(p.mvpScore)]
  }

  function CsvRows(rows: seq<Row>, hasColumns: bool, fmt: real -> string): (lines: seq<string>)
    ensures |lines| == |rows|
    ensures forall i :: 0 <= i < |rows| ==> lines[i] == Join(Cells(rows[i], hasColumns, fmt))
  {
    seq(|rows|, i requires 0 <= i < |rows| => Join(Cells(rows[i], hasColumns, fmt)))
  }

  /** The lines of the CSV file: the fixed header, then one line per table row. */
  function CsvLines(rows: seq<Row>, hasColumns: bool, fmt: real -> string): seq<string>
  {
    [CsvHeader] + CsvRows(rows, hasColumns, fmt)
  }

  /** The StringBuilder loop: a comma before every cell but the first. */
  method JoinCells(cells: seq<string>) returns (line: string)
    ensures line == Join(cells)
  {
    line := "";
    for j := 0 to |cells|
      invariant line == Join(cells[..j])
    {
      if j > 0 {
        line := line + ",";
        JoinSnoc(cells[..j], cells[j]);
      } else {
        assert cells[..1] == [cells[0]];
      }
      assert cells[..j + 1] == cells[..j] + [cells[j]];
      line := line + cells[j];
    }
    assert cells[..|cells|] == cells;
  }

  method WriteCsv(rows: seq<Row>, hasColumns: bool, fmt: real -> string) returns (lines: seq<string>)
    ensures lines == CsvLines(rows, hasColumns, fmt)
  {
    lines := [CsvHeader];
    for i := 0 to |rows|
      invariant lines == [CsvHeader] + CsvRows(rows[..i], hasColumns, fmt)
    {
      var line := JoinCells(Cells(rows[i], hasColumns, fmt));
      CsvRowsSnoc(rows, i, hasColumns, fmt);
      lines := lines + [line];
    }
    assert rows[..|rows|] == rows;
  }

  lemma CsvRowsSnoc(rows: seq<Row>, i: nat, hasColumns: bool, fmt: real -> string)
    requires i < |rows|
    ensures CsvRows(rows[..i + 1], hasColumns, fmt) == CsvRows(rows[..i], hasColumns, fmt) + [Join(Cells(rows[i], hasColumns, fmt))]
  {
  }

  // ---------------------------------------------------------------------------
  // JSON
  // ---------------------------------------------------------------------------

  /** The five lines before the array, with the row count of the table model. */
  function JsonHead(date: string, count: nat): seq<string>
  {
    [ "{",
      "  \"mvp_analysis\": {",
      "    \"export_date\": \"" + date + "\",",
      "    \"total_players\": " + NatToString(count) + ",",
      "    \"players\": [" ]
  }

  const JsonTail: seq<string> := ["    ]", "  }", "}"]

  /** The nine "key": value lines of a row's object. */
  function JsonFields(row: Row, fmt: real -> string): (lines: seq<string>)
    ensures |lines| == 9
  {
    var p := row.player;
    [ "        \"rank\": " + NatToString(row.rank) + ",",
      "        \"player\": \"" + p.name + "\",",
      "        \"team\": \"" + p.team + "\",",
      "        \"points\": " + fmt(p.points) + ",",
      "        \"assists\": " + fmt(p.assists) + ",",
      "        \"rebounds\": " + fmt(p.rebounds) + ",",
      "        \"steals\": " + fmt(p.steals) + ",",
      "        \"blocks\": " + fmt(p.blocks) + ",",
      "        \"mvp_score\": " + fmt(p.mvpScore) ]
  }

  /** The eleven lines of one row's object; only the last object's closing brace has no comma after it. */
  function JsonObject(row: Row, last: bool, fmt: real -> string): (lines: seq<string>)
    ensures |lines| == 11
  {
    ["      {"] + JsonFields(row, fmt) + [if last then "      }" else "      },"]
  }

  /** The objects of the first `k` rows of the table. */
  function JsonObjects(rows: seq<Row>, k: nat, fmt: real -> string): seq<string>
    requires k <= |rows|
  {
    if k == 0 then [] else JsonObjects(rows, k - 1, fmt) + JsonObject(rows[k - 1], k == |rows|, fmt)
  }

  /** What exportToJSON leaves in the file. */
  datatype JsonOutcome =
    | Written(lines: seq<string>)
    | Failed(partial: seq<string>)  // getValueAt threw after these lines; the writer is closed with them

  function JsonExport(rows: seq<Row>, hasColumns: bool, date: string, fmt: real -> string): JsonOutcome
  {
    if rows != [] && !hasColumns then Failed(JsonHead(date, |rows|) + ["      {"])
    else Written(JsonHead(date, |rows|) + JsonObjects(rows, |rows|, fmt) + JsonTail)
  }

  method WriteJson(rows: seq<Row>, hasColumns: bool, date: string, fmt: real -> string) returns (outcome: JsonOutcome)
    ensures outcome == JsonExport(rows, hasColumns, date, fmt)
  {
    var n := |rows|;
    var head := JsonHead(date, n);
    var body: seq<string> := [];  // the lines written after the head so far
    for i := 0 to n
      invariant body == JsonObjects(rows, i, fmt)
      invariant i > 0 ==> hasColumns
    {
      ghost var before := body;
      body := body + ["      {"];
      if !hasColumns {
        // getValueAt(i, 0) on a row without cells
        return Failed(head + body);
      }
      body := body + JsonFields(rows[i], fmt);
      // print("      }"), then "," unless this is the last row, then println()
      var close := if i < n - 1 then "      }," else "      }";
      body := body + [close];
      ObjectLines(before, rows[i], i + 1 == n, fmt, close);
    }
    outcome := Written(head + body + JsonTail);
  }

  /** The lines the loop prints for one row make up that row's object. */
  lemma ObjectLines(before: seq<string>, row: Row, last: bool, fmt: real -> string, close: string)
    requires close == if last then "      }" else "      },"
    ensures before + ["      {"] + JsonFields(row, fmt) + [close] == before + JsonObject(row, last, fmt)
  {
  }

  // ---------------------------------------------------------------------------
  // Properties
  // ---------------------------------------------------------------------------

  /** Object i spans lines 11i to 11i + 10 of the array; commas separate the objects and none follows the last. */
  lemma {:induction false} JsonSeparators(rows: seq<Row>, k: nat, fmt: real -> string)
    requires k <= |rows|
    ensures |JsonObjects(rows, k, fmt)| == 11 * k
    ensures forall i :: 0 <= i < k ==> JsonObjects(rows, k, fmt)[11 * i] == "      {"
    ensures forall i :: 0 <= i < k ==> JsonObjects(rows, k, fmt)[11 * i + 10] == if i < |rows| - 1 then "      }," else "      }"
  {
    if k > 0 {
      JsonSeparators(rows, k - 1, fmt);
      var prev := JsonObjects(rows, k - 1, fmt);
      var obj := JsonObject(rows[k - 1], k == |rows|, fmt);
      assert JsonObjects(rows, k, fmt) == prev + obj;
      forall i | 0 <= i < k
        ensures JsonObjects(rows, k, fmt)[11 * i] == "      {"
        ensures JsonObjects(rows, k, fmt)[11 * i + 10] == if i < |rows| - 1 then "      }," else "      }"
      {
        if i == k - 1 {
          assert JsonObjects(rows, k, fmt)[11 * i] == obj[0];
          assert JsonObjects(rows, k, fmt)[11 * i + 10] == obj[10];
        } else {
          assert JsonObjects(rows, k, fmt)[11 * i] == prev[11 * i];
          assert JsonObjects(rows, k, fmt)[11 * i + 10] == prev[11 * i + 10];
        }
      }
    }
  }

  /** A complete JSON file has the head, eleven lines per row and the tail; an empty table still exports. */
  lemma JsonShape(rows: seq<Row>, hasColumns: bool, date: string, fmt: real -> string)
    ensures JsonExport(rows, hasColumns, date, fmt).Written? <==> rows == [] || hasColumns
    ensures JsonExport(rows, hasColumns, date, fmt).Written? ==> |JsonExport(rows, hasColumns, date, fmt).lines| == 8 + 11 * |rows|
    ensures JsonExport(rows, hasColumns, date, fmt).Failed? ==> |JsonExport(rows, hasColumns, date, fmt).partial| == 6
  {
    JsonSeparators(rows, |rows|, fmt);
  }

  /**
   * Each CSV data line splits back into the row's nine cells, provided no
   * cell holds a comma and the formatted score is not empty.
   */
  lemma CsvRowSplits(row: Row, fmt: real -> string)
    requires CommaFree(row.player.name) && CommaFree(row.player.team)
    requires forall v :: CommaFree(fmt(v))
    requires fmt(row.player.mvpScore) != ""
    ensures Split(Join(Cells(row, true, fmt))) == Cells(row, true, fmt)
  {
    var cells := Cells(row, true, fmt);
    assert forall i :: 0 <= i < |cells| ==> CommaFree(cells[i]);
    SplitJoin(cells);
  }

  /**
   * An exported row is not a line loadData accepts: the rank column moves
   * every field one place right, so the team is read as the points, and a
   * team name without a digit makes the line be skipped.
   */
  lemma ExportedRowNotLoadable(row: Row, fmt: real -> string)
    requires CommaFree(row.player.name) && CommaFree(row.player.team)
    requires forall v :: CommaFree(fmt(v))
    requires fmt(row.player.mvpScore) != ""
    requires forall k :: 0 <= k < |row.player.team| ==> !IsDigit(row.player.team[k])
    ensures ParseLine(Join(Cells(row, true, fmt))) == Skipped
  {
    CsvRowSplits(row, fmt);
    ParseNeedsDigit(row.player.team);
  }

  /** A table without columns exports an empty line per row. */
  lemma CsvWithoutColumns(rows: seq<Row>, fmt: real -> string)
    ensures forall i :: 1 <= i < |CsvLines(rows, false, fmt)| ==> CsvLines(rows, false, fmt)[i] == ""
  {
  }
}
