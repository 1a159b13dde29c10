/**
 * The parse loop of loadData: the first line is a header and is skipped;
 * every later line is split on commas, and a line with enough fields whose
 * numeric fields parse becomes a PlayerData. A NumberFormatException skips
 * the line; any other exception ends the whole load.
 */
module Loading {
  import opened Wrappers
  import opened Text
  import opened Numbers
  import opened Players

  /** What one data line does to the load. */
  datatype LineOutcome =
    | Record(player: Player)  // a record is appended to allPlayers
    | Skipped                 // too few fields, or a NumberFormatException that is caught
    | Aborted                 // an exception the line handler does not catch

  datatype LoadResult = LoadResult(players: seq<Player>, aborted: bool)

  /**
   * One split line, with `minFields` as the field-count guard and `num` as
   * the number parser (Double.parseDouble for the viewer). The constructor
   * arguments are evaluated left to right: fields 2 to 6 are parsed before
   * field 7 is read, so a missing field 7 only matters once the five
   * statistics before it have parsed.
   */
  function ParseFields(data: seq<string>, minFields: nat, num: string -> Option<real>): LineOutcome
    requires minFields >= 7
  {
    if |data| < minFields then Skipped
    else match (num(data[2]), num(data[3]), num(data[4]), num(data[5]), num(data[6]))
      case (Some(points), Some(assists), Some(rebounds), Some(steals), Some(blocks)) =>
        if |data| < 8 then Aborted
        else (match num(data[7])
          case Some(mvpScore) => Record(Player(data[0], data[1], points, assists, rebounds, steals, blocks, mvpScore))
          case None => Skipped)
      case _ => Skipped
  }

  /** A data line as the loop handles it: guard `data.length >= 7`, then reads data[0] to data[7]. */
  function ParseLine(line: string): LineOutcome
  {
    ParseFields(Split(line), 7, ParseDouble)
  }

  /** The same line with the guard the eight reads need, `data.length >= 8`. */
  function IntendedLine(line: string): LineOutcome
  {
    ParseFields(Split(line), 8, ParseDouble)
  }

  function Prepend(players: seq<Player>, r: LoadResult): LoadResult
  {
    LoadResult(players + r.players, r.aborted)
  }

  /** The data lines in order: records are collected until a line aborts. */
  function Load(lines: seq<string>, parse: string -> LineOutcome): LoadResult
  {
    if lines == [] then LoadResult([], false)
    else match parse(lines[0])
      case Aborted => LoadResult([], true)
      case Skipped => Load(lines[1..], parse)
      case Record(p) => Prepend([p], Load(lines[1..], parse))
  }

  /** The whole file: its first line is discarded whatever it holds. */
  function LoadFile(file: seq<string>, parse: string -> LineOutcome): LoadResult
  {
    if file == [] then LoadResult([], false) else Load(file[1..], parse)
  }

  /**
   * The read loop of loadData over the lines of the file: a flag skips the
   * first line, each later line is parsed, and an exception the line handler
   * does not catch leaves the loop with the records read so far.
   */
  method ReadRecords(file: seq<string>, parse: string -> LineOutcome) returns (players: seq<Player>, aborted: bool)
    ensures LoadResult(players, aborted) == LoadFile(file, parse)
  {
    players := [];
    aborted := false;
    var firstLine := true;
    var i := 0;
    while i < |file| && !aborted
      invariant 0 <= i <= |file|
      invariant firstLine <==> i == 0
      invariant i == 0 ==> players == [] && !aborted
      invariant i > 0 && !aborted ==> LoadFile(file, parse) == Prepend(players, Load(file[i..], parse))
      invariant aborted ==> LoadFile(file, parse) == LoadResult(players, true)
    {
      if firstLine {
        firstLine := false;
        assert [] + Load(file[1..], parse).players == Load(file[1..], parse).players;
      } else {
        var rest := Load(file[i + 1..], parse);
        assert file[i..][0] == file[i] && file[i..][1..] == file[i + 1..];
        match parse(file[i])
        case Record(p) =>
          assert players + ([p] + rest.players) == (players + [p]) + rest.players;
          players := players + [p];
        case Skipped =>
        case Aborted =>
          assert players + [] == players;
          aborted := true;
      }
      i := i + 1;
    }
    if !aborted && i > 0 {
      assert file[i..] == [];
      assert players + [] == players;
    }
  }

  function Shift(s: seq<nat>): (r: seq<nat>)
    ensures |r| == |s| && forall k :: 0 <= k < |s| ==> r[k] == s[k] + 1
  {
    seq(|s|, k requires 0 <= k < |s| => s[k] + 1)
  }

  /** The index of the line each loaded record comes from. */
  function Sources(lines: seq<string>, parse: string -> LineOutcome): seq<nat>
  {
    if lines == [] then []
    else match parse(lines[0])
      case Aborted => []
      case Skipped => Shift(Sources(lines[1..], parse))
      case Record(_) => [0] + Shift(Sources(lines[1..], parse))
  }

  // ---------------------------------------------------------------------------
  // Properties of the loop
  // ---------------------------------------------------------------------------

  /** Strictly increasing indices. */
  predicate Increasing(s: seq<nat>)
  {
    forall k, l :: 0 <= k < l < |s| ==> s[k] < s[l]
  }

  /** `src` names, for each record of `players`, a line of `lines` that parses to it. */
  predicate FromLines(src: seq<nat>, lines: seq<string>, parse: string -> LineOutcome, players: seq<Player>)
  {
    && |src| == |players|
    && forall k :: 0 <= k < |src| ==> src[k] < |lines| && parse(lines[src[k]]) == Record(players[k])
  }

  /** The records are a subsequence of the data lines: each from its own line, in file order. */
  lemma {:induction false} LoadSources(lines: seq<string>, parse: string -> LineOutcome)
    ensures FromLines(Sources(lines, parse), lines, parse, Load(lines, parse).players)
    ensures Increasing(Sources(lines, parse))
  {
    if lines != [] {
      LoadSources(lines[1..], parse);
      var rest := Sources(lines[1..], parse);
      ShiftIncreasing(rest);
      ShiftFromLines(rest, lines, parse, Load(lines[1..], parse).players);
      match parse(lines[0])
      case Aborted =>
      case Skipped =>
      case Record(p) =>
        ConsFromLines(Shift(rest), lines, parse, p, Load(lines[1..], parse).players);
    }
  }

  lemma ShiftIncreasing(s: seq<nat>)
    requires Increasing(s)
    ensures Increasing(Shift(s)) && Increasing([0] + Shift(s))
  {
    var t := [0] + Shift(s);
    forall k, l | 0 <= k < l < |t| ensures t[k] < t[l] {
      if k > 0 {
        assert t[k] == s[k - 1] + 1 && t[l] == s[l - 1] + 1;
      }
    }
  }

  lemma ShiftFromLines(src: seq<nat>, lines: seq<string>, parse: string -> LineOutcome, players: seq<Player>)
    requires lines != [] && FromLines(src, lines[1..], parse, players)
    ensures FromLines(Shift(src), lines, parse, players)
  {
    forall k | 0 <= k < |src| ensures Shift(src)[k] < |lines| && parse(lines[Shift(src)[k]]) == Record(players[k]) {
      assert lines[src[k] + 1] == lines[1..][src[k]];
    }
  }

  lemma ConsFromLines(src: seq<nat>, lines: seq<string>, parse: string -> LineOutcome, p: Player, players: seq<Player>)
    requires lines != [] && parse(lines[0]) == Record(p) && FromLines(src, lines, parse, players)
    ensures FromLines([0] + src, lines, parse, [p] + players)
  {
    var t := [0] + src;
    forall k | 0 <= k < |t| ensures t[k] < |lines| && parse(lines[t[k]]) == Record(([p] + players)[k]) {
      if k > 0 {
        assert t[k] == src[k - 1] && ([p] + players)[k] == players[k - 1];
      }
    }
  }

  /** Loading two stretches of lines: the second only counts when the first did not abort. */
  lemma {:induction false} LoadAppend(a: seq<string>, b: seq<string>, parse: string -> LineOutcome)
    ensures Load(a + b, parse) == if Load(a, parse).aborted then Load(a, parse) else Prepend(Load(a, parse).players, Load(b, parse))
  {
    if a == [] {
      assert a + b == b;
    } else {
      assert (a + b)[0] == a[0] && (a + b)[1..] == a[1..] + b;
      LoadAppend(a[1..], b, parse);
    }
  }

  /** A line that parses appends exactly one record, with the fields it read. */
  lemma RecordLineAppends(a: seq<string>, line: string, parse: string -> LineOutcome, p: Player)
    requires !Load(a, parse).aborted && parse(line) == Record(p)
    ensures Load(a + [line], parse) == LoadResult(Load(a, parse).players + [p], false)
  {
    LoadAppend(a, [line], parse);
  }

  /** A line that is skipped changes nothing, wherever it stands. */
  lemma SkippedLineIgnored(a: seq<string>, line: string, b: seq<string>, parse: string -> LineOutcome)
    requires parse(line) == Skipped
    ensures Load(a + [line] + b, parse) == Load(a + b, parse)
  {
    LoadAppend(a, [line] + b, parse);
    LoadAppend(a, b, parse);
    assert a + [line] + b == a + ([line] + b);
  }

  /** A line that aborts ends the load: the records read so far stay, the lines after it are never read. */
  lemma AbortKeepsPrefix(a: seq<string>, line: string, b: seq<string>, parse: string -> LineOutcome)
    requires !Load(a, parse).aborted && parse(line) == Aborted
    ensures Load(a + [line] + b, parse) == LoadResult(Load(a, parse).players, true)
  {
    LoadAppend(a, [line] + b, parse);
    assert a + [line] + b == a + ([line] + b);
  }

  // ---------------------------------------------------------------------------
  // Properties of a line
  // ---------------------------------------------------------------------------

  /** The fields of a line written with integer statistics. */
  function StatFields(name: string, team: string, points: int, assists: int, rebounds: int, steals: int, blocks: int): seq<string>
  {
    [name, team, IntToString(points), IntToString(assists), IntToString(rebounds), IntToString(steals), IntToString(blocks)]
  }

  /** Fields whose statistics parse give the record of the first eight, under either guard. */
  lemma ParsedFields(data: seq<string>, minFields: nat, num: string -> Option<real>, points: real, assists: real, rebounds: real, steals: real, blocks: real, mvpScore: real)
    requires 7 <= minFields <= 8 <= |data|
    requires num(data[2]) == Some(points) && num(data[3]) == Some(assists)
    requires num(data[4]) == Some(rebounds) && num(data[5]) == Some(steals)
    requires num(data[6]) == Some(blocks) && num(data[7]) == Some(mvpScore)
    ensures ParseFields(data, minFields, num) == Record(Player(data[0], data[1], points, assists, rebounds, steals, blocks, mvpScore))
  {
  }

  /** A line that splits into eight or more fields whose six statistics parse gives the record of its first eight fields. */
  lemma LineOfFields(line: string, points: real, assists: real, rebounds: real, steals: real, blocks: real, mvpScore: real)
    requires |Split(line)| >= 8
    requires ParseDouble(Split(line)[2]) == Some(points) && ParseDouble(Split(line)[3]) == Some(assists)
    requires ParseDouble(Split(line)[4]) == Some(rebounds) && ParseDouble(Split(line)[5]) == Some(steals)
    requires ParseDouble(Split(line)[6]) == Some(blocks) && ParseDouble(Split(line)[7]) == Some(mvpScore)
    ensures ParseLine(line) == Record(Player(Split(line)[0], Split(line)[1], points, assists, rebounds, steals, blocks, mvpScore))
  {
    ParsedFields(Split(line), 7, ParseDouble, points, assists, rebounds, steals, blocks, mvpScore);
  }

  /** Field `k` of the split line exists and `num` accepts it. */
  predicate FieldParses(data: seq<string>, k: nat, num: string -> Option<real>)
  {
    k < |data| && num(data[k]).Some?
  }

  /** The PlayerData built from fields 0 to 7, when the six statistics parse. */
  function FieldRecord(data: seq<string>, num: string -> Option<real>): Player
    requires |data| >= 8 && forall k :: 2 <= k < 8 ==> FieldParses(data, k, num)
  {
    assert FieldParses(data, 2, num) && FieldParses(data, 3, num) && FieldParses(data, 4, num);
    assert FieldParses(data, 5, num) && FieldParses(data, 6, num) && FieldParses(data, 7, num);
    Player(data[0], data[1], num(data[2]).value, num(data[3]).value, num(data[4]).value,
           num(data[5]).value, num(data[6]).value, num(data[7]).value)
  }

  /**
   * Every outcome of a split line, under either guard: a record exactly
   * when there are eight fields and all six statistics parse, and then the
   * record of fields 0 to 7; an abort exactly when the guard of seven lets
   * in a line of seven fields whose first five statistics parse; a skip
   * whenever a statistic that is there fails to parse.
   */
  lemma FieldsOutcome(data: seq<string>, minFields: nat, num: string -> Option<real>)
    requires 7 <= minFields <= 8
    ensures ParseFields(data, minFields, num).Record? <==> |data| >= 8 && forall k :: 2 <= k < 8 ==> FieldParses(data, k, num)
    ensures ParseFields(data, minFields, num).Record? ==> ParseFields(data, minFields, num).player == FieldRecord(data, num)
    ensures ParseFields(data, minFields, num) == Aborted <==> minFields == 7 && |data| == 7 && forall k :: 2 <= k < 7 ==> FieldParses(data, k, num)
    ensures (exists k :: 2 <= k < 8 && k < |data| && !FieldParses(data, k, num)) ==> ParseFields(data, minFields, num) == Skipped
  {
    if |data| >= minFields {
      if FieldParses(data, 2, num) && FieldParses(data, 3, num) && FieldParses(data, 4, num) && FieldParses(data, 5, num) && FieldParses(data, 6, num) {
        if |data| >= 8 && FieldParses(data, 7, num) {
          forall k | 2 <= k < 8 ensures FieldParses(data, k, num) {
          }
        }
      } else {
        assert !(forall k :: 2 <= k < 7 ==> FieldParses(data, k, num));
      }
    }
  }

  /**
   * The line handler of loadData: a data line becomes a PlayerData only when
   * it has eight fields whose six statistics parse, and then it is the record
   * of those fields; it aborts exactly when it has seven fields whose five
   * statistics parse; a statistic that fails to parse makes it be skipped.
   */
  lemma ParseLineOutcomes(line: string)
    ensures ParseLine(line).Record? <==> |Split(line)| >= 8 && forall k :: 2 <= k < 8 ==> FieldParses(Split(line), k, ParseDouble)
    ensures ParseLine(line).Record? ==> ParseLine(line).player == FieldRecord(Split(line), ParseDouble)
    ensures ParseLine(line) == Aborted <==> |Split(line)| == 7 && forall k :: 2 <= k < 7 ==> FieldParses(Split(line), k, ParseDouble)
    ensures (exists k :: 2 <= k < 8 && k < |Split(line)| && !FieldParses(Split(line), k, ParseDouble)) ==> ParseLine(line) == Skipped
  {
    FieldsOutcome(Split(line), 7, ParseDouble);
  }

  /** With the corrected guard the records are the same, and no line aborts. */
  lemma IntendedLineOutcomes(line: string)
    ensures IntendedLine(line).Record? <==> |Split(line)| >= 8 && forall k :: 2 <= k < 8 ==> FieldParses(Split(line), k, ParseDouble)
    ensures IntendedLine(line).Record? ==> IntendedLine(line).player == FieldRecord(Split(line), ParseDouble)
    ensures IntendedLine(line) != Aborted
  {
    FieldsOutcome(Split(line), 8, ParseDouble);
  }

  /** The fields of a well-formed data line: name, team, six integer statistics, then any further fields. */
  function RecordFields(name: string, team: string, points: int, assists: int, rebounds: int, steals: int, blocks: int, mvpScore: int, extra: seq<string>): (r: seq<string>)
    ensures |r| == 8 + |extra| && r[0] == name && r[1] == team
    ensures r[2] == IntToString(points) && r[3] == IntToString(assists) && r[4] == IntToString(rebounds)
    ensures r[5] == IntToString(steals) && r[6] == IntToString(blocks) && r[7] == IntToString(mvpScore)
  {
    StatFields(name, team, points, assists, rebounds, steals, blocks) + [IntToString(mvpScore)] + extra
  }

  /**
   * The comma-joined fields of a well-formed line split back into at least
   * its first eight fields: the eighth is a number, never empty, so only
   * empty further fields can be dropped.
   */
  lemma SplitRecordLine(name: string, team: string, points: int, assists: int, rebounds: int, steals: int, blocks: int, mvpScore: int, extra: seq<string>)
    requires CommaFree(name) && CommaFree(team)
    requires forall i :: 0 <= i < |extra| ==> CommaFree(extra[i])
    ensures var fields := RecordFields(name, team, points, assists, rebounds, steals, blocks, mvpScore, extra);
            |Split(Join(fields))| >= 8 && Split(Join(fields))[..8] == fields[..8]
  {
    var fields := RecordFields(name, team, points, assists, rebounds, steals, blocks, mvpScore, extra);
    assert forall i :: 0 <= i < |fields| ==> CommaFree(fields[i]);
    SplitJoinDropsTrailing(fields);
    var q := DropTrailingEmpty(fields);
    assert fields[7] != "";
    assert |q| >= 8;
    assert q[..8] == fields[..|q|][..8];
  }

  /**
   * A data line written from comma-free fields with integer statistics is
   * loaded as the record of its first eight fields, positionally; fields
   * after the eighth are ignored.
   */
  lemma WellFormedLine(name: string, team: string, points: int, assists: int, rebounds: int, steals: int, blocks: int, mvpScore: int, extra: seq<string>)
    requires CommaFree(name) && CommaFree(team)
    requires forall i :: 0 <= i < |extra| ==> CommaFree(extra[i])
    ensures ParseLine(Join(RecordFields(name, team, points, assists, rebounds, steals, blocks, mvpScore, extra)))
         == Record(Player(name, team, points as real, assists as real, rebounds as real, steals as real, blocks as real, mvpScore as real))
  {
    var fields := RecordFields(name, team, points, assists, rebounds, steals, blocks, mvpScore, extra);
    SplitRecordLine(name, team, points, assists, rebounds, steals, blocks, mvpScore, extra);
    var line := Join(fields);
    assert Split(line)[..8] == fields[..8];
    assert forall k :: 0 <= k < 8 ==> Split(line)[k] == fields[k];
    ParseIntToString(points);
    ParseIntToString(assists);
    ParseIntToString(rebounds);
    ParseIntToString(steals);
    ParseIntToString(blocks);
    ParseIntToString(mvpScore);
    LineOfFields(line, points as real, assists as real, rebounds as real, steals as real, blocks as real, mvpScore as real);
  }

  /** A line of seven fields, a comma-free name and team and five integer statistics, reaches the read of field 7 and aborts. */
  lemma SevenFieldLineAborts(name: string, team: string, points: int, assists: int, rebounds: int, steals: int, blocks: int)
    requires CommaFree(name) && CommaFree(team)
    ensures ParseLine(Join(StatFields(name, team, points, assists, rebounds, steals, blocks))) == Aborted
    ensures IntendedLine(Join(StatFields(name, team, points, assists, rebounds, steals, blocks))) == Skipped
  {
    SplitJoin(StatFields(name, team, points, assists, rebounds, steals, blocks));
    ParseIntToString(points);
    ParseIntToString(assists);
    ParseIntToString(rebounds);
    ParseIntToString(steals);
    ParseIntToString(blocks);
  }

  /** A file whose first data line aborts loads nothing; with the corrected guard that line is skipped instead. */
  lemma FirstLineAborts(header: string, line: string, rest: seq<string>)
    requires ParseLine(line) == Aborted && IntendedLine(line) == Skipped
    ensures LoadFile([header, line] + rest, ParseLine) == LoadResult([], true)
    ensures LoadFile([header, line] + rest, IntendedLine) == Load(rest, IntendedLine)
  {
    FirstLineOutcome(header, line, rest, ParseLine);
    FirstLineOutcome(header, line, rest, IntendedLine);
  }

  /** The load of a file is decided by its first data line when that line aborts or is skipped. */
  lemma FirstLineOutcome(header: string, line: string, rest: seq<string>, parse: string -> LineOutcome)
    ensures parse(line) == Aborted ==> LoadFile([header, line] + rest, parse) == LoadResult([], true)
    ensures parse(line) == Skipped ==> LoadFile([header, line] + rest, parse) == Load(rest, parse)
  {
    var file := [header, line] + rest;
    assert file[1..][0] == line && file[1..][1..] == rest;
  }

  /** Integer.toString of the statistics in the seven-field line "Alice,TeamA,30,5,10,2,1" of SevenFieldFileAborts. */
  lemma SmallNumbers()
    ensures IntToString(30) == "30" && IntToString(5) == "5" && IntToString(10) == "10"
    ensures IntToString(2) == "2" && IntToString(1) == "1"
  {
    assert NatToString(3) == "3";
    assert NatToString(30) == NatToString(3) + [DigitChar(0)];
    assert NatToString(10) == NatToString(1) + [DigitChar(0)];
  }

  /** The seven-field line "Alice,TeamA,30,5,10,2,1" used by SevenFieldFileAborts is joined from a name, a team and five integer statistics. */
  lemma AliceLine()
    ensures Join(StatFields("Alice", "TeamA", 30, 5, 10, 2, 1)) == "Alice,TeamA,30,5,10,2,1"
  {
    SmallNumbers();
    assert StatFields("Alice", "TeamA", 30, 5, 10, 2, 1) == ["Alice", "TeamA", "30", "5", "10", "2", "1"];
    AliceFields();
  }

  lemma AliceFields()
    ensures Join(["Alice", "TeamA", "30", "5", "10", "2", "1"]) == "Alice,TeamA,30,5,10,2,1"
  {
    AliceStats();
    JoinCons("TeamA", ["30", "5", "10", "2", "1"]);
    assert ["TeamA"] + ["30", "5", "10", "2", "1"] == ["TeamA", "30", "5", "10", "2", "1"];
    JoinCons("Alice", ["TeamA", "30", "5", "10", "2", "1"]);
    assert ["Alice"] + ["TeamA", "30", "5", "10", "2", "1"] == ["Alice", "TeamA", "30", "5", "10", "2", "1"];
  }

  lemma AliceStats()
    ensures Join(["30", "5", "10", "2", "1"]) == "30,5,10,2,1"
  {
    AliceLastStats();
    JoinCons("5", ["10", "2", "1"]);
    assert ["5"] + ["10", "2", "1"] == ["5", "10", "2", "1"];
    JoinCons("30", ["5", "10", "2", "1"]);
    assert ["30"] + ["5", "10", "2", "1"] == ["30", "5", "10", "2", "1"];
  }

  lemma AliceLastStats()
    ensures Join(["10", "2", "1"]) == "10,2,1"
  {
    JoinCons("2", ["1"]);
    assert ["2"] + ["1"] == ["2", "1"];
    JoinCons("10", ["2", "1"]);
    assert ["10"] + ["2", "1"] == ["10", "2", "1"];
  }

  /** A file whose first data line is "Alice,TeamA,30,5,10,2,1" loads nothing at all, whatever follows. */
  lemma SevenFieldFileAborts(header: string, rest: seq<string>)
    ensures LoadFile([header, "Alice,TeamA,30,5,10,2,1"] + rest, ParseLine) == LoadResult([], true)
    ensures LoadFile([header, "Alice,TeamA,30,5,10,2,1"] + rest, IntendedLine) == Load(rest, IntendedLine)
  {
    AliceLine();
    SevenFieldLineAborts("Alice", "TeamA", 30, 5, 10, 2, 1);
    FirstLineAborts(header, "Alice,TeamA,30,5,10,2,1", rest);
  }

  /** With the corrected guard no line aborts, so the load always reaches the end of the file. */
  lemma IntendedLineNeverAborts(line: string)
    ensures IntendedLine(line) != Aborted
  {
  }

  lemma {:induction false} IntendedLoadCompletes(lines: seq<string>)
    ensures !Load(lines, IntendedLine).aborted
  {
    if lines != [] {
      IntendedLineNeverAborts(lines[0]);
      IntendedLoadCompletes(lines[1..]);
    }
  }

  /** The two guards differ only on lines of exactly seven fields. */
  lemma GuardsAgree(line: string)
    requires |Split(line)| != 7
    ensures ParseLine(line) == IntendedLine(line)
  {
  }

  lemma LoadsAgree(lines: seq<string>)
    requires forall i :: 0 <= i < |lines| ==> |Split(lines[i])| != 7
    ensures Load(lines, ParseLine) == Load(lines, IntendedLine)
  {
    forall i | 0 <= i < |lines| ensures ParseLine(lines[i]) == IntendedLine(lines[i]) {
      GuardsAgree(lines[i]);
    }
    SameOutcomesSameLoad(lines, ParseLine, IntendedLine);
  }

  /** Two line parsers that agree on every line load the same records. */
  lemma {:induction false} SameOutcomesSameLoad(lines: seq<string>, f: string -> LineOutcome, g: string -> LineOutcome)
    requires forall i :: 0 <= i < |lines| ==> f(lines[i]) == g(lines[i])
    ensures Load(lines, f) == Load(lines, g)
  {
    if lines != [] {
      assert f(lines[0]) == g(lines[0]);
      SameOutcomesSameLoad(lines[1..], f, g);
    }
  }
}
