/**
 * The file and result-line handling of the standings program
 * (src/standings.rs): the checks `parse_result` makes on a line
 * `home-away;hg-ag` before it applies the match, the loop that applies a
 * file of such lines, the line layout `save_table_to_file` writes, and the
 * all-or-nothing load of `read_table_from_file`. A file is given as its
 * lines, or as its text where the layout of lines matters.
 */
module Standings {
  import opened Ints
  import opened Wrappers
  import opened Text
  import opened Team
  import opened Tables

  // ------------------------------------------------------- result lines

  /** Why `parse_result` rejected a line; one kind per message. */
  datatype ResultError =
    | InvalidResultFormat
    | InvalidScoreFormat
    | HomeTeamMissing
    | AwayTeamMissing
    | BadHomeScore
    | BadAwayScore

  /** A match as `parse_result` reads it off a line. */
  datatype Game = Game(home: string, away: string, homeGoals: i32, awayGoals: i32)

  /** Two `;`-separated segments, each made of two `-`-separated parts. */
  predicate WellFormed(line: string) {
    var parts := Split(line, ';');
    |parts| == 2 && |Split(parts[0], '-')| == 2 && |Split(parts[1], '-')| == 2
  }

  /** Part `k` of segment `seg` of a well-formed line, trimmed. */
  function Piece(line: string, seg: nat, k: nat): string
    requires WellFormed(line) && seg < 2 && k < 2
  {
    Trim(Split(Split(line, ';')[seg], '-')[k])
  }

  /**
   * The checks of `parse_result`, in its order, against a table whose
   * records are `rows`: the line's shape, the home team's presence, the
   * away team's presence, the home score, the away score. A line passes
   * exactly when all five checks pass, and then names the trimmed teams
   * and the parsed scores.
   */
  function CheckResult(line: string, rows: seq<Stats>): (r: Result<Game, ResultError>)
    ensures r.Ok? <==>
      && WellFormed(line)
      && HasTeam(rows, Piece(line, 0, 0)) && HasTeam(rows, Piece(line, 0, 1))
      && ParseI32(Piece(line, 1, 0)).Some? && ParseI32(Piece(line, 1, 1)).Some?
    ensures r.Ok? ==> WellFormed(line)
    ensures r.Ok? ==> r.value == Game(Piece(line, 0, 0), Piece(line, 0, 1),
      ParseI32(Piece(line, 1, 0)).value, ParseI32(Piece(line, 1, 1)).value)
  {
    if |Split(line, ';')| != 2 then Err(InvalidResultFormat)
    else if !WellFormed(line) then Err(InvalidScoreFormat)
    else
      var home, away := Piece(line, 0, 0), Piece(line, 0, 1);
      if !HasTeam(rows, home) then Err(HomeTeamMissing)
      else if !HasTeam(rows, away) then Err(AwayTeamMissing)
      else match ParseI32(Piece(line, 1, 0))
        case None => Err(BadHomeScore)
        case Some(homeGoals) =>
          match ParseI32(Piece(line, 1, 1))
          case None => Err(BadAwayScore)
          case Some(awayGoals) => Ok(Game(home, away, homeGoals, awayGoals))
  }

  /** Each error is reported exactly when every earlier check passed and its
      own check failed. */
  lemma CheckResultPrecedence(line: string, rows: seq<Stats>)
    ensures var r := CheckResult(line, rows);
      && (r == Err(InvalidResultFormat) <==> |Split(line, ';')| != 2)
      && (r == Err(InvalidScoreFormat) <==> |Split(line, ';')| == 2 && !WellFormed(line))
      && (r == Err(HomeTeamMissing) <==> WellFormed(line) && !HasTeam(rows, Piece(line, 0, 0)))
      && (r == Err(AwayTeamMissing) <==>
            WellFormed(line) && HasTeam(rows, Piece(line, 0, 0)) && !HasTeam(rows, Piece(line, 0, 1)))
      && (r == Err(BadHomeScore) <==>
            WellFormed(line) && HasTeam(rows, Piece(line, 0, 0)) && HasTeam(rows, Piece(line, 0, 1))
            && ParseI32(Piece(line, 1, 0)).None?)
      && (r == Err(BadAwayScore) <==>
            WellFormed(line) && HasTeam(rows, Piece(line, 0, 0)) && HasTeam(rows, Piece(line, 0, 1))
            && ParseI32(Piece(line, 1, 0)).Some? && ParseI32(Piece(line, 1, 1)).None?)
  {
  }

  /** The checks look at the table's names only. */
  lemma {:induction false} CheckResultByNames(line: string, rows: seq<Stats>, rows': seq<Stats>)
    requires |rows| == |rows'| && forall k :: 0 <= k < |rows| ==> rows[k].name == rows'[k].name
    ensures CheckResult(line, rows) == CheckResult(line, rows')
  {
    forall name: string ensures HasTeam(rows, name) == HasTeam(rows', name) {
      if HasTeam(rows, name) {
        var k :| 0 <= k < |rows| && rows[k].name == name;
        assert rows'[k].name == name;
      }
      if HasTeam(rows', name) {
        var k :| 0 <= k < |rows'| && rows'[k].name == name;
        assert rows[k].name == name;
      }
    }
  }

  /** The line a user types for a match. */
  function ResultLine(g: Game): string {
    Join([Join([g.home, g.away], '-'), Join([ShowInt(g.homeGoals as int), ShowInt(g.awayGoals as int)], '-')], ';')
  }

  /** A name that survives a result line: no separator, nothing trimmed off. */
  predicate PlainName(name: string) {
    ';' !in name && '-' !in name && Trimmed(name)
  }

  lemma JoinPair(a: string, b: string, sep: char)
    ensures Join([a, b], sep) == a + [sep] + b
  {
    assert [a, b][1..] == [b];
  }

  lemma {:induction false} SplitPair(a: string, b: string, sep: char)
    requires sep !in a && sep !in b
    ensures Split(a + [sep] + b, sep) == [a, b]
  {
    JoinPair(a, b, sep);
    SplitJoin([a, b], sep);
  }

  lemma ShowNatLacks(n: nat, c: char)
    requires !IsDigit(c)
    ensures c !in ShowNat(n)
  {
    var s := ShowNat(n);
    assert forall k :: 0 <= k < |s| ==> s[k] != c;
  }

  /** A line written from a match between two present teams, with plain
      names and scores of at least zero, passes the checks and reads back as
      that match. */
  lemma CheckResultOfResultLine(g: Game, rows: seq<Stats>)
    requires PlainName(g.home) && PlainName(g.away)
    requires g.homeGoals >= 0 && g.awayGoals >= 0
    requires HasTeam(rows, g.home) && HasTeam(rows, g.away)
    ensures CheckResult(ResultLine(g), rows) == Ok(g)
  {
    var hs, aws := ShowInt(g.homeGoals as int), ShowInt(g.awayGoals as int);
    ShowIntPlain(g.homeGoals as int, ';');
    ShowIntPlain(g.awayGoals as int, ';');
    ShowNatLacks(g.homeGoals as nat, '-');
    ShowNatLacks(g.awayGoals as nat, '-');
    JoinPair(g.home, g.away, '-');
    JoinPair(hs, aws, '-');
    var teams, score := g.home + ['-'] + g.away, hs + ['-'] + aws;
    assert ';' !in teams && ';' !in score;
    var line := ResultLine(g);
    JoinPair(teams, score, ';');
    SplitPair(teams, score, ';');
    SplitPair(g.home, g.away, '-');
    SplitPair(hs, aws, '-');
    assert Split(line, ';') == [teams, score];
    ParseI32OfShow(g.homeGoals);
    ParseI32OfShow(g.awayGoals);
  }

  /** A line naming two present teams whose home score does not parse is
      rejected as `BadHomeScore`, whatever its away score. */
  lemma UnreadableHomeScore(home: string, away: string, hs: string, aws: string, rows: seq<Stats>)
    requires PlainName(home) && PlainName(away)
    requires ';' !in hs && '-' !in hs && ';' !in aws && '-' !in aws
    requires HasTeam(rows, home) && HasTeam(rows, away) && ParseI32(Trim(hs)).None?
    ensures CheckResult((home + ['-'] + away) + [';'] + (hs + ['-'] + aws), rows) == Err(BadHomeScore)
  {
    var teams, score := home + ['-'] + away, hs + ['-'] + aws;
    var line := teams + [';'] + score;
    assert ';' !in teams && ';' !in score;
    SplitPair(teams, score, ';');
    SplitPair(home, away, '-');
    SplitPair(hs, aws, '-');
    assert Split(line, ';') == [teams, score];
    assert Piece(line, 0, 0) == home && Piece(line, 0, 1) == away;
    assert Piece(line, 1, 0) == Trim(hs);
  }

  /** With both teams present, "A-B;x-1" is rejected as a home score that
      does not parse. */
  lemma BadHomeScoreExample(rows: seq<Stats>)
    requires HasTeam(rows, "A") && HasTeam(rows, "B")
    ensures CheckResult("A-B;x-1", rows) == Err(BadHomeScore)
  {
    assert "A-B;x-1" == ("A" + ['-'] + "B") + [';'] + ("x" + ['-'] + "1");
    UnreadableHomeScore("A", "B", "x", "1", rows);
  }
  /** A score that passes the checks is never negative: the score parts
      hold no `-`, so neither does their trimmed text, and a negative `i32`
      needs a leading minus sign. A negative score can thus not be entered. */
  lemma AcceptedScoresNonNegative(line: string, rows: seq<Stats>)
    requires CheckResult(line, rows).Ok?
    ensures CheckResult(line, rows).value.homeGoals >= 0
    ensures CheckResult(line, rows).value.awayGoals >= 0
  {
    var score := Split(Split(line, ';')[1], '-');
    TrimLacks(score[0], '-');
    TrimLacks(score[1], '-');
    var hs, aws := Piece(line, 1, 0), Piece(line, 1, 1);
    assert hs != [] ==> hs[0] in hs;
    assert aws != [] ==> aws[0] in aws;
  }

  /** `parse_result` applies the match only when it does not overflow. */
  predicate ResultFits(line: string, rows: seq<Stats>) {
    match CheckResult(line, rows)
    case Err(_) => true
    case Ok(g) => GameFits(rows, g.home, g.away, g.homeGoals, g.awayGoals)
  }

  /** What `parse_result` does to the records: a rejected line changes
      nothing, an accepted one is applied by `add_game`. */
  function ApplyResult(rows: seq<Stats>, line: string): seq<Stats>
    requires ResultFits(line, rows)
  {
    match CheckResult(line, rows)
    case Err(_) => rows
    case Ok(g) => ApplyGame(rows, g.home, g.away, g.homeGoals, g.awayGoals)
  }

  /** An accepted line has both teams present, so `add_game` never takes a
      not-found branch. Two distinct teams each take their own side of the
      match; a team playing itself takes the home side and then the away
      side on the same record. */
  lemma ApplyResultUpdatesBoth(rows: seq<Stats>, line: string)
    requires ResultFits(line, rows) && CheckResult(line, rows).Ok?
    ensures var g := CheckResult(line, rows).value;
      FirstIndex(rows, g.home).Some? && FirstIndex(rows, g.away).Some?
    ensures var g := CheckResult(line, rows).value;
      var h, a := FirstIndex(rows, g.home).value, FirstIndex(rows, g.away).value;
      g.home != g.away ==>
        && CanRecord(rows[a], OutcomeFor(g.awayGoals, g.homeGoals), g.awayGoals, g.homeGoals)
        && ApplyResult(rows, line)[h] == Record(rows[h], OutcomeFor(g.homeGoals, g.awayGoals), g.homeGoals, g.awayGoals)
        && ApplyResult(rows, line)[a] == Record(rows[a], OutcomeFor(g.awayGoals, g.homeGoals), g.awayGoals, g.homeGoals)
    ensures var g := CheckResult(line, rows).value;
      var h := FirstIndex(rows, g.home).value;
      g.home == g.away ==>
        && CanRecord(Record(rows[h], OutcomeFor(g.homeGoals, g.awayGoals), g.homeGoals, g.awayGoals),
                     OutcomeFor(g.awayGoals, g.homeGoals), g.awayGoals, g.homeGoals)
        && ApplyResult(rows, line)[h] ==
             Record(Record(rows[h], OutcomeFor(g.homeGoals, g.awayGoals), g.homeGoals, g.awayGoals),
                    OutcomeFor(g.awayGoals, g.homeGoals), g.awayGoals, g.homeGoals)
  {
    var g := CheckResult(line, rows).value;
    if g.home != g.away {
      ApplyGameBothPresent(rows, g.home, g.away, g.homeGoals, g.awayGoals);
    } else {
      ApplyGameSameTeam(rows, g.home, g.homeGoals, g.awayGoals);
    }
  }

  /** `parse_result`: checks the line in order and, if every check passes,
      applies the match with `add_game`. A rejected line reports its first
      failing check and leaves the table exactly as it was. */
  method ParseResult(line: string, table: Table) returns (r: Result<(), ResultError>)
    requires table.Valid() && ResultFits(line, table.Rows())
    modifies table.teams
    ensures match CheckResult(line, old(table.Rows()))
      case Err(e) => r == Err(e) && table.Rows() == old(table.Rows())
      case Ok(g) => r == Ok(()) && table.Rows() == ApplyGame(old(table.Rows()), g.home, g.away, g.homeGoals, g.awayGoals)
  {
    ghost var verdict := CheckResult(line, table.Rows());
    var parts := Split(line, ';');
    if |parts| != 2 {
      assert verdict == Err(InvalidResultFormat);
      return Err(InvalidResultFormat);
    }
    var teams := Split(parts[0], '-');
    var score := Split(parts[1], '-');
    if |teams| != 2 || |score| != 2 {
      assert verdict == Err(InvalidScoreFormat);
      return Err(InvalidScoreFormat);
    }
    assert WellFormed(line);
    var home := Trim(teams[0]);
    var away := Trim(teams[1]);
    assert home == Piece(line, 0, 0) && away == Piece(line, 0, 1);
    var homeExists := table.Contains(home);
    if !homeExists {
      assert verdict == Err(HomeTeamMissing);
      return Err(HomeTeamMissing);
    }
    var awayExists := table.Contains(away);
    if !awayExists {
      assert verdict == Err(AwayTeamMissing);
      return Err(AwayTeamMissing);
    }
    assert Trim(score[0]) == Piece(line, 1, 0) && Trim(score[1]) == Piece(line, 1, 1);
    var homeGoals := ParseI32(Trim(score[0]));
    if homeGoals.None? {
      assert verdict == Err(BadHomeScore);
      return Err(BadHomeScore);
    }
    var awayGoals := ParseI32(Trim(score[1]));
    if awayGoals.None? {
      assert verdict == Err(BadAwayScore);
      return Err(BadAwayScore);
    }
    assert verdict == Ok(Game(home, away, homeGoals.value, awayGoals.value));
    table.AddGame(home, away, homeGoals.value, awayGoals.value);
    return Ok(());
  }

  // ------------------------------------------------------- result files

  /** Every line of a result file can be applied in turn without overflow. */
  predicate ResultsFit(rows: seq<Stats>, lines: seq<string>)
    decreases |lines|
  {
    lines == [] || (ResultFits(lines[0], rows) && ResultsFit(ApplyResult(rows, lines[0]), lines[1..]))
  }

  /** The lines of a result file applied in order, rejected ones skipped. */
  function ApplyResults(rows: seq<Stats>, lines: seq<string>): seq<Stats>
    requires ResultsFit(rows, lines)
    decreases |lines|
  {
    if lines == [] then rows else ApplyResults(ApplyResult(rows, lines[0]), lines[1..])
  }

  /** Applying a file in two parts is applying the first part, then the
      second. */
  lemma {:induction false} ApplyResultsConcat(rows: seq<Stats>, a: seq<string>, b: seq<string>)
    requires ResultsFit(rows, a + b)
    ensures ResultsFit(rows, a) && ResultsFit(ApplyResults(rows, a), b)
    ensures ApplyResults(rows, a + b) == ApplyResults(ApplyResults(rows, a), b)
    decreases |a|
  {
    if a != [] {
      assert (a + b)[0] == a[0] && (a + b)[1..] == a[1..] + b;
      ApplyResultsConcat(ApplyResult(rows, a[0]), a[1..], b);
    } else {
      assert a + b == b;
    }
  }

  /** A rejected line is skipped and the lines after it are still applied. */
  lemma RejectedLineSkipped(rows: seq<Stats>, line: string, rest: seq<string>)
    requires CheckResult(line, rows).Err? && ResultsFit(rows, rest)
    ensures ResultsFit(rows, [line] + rest)
    ensures ApplyResults(rows, [line] + rest) == ApplyResults(rows, rest)
  {
    assert ([line] + rest)[0] == line && ([line] + rest)[1..] == rest;
  }

  /** `read_result_from_file`: a file that cannot be opened (`None`) is
      reported and changes nothing; otherwise `parse_result` runs on every
      line, in order, and a line's error does not stop the loop. */
  method ReadResultFromFile(file: Option<seq<string>>, table: Table) returns (readable: bool)
    requires table.Valid()
    requires file.Some? ==> ResultsFit(table.Rows(), file.value)
    modifies table.teams
    ensures table.Valid() && readable == file.Some?
    ensures table.Rows() == match file
      case None => old(table.Rows())
      case Some(lines) => ApplyResults(old(table.Rows()), lines)
  {
    if file.None? {
      return false;
    }
    var lines := file.value;
    var k := 0;
    while k < |lines|
      invariant 0 <= k <= |lines| && table.Valid()
      invariant ResultsFit(table.Rows(), lines[k..])
      invariant ApplyResults(table.Rows(), lines[k..]) == ApplyResults(old(table.Rows()), lines)
    {
      assert lines[k..][0] == lines[k] && lines[k..][1..] == lines[k + 1..];
      var _ := ParseResult(lines[k], table);
      k := k + 1;
    }
    return true;
  }

  // -------------------------------------------------------- table files

  /** The seven fields `save_table_to_file` writes for a team, in order;
      goal difference and points are not among them. */
  function SavedFields(t: Stats): seq<string> {
    [t.name, ShowNat(t.played as nat), ShowNat(t.wins as nat), ShowNat(t.draws as nat),
     ShowNat(t.defeats as nat), ShowInt(t.goalScored as int), ShowInt(t.goalAgainst as int)]
  }

  /** One saved line without its line break: the fields joined by `;`. */
  function FieldLine(t: Stats): string {
    Join(SavedFields(t), ';')
  }

  /** The text a saved table consists of: one line per team, in table
      order, each ended by a line break. */
  function SavedText(rows: seq<Stats>): string {
    if rows == [] then [] else FieldLine(rows[0]) + "\n" + SavedText(rows[1..])
  }

  lemma {:induction false} SavedTextAppend(rows: seq<Stats>, t: Stats)
    ensures SavedText(rows + [t]) == SavedText(rows) + FieldLine(t) + "\n"
  {
    if rows == [] {
      assert [] + [t] == [t];
      assert [t][1..] == [];
    } else {
      assert (rows + [t])[0] == rows[0] && (rows + [t])[1..] == rows[1..] + [t];
      SavedTextAppend(rows[1..], t);
    }
  }

  /** `save_table_to_file`: the text written for a table, one line per team
      in table order. The name of the file, made from the clock, is not
      modelled. */
  method SaveTableToFile(table: Table) returns (text: string)
    ensures text == SavedText(table.Rows())
  {
    text := [];
    for k := 0 to |table.teams|
      invariant text == SavedText(table.Rows()[..k])
    {
      var line := FieldLine(table.teams[k].Value());
      assert table.Rows()[..k + 1] == table.Rows()[..k] + [table.teams[k].Value()];
      SavedTextAppend(table.Rows()[..k], table.teams[k].Value());
      text := text + line + "\n";
    }
    assert table.Rows()[..|table.teams|] == table.Rows();
  }

  /** A name that survives a saved line: no `;`, no line break, nothing
      trimmed off. */
  predicate SavableName(name: string) {
    ';' !in name && '\n' !in name && Trimmed(name)
  }

  /** What a team is read back as: its stored fields, with goal difference
      and points zero until the next `calc_stats`. */
  function Stored(t: Stats): (s: Stats) {
    Stats(t.name, t.played, t.wins, t.draws, t.defeats, t.goalScored, t.goalAgainst, 0, 0)
  }

  lemma ShowNatIsShowInt(n: nat)
    ensures ShowInt(n) == ShowNat(n)
  {
  }

  /** No field holds `c`, when `c` is neither a digit nor a minus sign and the
      name lacks it. */
  lemma SavedFieldsLack(t: Stats, c: char)
    requires !IsDigit(c) && c != '-' && c !in t.name
    ensures forall i :: 0 <= i < 7 ==> c !in SavedFields(t)[i]
  {
    var f := SavedFields(t);
    ShowNatIsShowInt(t.played as nat);
    ShowNatIsShowInt(t.wins as nat);
    ShowNatIsShowInt(t.draws as nat);
    ShowNatIsShowInt(t.defeats as nat);
    ShowIntPlain(t.played as int, c);
    ShowIntPlain(t.wins as int, c);
    ShowIntPlain(t.draws as int, c);
    ShowIntPlain(t.defeats as int, c);
    ShowIntPlain(t.goalScored as int, c);
    ShowIntPlain(t.goalAgainst as int, c);
  }

  /** A saved line, read back by `create_team`, gives the team's stored
      fields. */
  lemma CreateTeamOfFieldLine(t: Stats)
    requires ';' !in t.name && Trimmed(t.name)
    ensures CreateTeam(FieldLine(t)) == Ok(Stored(t))
  {
    var f := SavedFields(t);
    SavedFieldsLack(t, ';');
    SplitJoin(f, ';');
    assert Split(FieldLine(t), ';') == f;
    ShowNatIsShowInt(t.played as nat);
    ShowNatIsShowInt(t.wins as nat);
    ShowNatIsShowInt(t.draws as nat);
    ShowNatIsShowInt(t.defeats as nat);
    ShowIntPlain(t.played as int, ';');
    ShowIntPlain(t.wins as int, ';');
    ShowIntPlain(t.draws as int, ';');
    ShowIntPlain(t.defeats as int, ';');
    ShowIntPlain(t.goalScored as int, ';');
    ShowIntPlain(t.goalAgainst as int, ';');
    ParseU8OfShow(t.played);
    ParseU8OfShow(t.wins);
    ParseU8OfShow(t.draws);
    ParseU8OfShow(t.defeats);
    ParseI32OfShow(t.goalScored);
    ParseI32OfShow(t.goalAgainst);
    assert NumericFields(f) == f[1..];
  }

  /** `BufReader::lines`: the text cut at line breaks, without the empty
      piece after a final line break. */
  function Lines(text: string): seq<string> {
    var pieces := Split(text, '\n');
    if pieces[|pieces| - 1] == [] then pieces[..|pieces| - 1] else pieces
  }

  /** What `create_team` makes of each line, in order. */
  function Attempts(lines: seq<string>): seq<Result<Stats, TeamError>>
  {
    seq(|lines|, k requires 0 <= k < |lines| => CreateTeam(lines[k]))
  }

  /** The teams of the lines that parse, in order. */
  function Parsed(rs: seq<Result<Stats, TeamError>>): seq<Stats>
  {
    if rs == [] then []
    else (match rs[0] case Ok(t) => [t] case Err(_) => []) + Parsed(rs[1..])
  }

  /** ... and its `Err` side. */
  function Failures(rs: seq<Result<Stats, TeamError>>): seq<TeamError> {
    if rs == [] then []
    else (match rs[0] case Ok(_) => [] case Err(e) => [e]) + Failures(rs[1..])
  }

  /** What `read_table_from_file` loads from the lines of an open file:
      nothing if any line fails, otherwise every parsed team. */
  function LoadTable(lines: seq<string>): seq<Stats> {
    var rs := Attempts(lines);
    if Failures(rs) != [] then [] else Parsed(rs)
  }

  lemma {:induction false} PartitionAllOk(rs: seq<Result<Stats, TeamError>>)
    ensures Failures(rs) == [] <==> forall k :: 0 <= k < |rs| ==> rs[k].Ok?
    ensures Failures(rs) == [] ==>
      |Parsed(rs)| == |rs| && forall k :: 0 <= k < |rs| ==> Parsed(rs)[k] == rs[k].value
  {
    if rs != [] {
      PartitionAllOk(rs[1..]);
      assert forall k :: 1 <= k < |rs| ==> rs[k] == rs[1..][k - 1];
    }
  }

  /** Loading is all or nothing: one failing line gives an empty table;
      otherwise the table holds the parsed team of every line, in file
      order. */
  lemma LoadAllOrNothing(lines: seq<string>)
    ensures (exists k :: 0 <= k < |lines| && CreateTeam(lines[k]).Err?) ==> LoadTable(lines) == []
    ensures (forall k :: 0 <= k < |lines| ==> CreateTeam(lines[k]).Ok?) ==>
      |LoadTable(lines)| == |lines| && forall k :: 0 <= k < |lines| ==> LoadTable(lines)[k] == CreateTeam(lines[k]).value
  {
    var rs := Attempts(lines);
    assert |rs| == |lines| && forall k :: 0 <= k < |lines| ==> rs[k] == CreateTeam(lines[k]);
    PartitionAllOk(rs);
  }

  function FieldLines(rows: seq<Stats>): seq<string>
  {
    seq(|rows|, k requires 0 <= k < |rows| => FieldLine(rows[k]))
  }

  lemma {:induction false} SavedTextJoin(rows: seq<Stats>)
    ensures SavedText(rows) == Join(FieldLines(rows) + [[]], '\n')
  {
    if rows != [] {
      SavedTextJoin(rows[1..]);
      var ls := FieldLines(rows) + [[]];
      assert ls[1..] == FieldLines(rows[1..]) + [[]];
    } else {
      assert FieldLines(rows) + [[]] == [[]];
    }
  }

  lemma FieldLineLacksBreak(t: Stats)
    requires SavableName(t.name)
    ensures '\n' !in FieldLine(t)
  {
    SavedFieldsLack(t, '\n');
    JoinLacks(SavedFields(t), ';', '\n');
  }

  lemma SavedPiecesLackBreak(rows: seq<Stats>)
    requires forall k :: 0 <= k < |rows| ==> SavableName(rows[k].name)
    ensures forall i :: 0 <= i < |rows| + 1 ==> '\n' !in (FieldLines(rows) + [[]])[i]
  {
    var ls := FieldLines(rows) + [[]];
    forall i | 0 <= i < |rows| + 1 ensures '\n' !in ls[i] {
      if i < |rows| {
        FieldLineLacksBreak(rows[i]);
      }
    }
  }

  /** A saved text reads back as one line per team. */
  lemma LinesOfSavedText(rows: seq<Stats>)
    requires forall k :: 0 <= k < |rows| ==> SavableName(rows[k].name)
    ensures Lines(SavedText(rows)) == FieldLines(rows)
  {
    var ls := FieldLines(rows) + [[]];
    SavedPiecesLackBreak(rows);
    SavedTextJoin(rows);
    SplitJoin(ls, '\n');
    assert Split(SavedText(rows), '\n') == ls;
    assert ls[..|ls| - 1] == FieldLines(rows);
  }

  /** Saving a table and loading the saved text gives back every team's
      stored fields, in order, as long as no name holds `;` or a line break
      or has whitespace at either end. */
  lemma SaveThenLoad(rows: seq<Stats>)
    requires forall k :: 0 <= k < |rows| ==> SavableName(rows[k].name)
    ensures LoadTable(Lines(SavedText(rows))) == seq(|rows|, k requires 0 <= k < |rows| => Stored(rows[k]))
  {
    LinesOfSavedText(rows);
    var rs := Attempts(FieldLines(rows));
    forall k | 0 <= k < |rows| ensures rs[k] == Ok(Stored(rows[k])) {
      CreateTeamOfFieldLine(rows[k]);
    }
    PartitionAllOk(rs);
  }

  /** Joining adds only separators. */
  lemma {:induction false} JoinLacks(parts: seq<string>, sep: char, c: char)
    requires |parts| >= 1 && c != sep && forall i :: 0 <= i < |parts| ==> c !in parts[i]
    ensures c !in Join(parts, sep)
  {
    if |parts| > 1 {
      JoinLacks(parts[1..], sep, c);
    }
  }

  /** `read_table_from_file`: a file that cannot be read (`None`) gives an
      empty table, as does one with a line `create_team` rejects; otherwise
      the table holds the parsed teams in file order. */
  method ReadTableFromFile(file: Option<seq<string>>) returns (table: Table)
    ensures fresh(table) && table.Valid()
    ensures table.Rows() == match file case None => [] case Some(lines) => LoadTable(lines)
  {
    match file
    case None =>
      table := FromRows([]);
    case Some(lines) =>
      table := FromRows(LoadTable(lines));
  }
}
