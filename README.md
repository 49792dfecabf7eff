# Football standings, modelled in Dafny

The program keeps a league table of football teams. Each team record
holds:

- the games played, wins, draws and defeats (each a `u8`);
- the goals scored and conceded (each an `i32`);
- the goal difference and the points, which `calc_stats` derives.

A match result is typed as `home-away;hg-ag`. The program checks it, then
applies it to both teams' records. A file of such results can be applied
in one go.

`update_table` works in two steps. It recomputes the derived fields, then
sorts the table by points and then goal difference, both descending. The
table can be saved one team per line, as `name;played;wins;draws;defeats;scored;conceded`.
It can be loaded back from such a file, and the load is all or nothing.

src/main.rs is an older, single-file copy of the same code. Its one
behavioural difference is that its `parse_result` prints its error instead
of returning it.

The project has seven modules:

- **`Ints`** (ints.dfy): Rust's `u8` and `i32` as newtypes. An overflow,
  which makes Rust panic in a debug build, is a precondition of the
  operation that would overflow.
- **`Wrappers`** (wrappers.dfy): `Option` and `Result`.
- **`Text`** (text.dfy): the string functions the code borrows from Rust's
  standard library. These are `split` on one character, `trim`, `parse` for
  `u8` and `i32`, decimal `Display` and `to_lowercase`. `Split` undoes
  `Join`, `ParseU8`/`ParseI32` undo `ShowNat`/`ShowInt`, and `TrimIsInfix`
  shows that `Trim` removes whitespace at the two ends and nothing else.
- **`Team`** (team.dfy): each team record is a `Stats` value. The methods of
  `TeamStats`, a class with one field per record field, are proved against
  the functions `Recalc` and `Record`. `CreateTeam` reads one saved line.
- **`Tables`** (tables.dfy): `Table` is a class holding a sequence of
  `TeamStats` objects. `AddGame` and `UpdateTable` change those objects in
  place. They are proved against the functions `ApplyGame`, `RecalcAll` and
  `InsertionSort` on the records' values. `StableSortIsInsertionSort` shows
  that every stable sort by rank gives `InsertionSort`'s result, so
  `InsertionSort` is a faithful stand-in for Rust's stable `sort_by`.
- **`Standings`** (standings.dfy): the result-line checks of `parse_result`
  and the loop over a result file. It also covers the saved-line layout,
  the all-or-nothing load and the round trip from save to load.
- **`App`** (app.dfy): the menu commands of src/main.rs and its printing
  `parse_result`.

The rest of src/main.rs behaves the same as the module code apart from
what it prints, so one member models both copies; its row cites the module
code and names the span of the copy in src/main.rs. The copies are not
identical text. In src/main.rs, `parse_result` parses both scores before it
tests either, which changes nothing since parsing has no effect. Its
`add_result` (src/main.rs:373) and `read_result_from_file`
(src/main.rs:385-388) have no error to print, because that `parse_result`
returns none.

## Model

| member | source | states |
|---|---|---|
| Team.Recalc | src/standings/team.rs:16-20 | the result satisfies played = wins + draws + defeats, goal difference = scored − conceded, points = 3·wins + draws; name, counters and goal totals are kept |
| Team.RecalcIdempotent | src/standings/team.rs:16-20 | recomputing twice is recomputing once; a record is left unchanged exactly when it already satisfies the three equations; the copy at src/main.rs:38-42 behaves the same |
| Team.TeamStats.CalcStats | src/standings/team.rs:16-20 | the object's new value is `Recalc` of its old value; the copy at src/main.rs:38-42 behaves the same |
| Team.TeamStats.UpdateGoals | src/standings/team.rs:22-25 | adds the match's goals to the scored and conceded totals and changes nothing else |
| Team.TeamStats.AddWin | src/standings/team.rs:27-30 | the new value is `Record(old, Win, scored, conceded)` |
| Team.TeamStats.AddDraw | src/standings/team.rs:32-35 | the new value is `Record(old, Draw, scored, conceded)` |
| Team.TeamStats.AddDefeat | src/standings/team.rs:37-40 | the new value is `Record(old, Defeat, scored, conceded)` |
| Team.RecordChangesThreeFields | src/standings/team.rs:27-40 | recording changes exactly three fields: the outcome's counter grows by one and both goal totals grow by the match's goals; played, goal difference and points stay as they were; the copy at src/main.rs:44-62 behaves the same |
| Team.RecordThenRecalc | src/standings/team.rs:16-40 | after recording and recomputing, played grows by 1, points by 3, 1 or 0 for a win, draw or defeat, and goal difference by the match's margin |
| Team.Template | src/standings/team.rs:43-55 | the template has an empty name and every number zero |
| Team.ParseRecordReportsFirstBadField | src/standings/team.rs:65-88 | the error returned names the first numeric field that does not parse, in the order played, wins, draws, defeats, scored, conceded |
| Team.CreateTeam | src/standings/team.rs:57-100 | `WrongFieldCount` exactly when the line does not split into 7 parts; on success, the name is the trimmed first part, every number is the parse of its trimmed part, and goal difference and points are 0; the copy at src/main.rs:212-255 behaves the same |
| Team.CreateTeamErrorOrder | src/standings/team.rs:57-100 | the part count is checked first; then the first field that does not parse decides the error, and with no such field the result is `Ok` |
| Tables.FirstIndex | src/standings/tables.rs:69-70 | the index found holds the name and no earlier record does; `None` exactly when no record holds it |
| Tables.FirstIndexByNames | src/standings/tables.rs:89-90 | lookups depend on the names alone, so updating counters never moves a later lookup |
| Tables.OutcomeMirrors | src/standings/tables.rs:73-100 | the home side's outcome mirrors the away side's (a win against a defeat, a draw against a draw), and a draw happens exactly when the scores are equal |
| Tables.ApplySideKeepsLookups | src/standings/tables.rs:73-81 | updating one side keeps every name's first position |
| Tables.ApplyNamedFrame | src/standings/tables.rs:69-86 | updating a named side keeps the length and the names, and leaves every other record unchanged |
| Tables.ApplyGameFrame | src/standings/tables.rs:67-107 | a match keeps the table's length and names and changes no record other than the first home and first away record |
| Tables.ApplyGameHomeMissing | src/standings/tables.rs:82-85 | with the home team absent, nothing changes |
| Tables.ApplyGameAwayMissing | src/standings/tables.rs:101-104 | with only the away team absent, the home record is updated and nothing else |
| Tables.ApplyGameBothPresent | src/standings/tables.rs:73-100 | with both teams present and distinct, each record gets the outcome of its own side, its goals for and its goals against |
| Tables.ApplyGameSameTeam | src/standings/tables.rs:67-107 | with home and away the same present team, its first record gets the home side and then the away side, and nothing else changes |
| Tables.ApplyGameTwoOne | src/standings/tables.rs:73-100 | a 2-1 home win: the home team gains a win, 2 scored and 1 conceded, and the away team a defeat, 1 scored and 2 conceded |
| Tables.Table.Find | src/standings/tables.rs:69-70 | the loop returns `FirstIndex` of the table's records |
| Tables.Table.Contains | src/standings.rs:28-34 | true exactly when some record holds the name |
| Tables.Table.RecordSide | src/standings/tables.rs:73-81 | the records afterwards are `ApplySide` of the records before |
| Tables.Table.RecordNamed | src/standings/tables.rs:68-87 | reports whether the name was found; the records afterwards are `ApplyNamed` of those before |
| Tables.Table.AddGame | src/standings/tables.rs:67-107 | the records afterwards are `ApplyGame` of the records before; the copy at src/main.rs:139-179 behaves the same |
| Tables.CompareMeaning | src/standings/tables.rs:58-64 | the comparator says `Less` exactly when the first team outranks the second (more points, or equal points and a larger goal difference), and `Equal` exactly on equal points and goal difference |
| Tables.RankedNeighbours | src/standings/tables.rs:58-64 | in a ranked table, points never rise down the table, and goal difference never rises among teams level on points |
| Tables.SwapKeepsTiedOrder | src/standings/tables.rs:58-64 | exchanging two neighbours that are not level keeps the order of every group of level teams |
| Tables.StableRankingUnique | src/standings/tables.rs:58-64 | two ranked arrangements of the same records that keep level teams in the same order are equal |
| Tables.StableSortIsInsertionSort | src/standings/tables.rs:58-64 | every ranked arrangement of a table that keeps level teams in their original order is `InsertionSort`'s result |
| Tables.InsertionSortCorrect | src/standings/tables.rs:58-64 | `InsertionSort`'s result is ranked, holds the same records, and keeps level teams in their original order |
| Tables.SortObjects | src/standings/tables.rs:58-64 | the same objects come out, each once, reordered so that their records are in `InsertionSort` order |
| Tables.Insert | src/standings/tables.rs:58-64 | one pass of the insertion sort on the objects matches `Sink` on their records |
| Tables.Table.SortByRank | src/standings/tables.rs:58-64 | the table holds the same objects, reordered; their records afterwards are ranked, a rearrangement of those before that keeps level teams in order, namely `InsertionSort` of them |
| Tables.RecalcAll | src/standings/tables.rs:54-56 | the same number of records; each satisfies the three `calc_stats` equations and keeps its name, counters and goal totals |
| Tables.Table.UpdateTable | src/standings/tables.rs:53-65 | the records afterwards are `InsertionSort(RecalcAll(before))`: every team recomputed, ranked, the same records, level teams in their original order; the copy at src/main.rs:125-137 behaves the same |
| Tables.PermutationKeepsConsistent | src/standings/tables.rs:53-65 | sorting keeps every record's equations, so after `update_table` every team satisfies them |
| Tables.FreshRowsZero | src/standings/tables.rs:110-124 | each new record carries its given name and zero in every number |
| Tables.CreateTable | src/standings/tables.rs:110-124 | a new table with one new object per name, in order, each a copy of the template with that name; the copy at src/main.rs:196-210 behaves the same |
| Tables.FromRows | src/standings.rs:159-166 | a new table whose records are the given ones, in order |
| Standings.CheckResult | src/standings.rs:12-47 | a line passes exactly when it has two `;`-segments of two `-`-parts each, both trimmed teams are in the table, and both trimmed scores parse; it then yields those teams and scores |
| Standings.CheckResultPrecedence | src/standings.rs:15-47 | each error is reported exactly when every earlier check passed and its own check failed, in the order format, score format, home team, away team, home score, away score; the copy at src/main.rs:305-346 behaves the same |
| Standings.CheckResultByNames | src/standings.rs:28-38 | the checks depend on the table's names only |
| Standings.UnreadableHomeScore | src/standings.rs:15-43 | a line naming two present teams whose trimmed home score does not parse is rejected as a bad home score, whatever the away score |
| Standings.BadHomeScoreExample | src/standings.rs:15-43 | with teams A and B present, "A-B;x-1" is rejected as a bad home score |
| Standings.CheckResultOfResultLine | src/standings.rs:13-47 | a line written from a match between present teams, with names free of `-` and `;` and with no whitespace at either end, and scores of at least zero, passes and reads back as that match |
| Standings.AcceptedScoresNonNegative | src/standings.rs:19-47 | every line that passes the checks carries two scores of at least zero: a negative score cannot be entered |
| Standings.ApplyResultUpdatesBoth | src/standings.rs:28-54 | once a line passes, both teams are present, so neither not-found branch of `add_game` is reachable: two distinct teams each get their own side of the match; a team playing itself gets the home side and then the away side on the same record |
| Standings.ParseResult | src/standings.rs:12-57 | a rejected line returns its first failing check and leaves the table unchanged; an accepted one returns `Ok` after the records become `ApplyGame` of the parsed match |
| Standings.ApplyResultsConcat | src/standings.rs:87-93 | applying a file in two parts is applying the first part and then the second |
| Standings.RejectedLineSkipped | src/standings.rs:87-93 | a rejected line is skipped and the lines after it are still applied |
| Standings.ReadResultFromFile | src/standings.rs:80-96 | a file that cannot be opened changes nothing; otherwise the records become those lines applied in order |
| Standings.SavedTextAppend | src/standings.rs:106-122 | saving one more team appends exactly its line |
| Standings.SaveTableToFile | src/standings.rs:98-125 | the text written is one line per team in table order: name, played, wins, draws, defeats, scored, conceded, joined by `;` |
| Standings.CreateTeamOfFieldLine | src/standings.rs:107-116 | a saved line of a team whose name holds no `;` and has no whitespace at either end, read back by `create_team`, gives the team's stored fields, with goal difference and points 0 |
| Standings.LinesOfSavedText | src/standings.rs:144-145 | the lines of a saved text are the teams' lines, in order |
| Standings.PartitionAllOk | src/standings.rs:141-163 | the error side of the partition is empty exactly when every line parsed, and then the ok side holds every team in line order |
| Standings.LoadAllOrNothing | src/standings.rs:150-166 | one failing line gives an empty table; otherwise the table holds every line's team, in file order; the copy at src/main.rs:280-296 behaves the same |
| Standings.SaveThenLoad | src/standings.rs:98-166 | saving a table and loading the text gives back every team's stored fields in order, when no name holds `;` or a line break or starts or ends with whitespace |
| Standings.ReadTableFromFile | src/standings.rs:127-173 | a file that cannot be read gives an empty table; otherwise the table holds the all-or-nothing load of its lines; the copy at src/main.rs:257-303 behaves the same |
| App.FromString | src/main.rs:66-76 | `None` exactly when the lower-cased input is none of "1"–"5" and "exit" |
| App.FromStringDigits | src/main.rs:66-76 | each digit command is recognised exactly when the input is that bare digit |
| App.FromStringExit | src/main.rs:66-76 | `Exit` is recognised exactly on "exit" in any mix of upper and lower case |
| App.ParseResultPrinting | src/main.rs:305-359 | the printed error is the first failing check, with the table unchanged; with no error the records become `ApplyGame` of the parsed match |
| Text.Trim | src/standings/team.rs:63-88 | the result has no whitespace at either end, is no longer than the input, and equals an input that has none |
| Text.TrimIsInfix | src/standings/team.rs:63-88 | the input is the trimmed text with a run of whitespace before it and one after it |
| Text.TrimLacks | src/standings.rs:19-47 | trimming adds no character that the input lacks |
| Text.Split | src/standings/team.rs:58 | one more piece than separators, no piece holds the separator, and joining the pieces gives the input back |
| Text.SplitJoin | src/standings.rs:107-108 | splitting undoes joining when no piece holds the separator |
| Text.ParseU8OfShow | src/standings/team.rs:65-80 | parsing a `u8` gives back what `Display` wrote |
| Text.ParseI32OfShow | src/standings/team.rs:81-88 | parsing an `i32` gives back what `Display` wrote |

## Left out

- Printing. `print` (src/standings/tables.rs:8-51, src/main.rs:80-123) only lays the table out on screen, and every `println!` is output with no effect on state.
- The interactive loops read standard input: `add_result` (src/standings.rs:59-78, src/main.rs:361-376) and the menu loop of `main` with its 16 initial team names (src/main.rs:422-473). What they pass on is modelled: `main` gives its 16 constant names to `CreateTable`, each menu line goes to `App.FromString`, and each result line typed into `add_result` goes to `ParseResult` (`App.ParseResultPrinting` for the copy in src/main.rs).
- File access is a parameter. A file is given as `None` when opening it fails, or as its lines or text otherwise. The name typed for a table file, the current directory, and the clock-based name of the saved file are not modelled.
- `BufReader::lines` is modelled by `Standings.Lines`, which cuts at `\n` only. A `\r` before the line break, which Rust also strips, is not modelled. I/O errors while reading a line, which `read_result_from_file` propagates and `read_table_from_file` skips, are not modelled either, and neither are write errors in `save_table_to_file`.
- Text.Trim and Text.ToLower cover ASCII only. Rust's `trim` also strips non-ASCII white space, and `to_lowercase` maps every Unicode letter.
- Overflow is a precondition. The model follows a debug build, where `u8`/`i32` overflow panics (`CanRecalc`, `CanRecord`, `GameFits`, `ResultFits`, `ResultsFit`). A release build would wrap around instead; that is not modelled.
- Tables.Table.SortByRank: Rust's `sort_by` algorithm is not modelled. Insertion sort stands in for it, which `StableSortIsInsertionSort` justifies: every stable sort by this comparator gives the same order.
- Messages. The model keeps an error kind for each message and drops the message text. That includes `create_team`'s "contains more than seven(7) parts", which is also printed for lines with fewer than seven parts.
- Standings.CheckResultOfResultLine: it covers names free of `-` and `;`, without whitespace at either end, and scores of at least zero only. Other matches do not read back as themselves: a name holding `-` or `;` splits apart, a name with whitespace at an end comes back trimmed, and a negative score is never accepted (`AcceptedScoresNonNegative`).
- Standings.SaveThenLoad: it covers names free of `;` and line breaks, with no whitespace at either end. Other names do not survive `create_team`'s split and trim.
