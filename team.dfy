/**
 * One team's record in the standings (src/standings/team.rs, repeated as
 * `Team` in src/main.rs). A `TeamStats` object is updated in place by
 * `AddWin`, `AddDraw` and `AddDefeat`; `CalcStats` recomputes the derived
 * fields. `Stats` is the value of such an object at one moment, and is
 * what `CreateTeam` parses out of a saved table line.
 */
module Team {
  import opened Ints
  import opened Text
  import opened Wrappers

  /** The fields of a team record, as a value. */
  datatype Stats = Stats(
    name: string,
    played: u8,
    wins: u8,
    draws: u8,
    defeats: u8,
    goalScored: i32,
    goalAgainst: i32,
    goalDifference: i32,
    points: u8)

  /** The match outcome that one of the three `add_*` methods records. */
  datatype Outcome = Win | Draw | Defeat

  /** The equations `calc_stats` establishes: games played is the sum of the
      outcome counters, goal difference is scored minus conceded, and
      points are three per win and one per draw. */
  predicate Consistent(s: Stats) {
    && s.played as int == s.wins as int + s.draws as int + s.defeats as int
    && s.goalDifference as int == s.goalScored as int - s.goalAgainst as int
    && s.points as int == 3 * s.wins as int + s.draws as int
  }

  /** `calc_stats` does not overflow: the sum of the counters and the points
      fit in a `u8`, and the goal difference fits in an `i32`. */
  predicate CanRecalc(s: Stats) {
    && s.wins as int + s.draws as int + s.defeats as int < 0x100
    && 3 * s.wins as int + s.draws as int < 0x100
    && InI32(s.goalScored as int - s.goalAgainst as int)
  }

  /** The stored fields: everything except the derived ones. */
  predicate SameStored(a: Stats, b: Stats) {
    && a.name == b.name && a.wins == b.wins && a.draws == b.draws && a.defeats == b.defeats
    && a.goalScored == b.goalScored && a.goalAgainst == b.goalAgainst
  }

  /** What `calc_stats` does to a record. */
  function Recalc(s: Stats): (r: Stats)
    requires CanRecalc(s)
    ensures Consistent(r)
    ensures SameStored(r, s)
  {
    s.(played := s.wins + s.draws + s.defeats,
       goalDifference := s.goalScored - s.goalAgainst,
       points := s.wins * 3 + s.draws)
  }

  /** Recomputing twice is recomputing once, and a record already satisfying
      the equations is left as it is. */
  lemma RecalcIdempotent(s: Stats)
    requires CanRecalc(s)
    ensures CanRecalc(Recalc(s)) && Recalc(Recalc(s)) == Recalc(s)
    ensures Consistent(s) <==> Recalc(s) == s
  {
  }

  /** The one outcome counter `o` selects. */
  function Counter(s: Stats, o: Outcome): u8 {
    match o
    case Win => s.wins
    case Draw => s.draws
    case Defeat => s.defeats
  }

  /** `add_*` does not overflow: the counter is below 255 and both goal sums
      fit in an `i32`. */
  predicate CanRecord(s: Stats, o: Outcome, scored: i32, conceded: i32) {
    && Counter(s, o) < 0xFF
    && InI32(s.goalScored as int + scored as int)
    && InI32(s.goalAgainst as int + conceded as int)
  }

  /** What `add_win`, `add_draw` or `add_defeat` does to a record. */
  function Record(s: Stats, o: Outcome, scored: i32, conceded: i32): Stats
    requires CanRecord(s, o, scored, conceded)
  {
    var t := s.(goalScored := s.goalScored + scored, goalAgainst := s.goalAgainst + conceded);
    match o
    case Win => t.(wins := s.wins + 1)
    case Draw => t.(draws := s.draws + 1)
    case Defeat => t.(defeats := s.defeats + 1)
  }

  /** Recording a match changes exactly three fields: the counter of its
      outcome goes up by one and both goal totals grow by the match's goals.
      Played, goal difference and points are not recomputed. */
  lemma RecordChangesThreeFields(s: Stats, o: Outcome, scored: i32, conceded: i32)
    requires CanRecord(s, o, scored, conceded)
    ensures var r := Record(s, o, scored, conceded);
      && r.name == s.name
      && r.played == s.played && r.goalDifference == s.goalDifference && r.points == s.points
      && r.goalScored as int == s.goalScored as int + scored as int
      && r.goalAgainst as int == s.goalAgainst as int + conceded as int
      && (forall p: Outcome :: Counter(r, p) as int == Counter(s, p) as int + (if p == o then 1 else 0))
  {
  }

  /** After recording a match and recomputing, one more game has been played,
      the points grew by 3, 1 or 0, and the goal difference by the match's
      margin. */
  lemma {:induction false} RecordThenRecalc(s: Stats, o: Outcome, scored: i32, conceded: i32)
    requires CanRecalc(s) && CanRecord(s, o, scored, conceded)
    requires CanRecalc(Record(s, o, scored, conceded))
    ensures var before, after := Recalc(s), Recalc(Record(s, o, scored, conceded));
      && after.played as int == before.played as int + 1
      && after.points as int == before.points as int + (match o case Win => 3 case Draw => 1 case Defeat => 0)
      && after.goalDifference as int == before.goalDifference as int + scored as int - conceded as int
  {
    var r := Record(s, o, scored, conceded);
    assert Consistent(Recalc(s)) && Consistent(Recalc(r));
    match o
    case Win => assert r.wins as int == s.wins as int + 1;
    case Draw => assert r.draws as int == s.draws as int + 1;
    case Defeat => assert r.defeats as int == s.defeats as int + 1;
  }

  /** A team record that `Table` methods update in place. */
  class TeamStats {
    var name: string
    var played: u8
    var wins: u8
    var draws: u8
    var defeats: u8
    var goalScored: i32
    var goalAgainst: i32
    var goalDifference: i32
    var points: u8

    /** The record's current value. */
    function Value(): Stats
      reads this
    {
      Stats(name, played, wins, draws, defeats, goalScored, goalAgainst, goalDifference, points)
    }

    /** A team object holding the record `s`. */
    constructor (s: Stats)
      ensures Value() == s
    {
      name, played, wins, draws, defeats := s.name, s.played, s.wins, s.draws, s.defeats;
      goalScored, goalAgainst, goalDifference, points := s.goalScored, s.goalAgainst, s.goalDifference, s.points;
    }

    /** `calc_stats`: establishes `Consistent` and touches only the derived
        fields. */
    method CalcStats()
      requires CanRecalc(Value())
      modifies this
      ensures Value() == Recalc(old(Value()))
      ensures Consistent(Value())
    {
      played := wins + draws + defeats;
      goalDifference := goalScored - goalAgainst;
      points := wins * 3 + draws;
    }

    /** `update_goals`: adds the match's goals to the two goal totals. */
    method UpdateGoals(scored: i32, conceded: i32)
      requires InI32(goalScored as int + scored as int)
      requires InI32(goalAgainst as int + conceded as int)
      modifies this
      ensures Value() == old(Value()).(goalScored := old(goalScored) + scored,
                                       goalAgainst := old(goalAgainst) + conceded)
    {
      goalScored := goalScored + scored;
      goalAgainst := goalAgainst + conceded;
    }

    /** `add_win` */
    method AddWin(scored: i32, conceded: i32)
      requires CanRecord(Value(), Win, scored, conceded)
      modifies this
      ensures Value() == Record(old(Value()), Win, scored, conceded)
    {
      wins := wins + 1;
      UpdateGoals(scored, conceded);
    }

    /** `add_draw` */
    method AddDraw(scored: i32, conceded: i32)
      requires CanRecord(Value(), Draw, scored, conceded)
      modifies this
      ensures Value() == Record(old(Value()), Draw, scored, conceded)
    {
      draws := draws + 1;
      UpdateGoals(scored, conceded);
    }

    /** `add_defeat` */
    method AddDefeat(scored: i32, conceded: i32)
      requires CanRecord(Value(), Defeat, scored, conceded)
      modifies this
      ensures Value() == Record(old(Value()), Defeat, scored, conceded)
    {
      defeats := defeats + 1;
      UpdateGoals(scored, conceded);
    }
  }

  /** `create_team_template`: an unnamed team with every number zero. */
  function Template(): (t: Stats)
    ensures t.name == [] && t.played == t.wins == t.draws == t.defeats == t.points == 0
    ensures t.goalScored == t.goalAgainst == t.goalDifference == 0
  {
    Stats("", 0, 0, 0, 0, 0, 0, 0, 0)
  }

  /** Why `create_team` rejected a line; one kind per message in the source. */
  datatype TeamError =
    | WrongFieldCount
    | BadPlayed
    | BadWins
    | BadDraws
    | BadDefeats
    | BadGoalsScored
    | BadGoalsConceded

  /** The six numeric parts of a 7-part line, each trimmed. */
  function NumericFields(parts: seq<string>): seq<string>
    requires |parts| == 7
  {
    [Trim(parts[1]), Trim(parts[2]), Trim(parts[3]), Trim(parts[4]), Trim(parts[5]), Trim(parts[6])]
  }

  /** Numeric field `k` (1 to 6) parses: fields 1 to 4 (played, wins, draws,
      defeats) as `u8`, fields 5 and 6 (goals scored and conceded) as `i32`. */
  predicate FieldParses(fields: seq<string>, k: nat)
    requires |fields| == 6 && 1 <= k <= 6
  {
    if k <= 4 then ParseU8(fields[k - 1]).Some? else ParseI32(fields[k - 1]).Some?
  }

  /** The first numeric field at or after `k` that does not parse, or 7 when
      they all do. */
  function FirstBadField(fields: seq<string>, k: nat): (f: nat)
    requires |fields| == 6 && 1 <= k <= 7
    ensures k <= f <= 7
    ensures f < 7 ==> !FieldParses(fields, f)
    ensures forall j :: k <= j < f ==> FieldParses(fields, j)
    decreases 7 - k
  {
    if k == 7 then 7 else if !FieldParses(fields, k) then k else FirstBadField(fields, k + 1)
  }

  /** The error reported when numeric field `k` is the first that does not
      parse. */
  function FieldError(k: nat): TeamError
    requires 1 <= k <= 6
  {
    [BadPlayed, BadWins, BadDraws, BadDefeats, BadGoalsScored, BadGoalsConceded][k - 1]
  }

  /** The `parse()?` chain of `create_team`, on the trimmed parts. */
  function ParseRecord(name: string, fields: seq<string>): (r: Result<Stats, TeamError>)
    requires |fields| == 6
    ensures r.Ok? ==> var t := r.value;
      && t.name == name
      && ParseU8(fields[0]) == Some(t.played)
      && ParseU8(fields[1]) == Some(t.wins)
      && ParseU8(fields[2]) == Some(t.draws)
      && ParseU8(fields[3]) == Some(t.defeats)
      && ParseI32(fields[4]) == Some(t.goalScored)
      && ParseI32(fields[5]) == Some(t.goalAgainst)
      && t.goalDifference == 0 && t.points == 0
  {
    var played := ParseU8(fields[0]);
    var wins := ParseU8(fields[1]);
    var draws := ParseU8(fields[2]);
    var defeats := ParseU8(fields[3]);
    var scored := ParseI32(fields[4]);
    var conceded := ParseI32(fields[5]);
    if played.None? then Err(BadPlayed)
    else if wins.None? then Err(BadWins)
    else if draws.None? then Err(BadDraws)
    else if defeats.None? then Err(BadDefeats)
    else if scored.None? then Err(BadGoalsScored)
    else if conceded.None? then Err(BadGoalsConceded)
    else
      // goal difference and points come from `..create_team_template()`: zero
      Ok(Stats(name, played.value, wins.value, draws.value, defeats.value,
               scored.value, conceded.value, 0, 0))
  }

  /** The chain stops at the first numeric field that does not parse and
      reports that field; when none fails it succeeds. */
  lemma {:induction false} ParseRecordReportsFirstBadField(name: string, fields: seq<string>)
    requires |fields| == 6
    ensures var f := FirstBadField(fields, 1);
      if f == 7 then ParseRecord(name, fields).Ok? else ParseRecord(name, fields) == Err(FieldError(f))
  {
    var f := FirstBadField(fields, 1);
    assert f > 1 ==> FieldParses(fields, 1);
    assert f > 2 ==> FieldParses(fields, 2);
    assert f > 3 ==> FieldParses(fields, 3);
    assert f > 4 ==> FieldParses(fields, 4);
    assert f > 5 ==> FieldParses(fields, 5);
    assert f > 6 ==> FieldParses(fields, 6);
  }

  /**
   * `create_team`: parses `name;played;wins;draws;defeats;scored;conceded`.
   * A line that does not split on `;` into exactly seven parts is rejected
   * before anything is parsed. On success the name is the trimmed first
   * part, the counters and goals are the parsed trimmed parts, and goal
   * difference and points are zero: nothing is recomputed.
   */
  function CreateTeam(line: string): (r: Result<Stats, TeamError>)
    ensures r == Err(WrongFieldCount) <==> |Split(line, ';')| != 7
    ensures r.Ok? ==> |Split(line, ';')| == 7
    ensures r.Ok? ==> var parts, t := Split(line, ';'), r.value;
      && t.name == Trim(parts[0])
      && ParseU8(Trim(parts[1])) == Some(t.played)
      && ParseU8(Trim(parts[2])) == Some(t.wins)
      && ParseU8(Trim(parts[3])) == Some(t.draws)
      && ParseU8(Trim(parts[4])) == Some(t.defeats)
      && ParseI32(Trim(parts[5])) == Some(t.goalScored)
      && ParseI32(Trim(parts[6])) == Some(t.goalAgainst)
      && t.goalDifference == 0 && t.points == 0
  {
    var parts := Split(line, ';');
    if |parts| != 7 then Err(WrongFieldCount)
    else ParseRecord(Trim(parts[0]), NumericFields(parts))
  }

  /** Error precedence of `create_team`: the part count first, then the
      first numeric field, in the order played, wins, draws, defeats, goals
      scored, goals conceded, that does not parse after trimming. */
  lemma CreateTeamErrorOrder(line: string)
    ensures var parts := Split(line, ';');
      if |parts| != 7 then CreateTeam(line) == Err(WrongFieldCount)
      else
        var f := FirstBadField(NumericFields(parts), 1);
        if f == 7 then CreateTeam(line).Ok? else CreateTeam(line) == Err(FieldError(f))
  {
    var parts := Split(line, ';');
    if |parts| == 7 {
      ParseRecordReportsFirstBadField(Trim(parts[0]), NumericFields(parts));
    }
  }
}
