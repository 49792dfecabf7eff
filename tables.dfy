/**
 * The league table (src/standings/tables.rs, repeated in src/main.rs): a
 * vector of team records that `AddGame` updates in place and `UpdateTable`
 * recomputes and then sorts in place, by points and then goal difference,
 * descending. The functions on `seq<Stats>` say what each operation does
 * to the values of the records; the `Table` methods are proved against
 * them.
 */
module Tables {
  import opened Ints
  import opened Wrappers
  import opened Team

  // ------------------------------------------------------------- lookup

  /** Position of the first record named `name`, scanning from the front,
      or `None`. */
  function FirstIndex(rows: seq<Stats>, name: string): (r: Option<nat>)
    ensures r.Some? ==> r.value < |rows| && rows[r.value].name == name
    ensures r.Some? ==> forall k :: 0 <= k < r.value ==> rows[k].name != name
    ensures r.None? <==> forall k :: 0 <= k < |rows| ==> rows[k].name != name
  {
    if rows == [] then None
    else if rows[0].name == name then Some(0)
    else match FirstIndex(rows[1..], name)
      case None => None
      case Some(i) =>
        assert forall k :: 1 <= k <= i ==> rows[k] == rows[1..][k - 1];
        Some(i + 1)
  }

  /** Some record is named `name`. */
  predicate HasTeam(rows: seq<Stats>, name: string) {
    exists k :: 0 <= k < |rows| && rows[k].name == name
  }

  /** Lookups only look at names, so two tables with the same names in the
      same order find the same positions. */
  lemma {:induction false} FirstIndexByNames(rows: seq<Stats>, rows': seq<Stats>, name: string)
    requires |rows| == |rows'|
    requires forall k :: 0 <= k < |rows| ==> rows[k].name == rows'[k].name
    ensures FirstIndex(rows, name) == FirstIndex(rows', name)
  {
    if rows != [] && rows[0].name != name {
      FirstIndexByNames(rows[1..], rows'[1..], name);
    }
  }

  // ------------------------------------------------- applying a match

  /** The outcome a side with `scored` against `conceded` goals records. */
  function OutcomeFor(scored: i32, conceded: i32): Outcome {
    if scored > conceded then Win else if scored < conceded then Defeat else Draw
  }

  /** The two sides of a match record mirrored outcomes: a win against a
      defeat, a draw against a draw. */
  lemma OutcomeMirrors(homeScore: i32, awayScore: i32)
    ensures OutcomeFor(homeScore, awayScore) == Win <==> OutcomeFor(awayScore, homeScore) == Defeat
    ensures OutcomeFor(homeScore, awayScore) == Draw <==> OutcomeFor(awayScore, homeScore) == Draw
    ensures OutcomeFor(homeScore, awayScore) == Draw <==> homeScore == awayScore
  {
  }

  predicate CanApplySide(rows: seq<Stats>, i: nat, scored: i32, conceded: i32)
    requires i < |rows|
  {
    CanRecord(rows[i], OutcomeFor(scored, conceded), scored, conceded)
  }

  /** The record at `i` takes one side of a match, from that side's view. */
  function ApplySide(rows: seq<Stats>, i: nat, scored: i32, conceded: i32): seq<Stats>
    requires i < |rows| && CanApplySide(rows, i, scored, conceded)
  {
    rows[i := Record(rows[i], OutcomeFor(scored, conceded), scored, conceded)]
  }

  /** Recording a side for the first team called `name` does not overflow. */
  predicate SideFits(rows: seq<Stats>, name: string, scored: i32, conceded: i32) {
    match FirstIndex(rows, name)
    case None => true
    case Some(i) => CanApplySide(rows, i, scored, conceded)
  }

  /** The first record called `name`, if any, takes one side of a match. */
  function ApplyNamed(rows: seq<Stats>, name: string, scored: i32, conceded: i32): seq<Stats>
    requires SideFits(rows, name, scored, conceded)
  {
    match FirstIndex(rows, name)
    case None => rows
    case Some(i) => ApplySide(rows, i, scored, conceded)
  }

  /** `add_game` does not overflow any counter or goal total it touches. */
  predicate GameFits(rows: seq<Stats>, home: string, away: string, homeScore: i32, awayScore: i32) {
    && SideFits(rows, home, homeScore, awayScore)
    && (FirstIndex(rows, home).Some? ==>
          SideFits(ApplyNamed(rows, home, homeScore, awayScore), away, awayScore, homeScore))
  }

  /** What `add_game` does to the records: the first record named `home`
      takes the home side, then the first record named `away` takes the away
      side. A missing home team stops everything; a missing away team stops
      after the home side has been recorded. */
  function ApplyGame(rows: seq<Stats>, home: string, away: string, homeScore: i32, awayScore: i32): seq<Stats>
    requires GameFits(rows, home, away, homeScore, awayScore)
  {
    if FirstIndex(rows, home).None? then rows
    else ApplyNamed(ApplyNamed(rows, home, homeScore, awayScore), away, awayScore, homeScore)
  }

  /** Recording the home side does not move the away team: lookups after it
      find what they would have found before. */
  lemma ApplySideKeepsLookups(rows: seq<Stats>, i: nat, scored: i32, conceded: i32, name: string)
    requires i < |rows| && CanApplySide(rows, i, scored, conceded)
    ensures FirstIndex(ApplySide(rows, i, scored, conceded), name) == FirstIndex(rows, name)
  {
    FirstIndexByNames(rows, ApplySide(rows, i, scored, conceded), name);
  }

  /** Recording one named side keeps the length and every name, moves no
      lookup, and changes no record but the first one called `name`. */
  lemma ApplyNamedFrame(rows: seq<Stats>, name: string, scored: i32, conceded: i32, other: string)
    requires SideFits(rows, name, scored, conceded)
    ensures var r := ApplyNamed(rows, name, scored, conceded);
      && |r| == |rows|
      && (forall k :: 0 <= k < |rows| ==> r[k].name == rows[k].name)
      && (forall k :: 0 <= k < |rows| && FirstIndex(rows, name) != Some(k) ==> r[k] == rows[k])
      && FirstIndex(r, other) == FirstIndex(rows, other)
  {
    if i :| FirstIndex(rows, name) == Some(i) {
      ApplySideKeepsLookups(rows, i, scored, conceded, other);
    }
  }

  /** `add_game` keeps the length, the order and every name, and changes no
      record except the first one named `home` and the first one named
      `away`. */
  lemma ApplyGameFrame(rows: seq<Stats>, home: string, away: string, homeScore: i32, awayScore: i32)
    requires GameFits(rows, home, away, homeScore, awayScore)
    ensures var r := ApplyGame(rows, home, away, homeScore, awayScore);
      && |r| == |rows|
      && (forall k :: 0 <= k < |rows| ==> r[k].name == rows[k].name)
      && (forall k :: 0 <= k < |rows| && FirstIndex(rows, home) != Some(k) && FirstIndex(rows, away) != Some(k) ==>
            r[k] == rows[k])
  {
    if FirstIndex(rows, home).Some? {
      ApplyNamedFrame(rows, home, homeScore, awayScore, away);
      var rows1 := ApplyNamed(rows, home, homeScore, awayScore);
      ApplyNamedFrame(rows1, away, awayScore, homeScore, away);
    }
  }

  /** With the home team missing, `add_game` changes nothing. */
  lemma ApplyGameHomeMissing(rows: seq<Stats>, home: string, away: string, homeScore: i32, awayScore: i32)
    requires !HasTeam(rows, home)
    ensures GameFits(rows, home, away, homeScore, awayScore)
    ensures ApplyGame(rows, home, away, homeScore, awayScore) == rows
  {
  }

  /** With the home team present and the away team missing, the home side is
      still recorded: the update is partial. */
  lemma ApplyGameAwayMissing(rows: seq<Stats>, home: string, away: string, homeScore: i32, awayScore: i32)
    requires HasTeam(rows, home) && !HasTeam(rows, away)
    requires GameFits(rows, home, away, homeScore, awayScore)
    ensures var h := FirstIndex(rows, home).value;
      ApplyGame(rows, home, away, homeScore, awayScore)
        == rows[h := Record(rows[h], OutcomeFor(homeScore, awayScore), homeScore, awayScore)]
  {
    var h := FirstIndex(rows, home).value;
    ApplySideKeepsLookups(rows, h, homeScore, awayScore, away);
  }

  /** With both teams present and distinct, the home record takes the
      outcome from the home side's view (home goals scored, away goals
      conceded) and the away record the mirrored outcome from its own. */
  lemma ApplyGameBothPresent(rows: seq<Stats>, home: string, away: string, homeScore: i32, awayScore: i32)
    requires HasTeam(rows, home) && HasTeam(rows, away) && home != away
    requires GameFits(rows, home, away, homeScore, awayScore)
    ensures CanRecord(rows[FirstIndex(rows, away).value], OutcomeFor(awayScore, homeScore), awayScore, homeScore)
    ensures var h, a := FirstIndex(rows, home).value, FirstIndex(rows, away).value;
      var r := ApplyGame(rows, home, away, homeScore, awayScore);
      && r[h] == Record(rows[h], OutcomeFor(homeScore, awayScore), homeScore, awayScore)
      && r[a] == Record(rows[a], OutcomeFor(awayScore, homeScore), awayScore, homeScore)
  {
    var h := FirstIndex(rows, home).value;
    ApplySideKeepsLookups(rows, h, homeScore, awayScore, away);
  }

  /** A team playing itself: `add_game` finds the same record twice, so it
      records the home side and then, on top of that, the away side. */
  lemma ApplyGameSameTeam(rows: seq<Stats>, team: string, homeScore: i32, awayScore: i32)
    requires HasTeam(rows, team) && GameFits(rows, team, team, homeScore, awayScore)
    ensures var h := FirstIndex(rows, team).value;
      CanRecord(Record(rows[h], OutcomeFor(homeScore, awayScore), homeScore, awayScore),
                OutcomeFor(awayScore, homeScore), awayScore, homeScore)
    ensures var h := FirstIndex(rows, team).value;
      ApplyGame(rows, team, team, homeScore, awayScore) ==
        rows[h := Record(Record(rows[h], OutcomeFor(homeScore, awayScore), homeScore, awayScore),
                         OutcomeFor(awayScore, homeScore), awayScore, homeScore)]
  {
    var h := FirstIndex(rows, team).value;
    ApplySideKeepsLookups(rows, h, homeScore, awayScore, team);
  }

  /** A result such as 2-1 between two distinct teams: the home team gains a
      win with 2 scored and 1 conceded, the away team a defeat with 1 scored
      and 2 conceded. */
  lemma ApplyGameTwoOne(rows: seq<Stats>, home: string, away: string)
    requires HasTeam(rows, home) && HasTeam(rows, away) && home != away
    requires GameFits(rows, home, away, 2, 1)
    ensures var h, a := FirstIndex(rows, home).value, FirstIndex(rows, away).value;
      var r := ApplyGame(rows, home, away, 2, 1);
      && r[h].wins as int == rows[h].wins as int + 1 && r[h].draws == rows[h].draws
      && r[h].defeats == rows[h].defeats
      && r[h].goalScored as int == rows[h].goalScored as int + 2
      && r[h].goalAgainst as int == rows[h].goalAgainst as int + 1
      && r[a].defeats as int == rows[a].defeats as int + 1 && r[a].draws == rows[a].draws
      && r[a].wins == rows[a].wins
      && r[a].goalScored as int == rows[a].goalScored as int + 1
      && r[a].goalAgainst as int == rows[a].goalAgainst as int + 2
  {
    ApplyGameBothPresent(rows, home, away, 2, 1);
  }

  // ------------------------------------------------------------ ranking

  datatype Ordering = Less | Equal | Greater

  /** The closure given to `sort_by`: more points first, then larger goal
      difference first. */
  function Compare(a: Stats, b: Stats): Ordering {
    if a.points != b.points then
      (if b.points < a.points then Less else Greater)
    else if b.goalDifference < a.goalDifference then Less
    else if b.goalDifference == a.goalDifference then Equal
    else Greater
  }

  /** `a` sorts strictly before `b`. */
  predicate Outranks(a: Stats, b: Stats) {
    a.points > b.points || (a.points == b.points && a.goalDifference > b.goalDifference)
  }

  /** `a` may stand before `b` in a sorted table. */
  predicate RanksAtLeast(a: Stats, b: Stats) {
    a.points > b.points || (a.points == b.points && a.goalDifference >= b.goalDifference)
  }

  /** The closure orders a pair `Less` exactly when the first outranks the
      second, and `Equal` exactly when they tie on points and goal
      difference; otherwise the second outranks the first. */
  lemma CompareMeaning(a: Stats, b: Stats)
    ensures Compare(a, b) == Less <==> Outranks(a, b)
    ensures Compare(a, b) == Equal <==> a.points == b.points && a.goalDifference == b.goalDifference
    ensures Compare(a, b) == Greater <==> Outranks(b, a)
  {
  }

  /** Every record ranks at least as high as every later one. */
  predicate Ranked(rows: seq<Stats>) {
    forall i, j :: 0 <= i < j < |rows| ==> RanksAtLeast(rows[i], rows[j])
  }

  /** A ranked table, read as neighbours: points never go up, and where they
      stay the same the goal difference never goes up. */
  lemma RankedNeighbours(rows: seq<Stats>, i: nat)
    requires Ranked(rows) && i + 1 < |rows|
    ensures rows[i].points >= rows[i + 1].points
    ensures rows[i].points == rows[i + 1].points ==> rows[i].goalDifference >= rows[i + 1].goalDifference
  {
  }

  /** The records with `points` and `goalDifference` equal to `p` and `g`,
      in table order. */
  function Tied(rows: seq<Stats>, p: u8, g: i32): seq<Stats> {
    if rows == [] then []
    else (if rows[0].points == p && rows[0].goalDifference == g then [rows[0]] else []) + Tied(rows[1..], p, g)
  }

  /** Stability: records that tie on points and goal difference stand in the
      same relative order in `r` as in `s`. */
  predicate SameTiedOrder(r: seq<Stats>, s: seq<Stats>) {
    forall p: u8, g: i32 :: Tied(r, p, g) == Tied(s, p, g)
  }

  lemma {:induction false} TiedConcat(a: seq<Stats>, b: seq<Stats>, p: u8, g: i32)
    ensures Tied(a + b, p, g) == Tied(a, p, g) + Tied(b, p, g)
  {
    if a != [] {
      var head := if a[0].points == p && a[0].goalDifference == g then [a[0]] else [];
      assert (a + b)[0] == a[0];
      assert (a + b)[1..] == a[1..] + b;
      TiedConcat(a[1..], b, p, g);
      calc {
        Tied(a + b, p, g);
        head + Tied(a[1..] + b, p, g);
        head + (Tied(a[1..], p, g) + Tied(b, p, g));
        (head + Tied(a[1..], p, g)) + Tied(b, p, g);
      }
    } else {
      assert a + b == b;
    }
  }

  /** Exchanging neighbours `j - 1` and `j`. */
  function Swap<T>(s: seq<T>, j: nat): (r: seq<T>)
    requires 0 < j < |s|
  {
    s[j - 1 := s[j]][j := s[j - 1]]
  }

  lemma TiedPairSwap(x: Stats, y: Stats, p: u8, g: i32)
    requires x.points != y.points || x.goalDifference != y.goalDifference
    ensures Tied([x, y], p, g) == Tied([y, x], p, g)
  {
    assert [x, y][1..] == [y] && [y, x][1..] == [x];
  }

  /** Exchanging two neighbours that do not tie keeps every group of tied
      records in order. */
  lemma SwapKeepsTiedOrder(s: seq<Stats>, j: nat)
    requires 0 < j < |s|
    requires s[j - 1].points != s[j].points || s[j - 1].goalDifference != s[j].goalDifference
    ensures SameTiedOrder(Swap(s, j), s)
  {
    var front, back := s[..j - 1], s[j + 1..];
    var x, y := s[j - 1], s[j];
    assert s == front + ([x, y] + back);
    assert Swap(s, j) == front + ([y, x] + back);
    forall p: u8, g: i32 ensures Tied(Swap(s, j), p, g) == Tied(s, p, g) {
      TiedConcat(front, [x, y] + back, p, g);
      TiedConcat(front, [y, x] + back, p, g);
      TiedConcat([x, y], back, p, g);
      TiedConcat([y, x], back, p, g);
      TiedPairSwap(x, y, p, g);
    }
  }

  /** The first record of a ranked table ranks at least as high as every
      record in it. */
  lemma HeadRanksHighest(r: seq<Stats>, x: Stats)
    requires Ranked(r) && r != [] && x in multiset(r)
    ensures RanksAtLeast(r[0], x)
  {
    var k :| 0 <= k < |r| && r[k] == x;
  }

  /** Two ranked rearrangements of each other start with the same record:
      their heads tie, and each heads the same tied group. */
  lemma RankedHeadsAgree(r1: seq<Stats>, r2: seq<Stats>)
    requires Ranked(r1) && Ranked(r2) && Rearranged(r1, r2) && r1 != []
    ensures r2 != [] && r1[0] == r2[0]
  {
    assert r2 != [] by { assert r1[0] in multiset(r2); }
    var x, y := r1[0], r2[0];
    HeadRanksHighest(r1, y);
    HeadRanksHighest(r2, x);
    var p, g := x.points, x.goalDifference;
    assert Tied(r1, p, g) == [x] + Tied(r1[1..], p, g);
    assert y.points == p && y.goalDifference == g;
    assert Tied(r2, p, g) == [y] + Tied(r2[1..], p, g);
    assert Tied(r1, p, g) == Tied(r2, p, g);
    assert x == Tied(r1, p, g)[0] && y == Tied(r2, p, g)[0];
  }

  /** Removing a common head keeps a rearrangement a rearrangement. */
  lemma RearrangedTails(r1: seq<Stats>, r2: seq<Stats>)
    requires Rearranged(r1, r2) && r1 != [] && r2 != [] && r1[0] == r2[0]
    ensures Rearranged(r1[1..], r2[1..])
  {
    TiedTails(r1, r2);
    var x := r1[0];
    assert r1 == [x] + r1[1..] && r2 == [x] + r2[1..];
    assert multiset(r1[1..]) == multiset(r1) - multiset{x};
    assert multiset(r2[1..]) == multiset(r2) - multiset{x};
  }

  lemma TiedTails(r1: seq<Stats>, r2: seq<Stats>)
    requires SameTiedOrder(r1, r2) && r1 != [] && r2 != [] && r1[0] == r2[0]
    ensures SameTiedOrder(r1[1..], r2[1..])
  {
    forall q: u8, h: i32 ensures Tied(r1[1..], q, h) == Tied(r2[1..], q, h) {
      var x := r1[0];
      var head := if x.points == q && x.goalDifference == h then [x] else [];
      assert Tied(r1, q, h) == head + Tied(r1[1..], q, h);
      assert Tied(r2, q, h) == head + Tied(r2[1..], q, h);
      assert Tied(r1[1..], q, h) == Tied(r1, q, h)[|head|..];
      assert Tied(r2[1..], q, h) == Tied(r2, q, h)[|head|..];
    }
  }

  /** A ranked rearrangement keeping tied records in order is unique. */
  lemma {:induction false} StableRankingUnique(r1: seq<Stats>, r2: seq<Stats>)
    requires Ranked(r1) && Ranked(r2) && Rearranged(r1, r2)
    ensures r1 == r2
    decreases |r1|
  {
    if r1 == [] {
      assert |r2| == |multiset(r2)| == 0;
    } else {
      RankedHeadsAgree(r1, r2);
      RearrangedTails(r1, r2);
      assert Ranked(r1[1..]) && Ranked(r2[1..]);
      StableRankingUnique(r1[1..], r2[1..]);
      assert r1 == [r1[0]] + r1[1..] && r2 == [r2[0]] + r2[1..];
    }
  }

  /** `sort_by` is a stable sort, so the order it produces is the one the
      insertion sort produces: any ranked table that keeps the records of
      `s` and the order of its tied records is `InsertionSort(s)`. */
  lemma StableSortIsInsertionSort(r: seq<Stats>, s: seq<Stats>)
    requires Ranked(r) && Rearranged(r, s)
    ensures r == InsertionSort(s)
  {
    InsertionSortCorrect(s);
    StableRankingUnique(r, InsertionSort(s));
  }

  /** `calc_stats` can run on every record without overflow. */
  predicate AllCanRecalc(rows: seq<Stats>) {
    forall k :: 0 <= k < |rows| ==> CanRecalc(rows[k])
  }

  /** Every record recomputed in place: each satisfies the `calc_stats`
      equations and keeps its stored fields. */
  function RecalcAll(rows: seq<Stats>): (r: seq<Stats>)
    requires AllCanRecalc(rows)
    ensures |r| == |rows|
    ensures forall k :: 0 <= k < |rows| ==> Consistent(r[k]) && SameStored(r[k], rows[k])
  {
    seq(|rows|, k requires 0 <= k < |rows| => Recalc(rows[k]))
  }

  // ---------------------------------------------------------- the table

  /** The values of the records `ts`, in order. */
  function RowsOf(ts: seq<TeamStats>): seq<Stats>
    reads ts
  {
    seq(|ts|, k reads ts requires 0 <= k < |ts| => ts[k].Value())
  }

  /** No record object appears twice: the vector owns its elements. */
  ghost predicate Distinct(ts: seq<TeamStats>) {
    forall i, j :: 0 <= i < j < |ts| ==> ts[i] != ts[j]
  }

  class Table {
    var teams: seq<TeamStats>

    ghost predicate Valid()
      reads this
    {
      Distinct(teams)
    }

    /** The records' values, in table order. */
    function Rows(): seq<Stats>
      reads this, teams
    {
      RowsOf(teams)
    }

    /** A table over the given records. */
    constructor (ts: seq<TeamStats>)
      requires Distinct(ts)
      ensures teams == ts && Valid()
    {
      teams := ts;
    }

    /** The position of the first record with this name, found by a scan
        from the front of the table. */
    method Find(name: string) returns (r: Option<nat>)
      ensures r == FirstIndex(Rows(), name)
    {
      var i := 0;
      while i < |teams|
        invariant 0 <= i <= |teams|
        invariant forall k :: 0 <= k < i ==> teams[k].name != name
      {
        if teams[i].name == name {
          assert forall k :: 0 <= k <= i ==> Rows()[k] == teams[k].Value();
          return Some(i);
        }
        i := i + 1;
      }
      return None;
    }

    /** Whether some record has this name. */
    method Contains(name: string) returns (found: bool)
      ensures found == HasTeam(Rows(), name)
    {
      var i := Find(name);
      found := i.Some?;
    }

    /** The team at `i` records one side of a match, chosen by comparing its
        goals with the other side's, as both halves of `add_game` do. */
    method RecordSide(i: nat, scored: i32, conceded: i32)
      requires Valid() && i < |teams| && CanApplySide(Rows(), i, scored, conceded)
      modifies teams[i]
      ensures Rows() == ApplySide(old(Rows()), i, scored, conceded)
    {
      var team := teams[i];
      if scored > conceded {
        team.AddWin(scored, conceded);
      } else if scored < conceded {
        team.AddDefeat(scored, conceded);
      } else {
        team.AddDraw(scored, conceded);
      }
      assert forall k :: 0 <= k < |teams| && k != i ==> teams[k].Value() == old(teams[k].Value());
    }

    /** One half of `add_game`: finds the first team called `name` and
        records its side of the match; says whether it was found. */
    method RecordNamed(name: string, scored: i32, conceded: i32) returns (found: bool)
      requires Valid() && SideFits(Rows(), name, scored, conceded)
      modifies teams
      ensures found == FirstIndex(old(Rows()), name).Some?
      ensures Rows() == ApplyNamed(old(Rows()), name, scored, conceded)
    {
      var i := Find(name);
      if i.None? {
        return false;
      }
      RecordSide(i.value, scored, conceded);
      return true;
    }

    /** `add_game`: updates the first home and first away record in place;
        nothing else in the table changes. */
    method AddGame(home: string, away: string, homeScore: i32, awayScore: i32)
      requires Valid() && GameFits(Rows(), home, away, homeScore, awayScore)
      modifies teams
      ensures Rows() == ApplyGame(old(Rows()), home, away, homeScore, awayScore)
    {
      var found := RecordNamed(home, homeScore, awayScore);
      if !found {
        return; // the home team is missing: nothing is recorded
      }
      found := RecordNamed(away, awayScore, homeScore);
      if !found {
        return; // the away team is missing: only the home side is recorded
      }
    }

    /** `update_table`: recomputes every record, then sorts the vector in
        place. The result holds the same records, recomputed; it is ranked;
        the sort is stable; and every record satisfies the `calc_stats`
        equations. */
    method UpdateTable()
      requires Valid() && AllCanRecalc(Rows())
      modifies this, teams
      ensures Valid()
      ensures Rows() == InsertionSort(RecalcAll(old(Rows())))
      ensures multiset(Rows()) == multiset(RecalcAll(old(Rows())))
      ensures SameTiedOrder(Rows(), RecalcAll(old(Rows())))
      ensures Ranked(Rows())
      ensures forall k :: 0 <= k < |teams| ==> Consistent(Rows()[k])
    {
      // Recompute every record, in table order.
      ghost var before := Rows();
      assert forall k :: 0 <= k < |teams| ==> before[k] == teams[k].Value();
      var i := 0;
      while i < |teams|
        invariant teams == old(teams)
        invariant 0 <= i <= |teams|
        invariant forall k :: 0 <= k < i ==> teams[k].Value() == Recalc(before[k])
        invariant forall k :: i <= k < |teams| ==> teams[k].Value() == before[k]
      {
        teams[i].CalcStats();
        i := i + 1;
      }
      ghost var recalculated := Rows();
      assert recalculated == RecalcAll(old(Rows()));
      SortByRank();
      PermutationKeepsConsistent(Rows(), recalculated);
    }

    /** The sort of `update_table`: a stable sort by rank, here by insertion,
        which reorders the objects and leaves each of them untouched. */
    method SortByRank()
      requires Valid()
      modifies this
      ensures Valid()
      ensures Rows() == InsertionSort(old(Rows()))
      ensures Ranked(Rows()) && Rearranged(Rows(), old(Rows()))
      ensures multiset(teams) == multiset(old(teams))
    {
      teams := SortObjects(teams);
      InsertionSortCorrect(old(Rows()));
    }
  }

  /** Sorts the objects `ts` by their records, by insertion: the same
      objects come out, reordered. */
  method SortObjects(ts: seq<TeamStats>) returns (ts': seq<TeamStats>)
    requires Distinct(ts)
    ensures Distinct(ts') && multiset(ts') == multiset(ts)
    ensures RowsOf(ts') == InsertionSort(RowsOf(ts))
  {
    ghost var rows := RowsOf(ts);
    ts' := ts;
    for i := 0 to |ts|
      invariant |ts'| == |ts| && Distinct(ts') && multiset(ts') == multiset(ts)
      invariant RowsOf(ts') == SortPrefix(rows, i)
    {
      ts' := Insert(ts', i);
      assert SortPrefix(rows, i + 1) == Sink(SortPrefix(rows, i), i);
    }
  }

  /** One pass of the insertion sort on the objects: the one at `i` moves
      left past every neighbour whose record its own strictly outranks. */
  method Insert(ts: seq<TeamStats>, i: nat) returns (ts': seq<TeamStats>)
    requires i < |ts| && Distinct(ts)
    ensures |ts'| == |ts| && Distinct(ts') && multiset(ts') == multiset(ts)
    ensures RowsOf(ts') == Sink(RowsOf(ts), i)
  {
    ts' := ts;
    var j: nat := i;
    while j > 0
      invariant j <= i < |ts'| == |ts| && Distinct(ts') && multiset(ts') == multiset(ts)
      invariant Sink(RowsOf(ts'), j) == Sink(RowsOf(ts), i)
    {
      if Compare(ts'[j].Value(), ts'[j - 1].Value()) != Less {
        SinkStops(ts', j);
        return;
      }
      SinkObjects(ts', j);
      SwapKeepsMultiset(ts', j);
      ts' := Swap(ts', j);
      j := j - 1;
    }
    SinkStops(ts', j);
  }

  /** `Insert` stops where the pass stops. */
  lemma SinkStops(ts: seq<TeamStats>, j: nat)
    requires j < |ts|
    requires j == 0 || Compare(ts[j].Value(), ts[j - 1].Value()) != Less
    ensures Sink(RowsOf(ts), j) == RowsOf(ts)
  {
  }

  /** One step of `Insert`: exchanging the object at `j` with its left
      neighbour, which it outranks, leaves the same pass to finish. */
  lemma SinkObjects(ts: seq<TeamStats>, j: nat)
    requires 0 < j < |ts| && Distinct(ts)
    requires Compare(ts[j].Value(), ts[j - 1].Value()) == Less
    ensures Distinct(Swap(ts, j))
    ensures Sink(RowsOf(Swap(ts, j)), j - 1) == Sink(RowsOf(ts), j)
  {
    SwapObjects(ts, j);
  }

  /** The record at `j` moves left past every neighbour it strictly
      outranks. */
  function Sink(rows: seq<Stats>, j: nat): (r: seq<Stats>)
    requires j < |rows|
    ensures |r| == |rows|
    decreases j
  {
    if j > 0 && Compare(rows[j], rows[j - 1]) == Less then Sink(Swap(rows, j), j - 1) else rows
  }

  /** Insertion sort of the first `i` records; the rest stay where they are. */
  function SortPrefix(rows: seq<Stats>, i: nat): (r: seq<Stats>)
    requires i <= |rows|
    ensures |r| == |rows|
  {
    if i == 0 then rows else Sink(SortPrefix(rows, i - 1), i - 1)
  }

  /** Insertion sort by rank, as a reference for `sort_by`. */
  function InsertionSort(rows: seq<Stats>): seq<Stats> {
    SortPrefix(rows, |rows|)
  }

  /** Insertion sort by rank ranks the table, keeps its records and keeps
      tied records in their order: it is a stable sort. */
  lemma InsertionSortCorrect(rows: seq<Stats>)
    ensures Ranked(InsertionSort(rows))
    ensures Rearranged(InsertionSort(rows), rows)
  {
    SortPrefixSorts(rows, |rows|);
  }

  lemma {:induction false} SortPrefixSorts(rows: seq<Stats>, i: nat)
    requires i <= |rows|
    ensures forall a, b :: 0 <= a < b < i ==> RanksAtLeast(SortPrefix(rows, i)[a], SortPrefix(rows, i)[b])
    ensures Rearranged(SortPrefix(rows, i), rows)
  {
    if i > 0 {
      var r := SortPrefix(rows, i - 1);
      SortPrefixSorts(rows, i - 1);
      SinkStart(r, i - 1);
      SinkSorts(r, i - 1, i - 1);
      RearrangedTransitive(SortPrefix(rows, i), r, rows);
    }
  }

  /** A pass that starts from the insertion-sort invariant ends with the
      first `i + 1` places ranked, having moved only records that do not
      tie past each other. */
  lemma {:induction false} SinkSorts(rows: seq<Stats>, i: nat, j: nat)
    requires Sinking(rows, i, j)
    ensures forall a, b :: 0 <= a < b <= i ==> RanksAtLeast(Sink(rows, j)[a], Sink(rows, j)[b])
    ensures Rearranged(Sink(rows, j), rows)
    decreases j
  {
    if j > 0 && Compare(rows[j], rows[j - 1]) == Less {
      CompareMeaning(rows[j], rows[j - 1]);
      SinkStep(rows, i, j);
      SinkStart(rows, 0);
      SwapRearranges(rows, rows, j);
      SinkSorts(Swap(rows, j), i, j - 1);
      RearrangedTransitive(Sink(rows, j), Swap(rows, j), rows);
    } else {
      SinkDone(rows, i, j);
      SinkStart(rows, 0);
    }
  }

  /** The insertion-sort invariant while the record now at `j` moves left
      through the first `i + 1` places: apart from it, those places are
      ranked, and it outranks everything it has passed. */
  predicate Sinking(rows: seq<Stats>, i: nat, j: nat) {
    && j <= i < |rows|
    && (forall a, b :: 0 <= a < b <= i && a != j && b != j ==> RanksAtLeast(rows[a], rows[b]))
    && (forall b :: j < b <= i ==> Outranks(rows[j], rows[b]))
  }

  /** `r` holds the records of `s`, with tied records in the same order. */
  predicate Rearranged(r: seq<Stats>, s: seq<Stats>) {
    multiset(r) == multiset(s) && SameTiedOrder(r, s)
  }

  lemma SinkStart(rows: seq<Stats>, i: nat)
    requires i < |rows|
    requires forall a, b :: 0 <= a < b < i ==> RanksAtLeast(rows[a], rows[b])
    ensures Sinking(rows, i, i) && Rearranged(rows, rows)
  {
  }

  /** Moving the record at `j`, which outranks the one before it, one place
      left keeps the insertion-sort invariant. */
  lemma SinkStep(rows: seq<Stats>, i: nat, j: nat)
    requires Sinking(rows, i, j) && 0 < j && Outranks(rows[j], rows[j - 1])
    ensures Sinking(Swap(rows, j), i, j - 1)
  {
    var r := Swap(rows, j);
    forall a, b | 0 <= a < b <= i && a != j - 1 && b != j - 1 ensures RanksAtLeast(r[a], r[b]) {
      if b == j {
        assert r[b] == rows[j - 1] && r[a] == rows[a];
        assert RanksAtLeast(rows[a], rows[j - 1]);
      } else if a == j {
        assert r[a] == rows[j - 1] && r[b] == rows[b];
        assert RanksAtLeast(rows[j - 1], rows[b]);
      } else {
        assert r[a] == rows[a] && r[b] == rows[b];
      }
    }
  }

  /** Once the moving record meets one it does not outrank, the first
      `i + 1` places are ranked. */
  lemma SinkDone(rows: seq<Stats>, i: nat, j: nat)
    requires Sinking(rows, i, j) && (j == 0 || Compare(rows[j], rows[j - 1]) != Less)
    ensures forall a, b :: 0 <= a < b <= i ==> RanksAtLeast(rows[a], rows[b])
  {
    forall a, b | 0 <= a < b <= i ensures RanksAtLeast(rows[a], rows[b]) {
      if b == j && a < j - 1 {
        assert RanksAtLeast(rows[a], rows[j - 1]);
      }
    }
  }

  /** Exchanging two neighbours that do not tie keeps a rearrangement a
      rearrangement. */
  lemma SwapRearranges(r: seq<Stats>, s: seq<Stats>, j: nat)
    requires Rearranged(r, s) && 0 < j < |r| && Outranks(r[j], r[j - 1])
    ensures Rearranged(Swap(r, j), s)
  {
    SwapKeepsTiedOrder(r, j);
    SwapKeepsMultiset(r, j);
  }

  /** Exchanging two neighbouring objects keeps them distinct, keeps the
      same objects, and exchanges their values. */
  lemma SwapObjects(ts: seq<TeamStats>, j: nat)
    requires 0 < j < |ts| && Distinct(ts)
    ensures Distinct(Swap(ts, j))
    ensures RowsOf(Swap(ts, j)) == Swap(RowsOf(ts), j)
  {
    SwapKeepsDistinct(ts, j);
  }

  lemma RearrangedTransitive(r: seq<Stats>, s: seq<Stats>, t: seq<Stats>)
    requires Rearranged(r, s) && Rearranged(s, t)
    ensures Rearranged(r, t)
  {
  }

  /** Reordering keeps every record satisfying the `calc_stats` equations. */
  lemma PermutationKeepsConsistent(r: seq<Stats>, s: seq<Stats>)
    requires multiset(r) == multiset(s)
    requires forall k :: 0 <= k < |s| ==> Consistent(s[k])
    ensures forall k :: 0 <= k < |r| ==> Consistent(r[k])
  {
    forall k | 0 <= k < |r| ensures Consistent(r[k]) {
      assert r[k] in multiset(r);
      assert r[k] in s;
    }
  }

  lemma SwapKeepsDistinct(ts: seq<TeamStats>, j: nat)
    requires 0 < j < |ts| && Distinct(ts)
    ensures Distinct(Swap(ts, j))
  {
    var r := Swap(ts, j);
    forall a, b | 0 <= a < b < |r| ensures r[a] != r[b] {
      var pa := if a == j then j - 1 else if a == j - 1 then j else a;
      var pb := if b == j then j - 1 else if b == j - 1 then j else b;
      assert r[a] == ts[pa] && r[b] == ts[pb] && pa != pb;
    }
  }

  lemma SwapKeepsMultiset<T>(s: seq<T>, j: nat)
    requires 0 < j < |s|
    ensures multiset(Swap(s, j)) == multiset(s)
  {
    assert s == s[..j - 1] + [s[j - 1], s[j]] + s[j + 1..];
    assert Swap(s, j) == s[..j - 1] + [s[j], s[j - 1]] + s[j + 1..];
  }

  /** The records `create_table` makes: one per name, in order, all other
      fields zero, as the template has them. */
  function FreshRows(names: seq<string>): (rows: seq<Stats>)
  {
    seq(|names|, k requires 0 <= k < |names| => Template().(name := names[k]))
  }

  /** Each record of a fresh table carries its name, has played nothing and
      already satisfies the `calc_stats` equations. */
  lemma FreshRowsZero(names: seq<string>, k: nat)
    requires k < |names|
    ensures |FreshRows(names)| == |names|
    ensures var t := FreshRows(names)[k];
      && t.name == names[k] && Consistent(t)
      && t.played == t.wins == t.draws == t.defeats == t.points == 0
      && t.goalScored == t.goalAgainst == t.goalDifference == 0
  {
    var t := Template();
    assert FreshRows(names)[k] == t.(name := names[k]);
  }

  /** `create_table`: a new table with one fresh record per name. */
  method CreateTable(names: seq<string>) returns (table: Table)
    ensures fresh(table) && table.Valid()
    ensures forall k :: 0 <= k < |table.teams| ==> fresh(table.teams[k])
    ensures table.Rows() == FreshRows(names)
  {
    var template := Template();
    var current: seq<TeamStats> := [];
    for k := 0 to |names|
      invariant |current| == k && Distinct(current)
      invariant forall a :: 0 <= a < k ==> fresh(current[a])
      invariant forall a :: 0 <= a < k ==> current[a].Value() == template.(name := names[a])
    {
      var team := new TeamStats(template.(name := names[k]));
      current := current + [team];
    }
    table := new Table(current);
  }

  /** A table whose records have the values `rows`, each a new object. */
  method FromRows(rows: seq<Stats>) returns (table: Table)
    ensures fresh(table) && table.Valid()
    ensures forall k :: 0 <= k < |table.teams| ==> fresh(table.teams[k])
    ensures table.Rows() == rows
  {
    var current: seq<TeamStats> := [];
    for k := 0 to |rows|
      invariant |current| == k && Distinct(current)
      invariant forall a :: 0 <= a < k ==> fresh(current[a])
      invariant forall a :: 0 <= a < k ==> current[a].Value() == rows[a]
    {
      var team := new TeamStats(rows[k]);
      current := current + [team];
    }
    table := new Table(current);
  }
}
