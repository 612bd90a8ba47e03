/**
 * Worked seasons: one open match between two teams, the same match in the
 * preseason, and a match with a game whose points were never recorded.
 */
module Scenarios {
  import opened Wrappers
  import opened Season
  import opened Filtering
  import opened Grouping
  import opened Tallying
  import opened Ranking
  import opened Standings

  const TeamA := Competitor(1, "A", "Team A")
  const TeamB := Competitor(2, "B", "Team B")

  /** A concluded open match won by A: one concluded game with points [2, 1], final scores [2, 1]. */
  const Opener := Match(Concluded, OpenMatches, [TeamA, TeamB], [Game(Concluded, Some([2, 1]))], [Score(2), Score(1)], TeamA)

  /** The same match with the game's points missing. */
  const Unrecorded := Match(Concluded, OpenMatches, [TeamA, TeamB], [Game(Concluded, None)], [Score(2), Score(1)], TeamA)

  /** Default flags and a fixed exponent of 2. */
  const SquareExponent := Options(false, false, false, false, Some(2.0))

  /** The grouping of the open match: A then B, each holding the match once. */
  lemma OpenerGrouped()
    ensures GroupedOrder([Opener]) == ["A", "B"]
    ensures GroupedTeams([Opener]) == map["A" := Team(TeamA, [Opener], None), "B" := Team(TeamB, [Opener], None)]
  {
    var ms := [Opener];
    var vs := Visits(ms);
    assert ms[..0] == [] && [TeamA, TeamB][..1] == [TeamA] && [TeamA][..0] == [];
    assert VisitsOf([TeamA][..0], Opener) == [];
    assert VisitsOf([TeamA, TeamB][..1], Opener) == [(TeamA, Opener)];
    assert VisitsOf([TeamA, TeamB], Opener) == [(TeamA, Opener), (TeamB, Opener)];
    assert Visits(ms[..0]) == [];
    assert vs == [(TeamA, Opener), (TeamB, Opener)];
    var first: seq<Visit> := [(TeamA, Opener)];
    assert vs[..1] == first;
    assert first[..0] == [] && first[0].0 == TeamA && first[0].1 == Opener;
    assert FirstSeen(first) == [TeamA];
    assert FirstSeen(vs) == [TeamA, TeamB];
    assert Accumulators(first[..0]) == map[];
    assert [] + [Opener] == [Opener];
    assert Accumulators(first) == map[][TeamA.handle := Team(TeamA, [], None).(matches := [] + [Opener])];
    assert Accumulators(first) == map["A" := Team(TeamA, [Opener], None)];
  }

  /** What the open match adds to A's and to B's counters. */
  lemma OpenerMatchTallies()
    ensures Plays(Opener, 1) && Plays(Opener, 2) && WellFormedMatch(Opener)
    ensures MatchTally(Opener, 1) == Some(Tally(1, 0, 2, 1, 2, 1))
    ensures MatchTally(Opener, 2) == Some(Tally(0, 1, 1, 2, 1, 2))
  {
    assert Opener.competitors[0].id == 1 && Opener.competitors[1].id == 2;
    assert IndexOfId(Opener.competitors, 1) == 0;
    assert IndexOfId(Opener.competitors[1..], 2) == 0;
    assert IndexOfId(Opener.competitors, 2) == 1;
    PointsSumOne(Game(Concluded, Some([2, 1])), 0);
    PointsSumOne(Game(Concluded, Some([2, 1])), 1);
    var scores := ScoreValues(Opener.scores);
    assert scores == [2, 1] && scores[1..] == [1];
    assert Max(scores) == 2 && Min(scores) == 1;
  }

  /** A team with one match has that match's contribution as its counters. */
  lemma SingleMatch(m: Match, id: int, d: Tally)
    requires WellFormedMatch(m) && Plays(m, id) && MatchTally(m, id) == Some(d)
    ensures Playable(id, [m]) && Accumulate(Zero, id, [m]) == Some(d)
  {
    assert [m][..0] == [] && [m][0] == m;
    assert Plus(Zero, d) == d;
  }

  /** A season of one well-formed match between two handles is well formed. */
  lemma OneMatchSeason(m: Match)
    requires WellFormedMatch(m) && m.competitors[0].handle != m.competitors[1].handle
    ensures WellFormedSeason([m])
  {
    forall i, j, a, b |
      0 <= i < 1 && 0 <= j < 1 && 0 <= a < |[m][i].competitors| && 0 <= b < |[m][j].competitors| &&
      [m][i].competitors[a].handle == [m][j].competitors[b].handle
      ensures [m][i].competitors[a].id == [m][j].competitors[b].id
    {
      assert a == b;
    }
  }

  /** Tallying two accumulators that both have points everywhere sets both. */
  lemma TallyTwo(teams: map<string, Team>, h1: string, h2: string)
    requires Tallyable(teams, [h1, h2])
    requires !AnyUnscored(teams[h1].matches) && !AnyUnscored(teams[h2].matches)
    ensures Tallied(teams, [h1, h2]) == Ok(teams[h1 := WithTally(teams[h1])][h2 := WithTally(teams[h2])])
  {
    assert [h1, h2][..1] == [h1] && [h1][..0] == [];
    assert Tallyable(teams, [h1]) && Tallyable(teams, []);
    assert Tallied(teams, []) == Ok(teams);
    assert Tallied(teams, [h1]) == Ok(teams[h1 := WithTally(teams[h1])]);
  }

  /** Two tallied accumulators already in order stay in that order. */
  lemma SortTwo(a: Team, b: Team)
    requires a.pythagorean.Some? && b.pythagorean.Some? && Differential(a) >= Differential(b)
    ensures SortByDifferential([a, b]) == [a, b]
  {
    assert [a, b][..1] == [a] && [a][..0] == [];
    assert SortByDifferential([a]) == [a];
    assert [a][1..] == [];
    assert Insert(b, [a]) == [a] + Insert(b, []);
  }

  /** An accumulator of one fully scored match gets that match's contribution as its counters. */
  lemma TallySingle(team: Team, m: Match, d: Tally)
    requires team.matches == [m] && team.pythagorean == None
    requires WellFormedMatch(m) && Plays(m, team.info.id) && MatchTally(m, team.info.id) == Some(d)
    ensures PlayableTeam(team) && !AnyUnscored(team.matches)
    ensures WithTally(team) == team.(pythagorean := Some(d))
  {
    SingleMatch(m, team.info.id, d);
    AccumulateFails(Zero, team.info.id, [m]);
  }

  /** Each of the two accumulators of the open match, tallied on its own. */
  lemma OpenerTeams()
    ensures var teams := GroupedTeams([Opener]);
      && Tallyable(teams, ["A", "B"])
      && !AnyUnscored(teams["A"].matches) && !AnyUnscored(teams["B"].matches)
      && WithTally(teams["A"]) == Team(TeamA, [Opener], Some(Tally(1, 0, 2, 1, 2, 1)))
      && WithTally(teams["B"]) == Team(TeamB, [Opener], Some(Tally(0, 1, 1, 2, 1, 2)))
  {
    OpenerGrouped();
    OpenerMatchTallies();
    var teams := GroupedTeams([Opener]);
    TallySingle(teams["A"], Opener, Tally(1, 0, 2, 1, 2, 1));
    TallySingle(teams["B"], Opener, Tally(0, 1, 1, 2, 1, 2));
  }

  /** The open match sets A's counters to one win and B's to one loss. */
  lemma OpenerTallied()
    ensures WellFormedSeason([Opener])
    ensures TallyResult([Opener]) == Ok(GroupedTeams([Opener])
      ["A" := Team(TeamA, [Opener], Some(Tally(1, 0, 2, 1, 2, 1)))]
      ["B" := Team(TeamB, [Opener], Some(Tally(0, 1, 1, 2, 1, 2)))])
  {
    OpenerGrouped();
    OpenerMatchTallies();
    OneMatchSeason(Opener);
    OpenerTeams();
    TallyTwo(GroupedTeams([Opener]), "A", "B");
  }

  /** The open match ranks A, one win up, before B, one win down. */
  lemma OpenerRanked()
    ensures WellFormedSeason([Opener])
    ensures RankedTeams([Opener]) == Ok([
      Team(TeamA, [Opener], Some(Tally(1, 0, 2, 1, 2, 1))),
      Team(TeamB, [Opener], Some(Tally(0, 1, 1, 2, 1, 2)))])
  {
    var a := Team(TeamA, [Opener], Some(Tally(1, 0, 2, 1, 2, 1)));
    var b := Team(TeamB, [Opener], Some(Tally(0, 1, 1, 2, 1, 2)));
    OpenerGrouped();
    OpenerTallied();
    var updated := GroupedTeams([Opener])["A" := a]["B" := b];
    var roster := Roster(updated, ["A", "B"]);
    assert roster[0] == a && roster[1] == b;
    assert roster == [a, b];
    SortTwo(a, b);
  }

  /**
   * The open match gives two rows, A first: A won the match 2-1 in games
   * and 2-1 in points, B the reverse, with the expectation terms
   * 2^2 / (2^2 + 1^2) and 1^2 / (1^2 + 2^2) over one match each.
   */
  lemma OneOpenMatch()
    ensures EligibleMatches([Stage("open", [Opener])], SquareExponent) == [Opener]
    ensures WellFormedSeason([Opener])
    ensures var r := Standings.Standings([Stage("open", [Opener])], SquareExponent);
      && r.Ok? && |r.value| == 2
      && r.value[0].name == "Team A" && r.value[1].name == "Team B"
      && r.value[0].totalMatches == 1 && r.value[0].matchesWon == 1 && r.value[0].matchesLost == 0
      && r.value[0].gamesWon == 2 && r.value[0].gamesLost == 1
      && r.value[0].pointsEarned == 2 && r.value[0].pointsAllowed == 1
      && r.value[0].expectedPercentage == Expectation(2, 1, Fixed(Some(2.0)))
      && r.value[0].expectedWins == ExpectedWins(Expectation(2, 1, Fixed(Some(2.0))), 1)
      && r.value[1].totalMatches == 1 && r.value[1].matchesWon == 0 && r.value[1].matchesLost == 1
      && r.value[1].gamesWon == 1 && r.value[1].gamesLost == 2
      && r.value[1].pointsEarned == 1 && r.value[1].pointsAllowed == 2
      && r.value[1].expectedPercentage == Expectation(1, 2, Fixed(Some(2.0)))
  {
    var stages := [Stage("open", [Opener])];
    assert stages[1..] == [] && [Opener][1..] == [];
    assert "open" != Preseason by { assert |"open"| != |Preseason|; }
    assert WithoutPreseason(stages) == [stages[0]] + WithoutPreseason([]);
    assert Flatten(stages) == [Opener];
    assert IsEligible(Opener, false);
    assert KeepEligible([Opener], false) == [Opener] + KeepEligible([], false);
    assert EligibleMatches(stages, SquareExponent) == [Opener];
    OpenerRanked();
  }

  /** With the preseason left out, a season played only in the preseason gives no rows. */
  lemma PreseasonOnly()
    ensures EligibleMatches([Stage("preseason", [Opener])], SquareExponent) == []
    ensures Standings.Standings([Stage("preseason", [Opener])], SquareExponent) == Ok([])
  {
    assert WithoutPreseason([Stage("preseason", [Opener])]) == [];
    assert Visits([]) == [] && FirstSeen([]) == [];
    assert TallyResult([]) == Ok(map[]);
  }

  /** A counted game without points stops the computation. */
  lemma MissingGamePoints()
    ensures EligibleMatches([Stage("open", [Unrecorded])], SquareExponent) == [Unrecorded]
    ensures WellFormedSeason([Unrecorded])
    ensures Standings.Standings([Stage("open", [Unrecorded])], SquareExponent) == Err(MissingPoints)
  {
    var stages := [Stage("open", [Unrecorded])];
    assert stages[1..] == [] && stages[0].slug == "open";
    assert "open" != Preseason by { assert |"open"| != |Preseason|; }
    assert WithoutPreseason(stages) == [stages[0]] + WithoutPreseason([]);
    assert SelectStages(stages, false) == stages;
    assert Flatten(stages) == [Unrecorded];
    assert IsEligible(Unrecorded, false);
    assert [Unrecorded][1..] == [];
    assert KeepEligible([Unrecorded], false) == [Unrecorded] + KeepEligible([], false);
    assert EligibleMatches(stages, SquareExponent) == [Unrecorded];
    assert Unrecorded.games[0].points.None?;
    assert Unrecorded in EligibleMatches(stages, SquareExponent) && Unscored(Unrecorded);
    StandingsFails(stages, SquareExponent);
    var r := Standings.Standings(stages, SquareExponent);
    assert r.Err? && r.error.MissingPoints?;
  }
}
