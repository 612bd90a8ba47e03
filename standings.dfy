/**
 * `getTeams` (src/calculate.js:14-150) end to end: filter, group, tally,
 * rank and shape one row per team. `Standings` states the result as one
 * function of the stages and the options; `GetTeams` computes it with the
 * grouping and tally loops.
 */
module Standings {
  import opened Wrappers
  import opened Season
  import opened Filtering
  import opened Grouping
  import opened Tallying
  import opened Ranking

  /**
   * The exponent of the expectation formula, as a term: the fixed
   * `options.exponent`, or `getExponent(pointsFor, pointsAgainst,
   * totalMatches)` (src/calculate.js:3-5), whose floating-point value is not
   * modelled.
   */
  datatype Exponent =
    | Fixed(value: Option<real>)
    | Recalculated(pointsFor: int, pointsAgainst: int, totalMatches: int)

  /** The term `pythagoreanExpectation(pointsFor, pointsAgainst, exponent)` (src/calculate.js:7-12). */
  datatype Expectation = Expectation(pointsFor: int, pointsAgainst: int, exponent: Exponent)

  /** The term `expectedPercentage * totalMatches` (src/calculate.js:135). */
  datatype ExpectedWins = ExpectedWins(percentage: Expectation, totalMatches: int)

  /** One output row (src/calculate.js:137-149). */
  datatype TeamResult = TeamResult(
    team: Team,
    name: string,
    totalMatches: int,
    matchesWon: int,
    matchesLost: int,
    expectedPercentage: Expectation,
    expectedWins: ExpectedWins,
    gamesWon: int,
    gamesLost: int,
    pointsEarned: int,
    pointsAllowed: int)

  /**
   * The expectation of a team with counters `t` (src/calculate.js:114-133):
   * points or games as the pair, and the fixed or the recalculated exponent.
   */
  function ExpectationOf(t: Tally, options: Options): (e: Expectation)
    ensures options.usePoints ==> e.pointsFor == t.pointsEarned && e.pointsAgainst == t.pointsAllowed
    ensures !options.usePoints ==> e.pointsFor == t.gamesWon && e.pointsAgainst == t.gamesLost
    ensures e.exponent.Fixed? <==> !options.recalculateExponent
    ensures e.exponent.Fixed? ==> e.exponent.value == options.exponent
    ensures e.exponent.Recalculated? ==>
      e.exponent == Recalculated(e.pointsFor, e.pointsAgainst, t.matchesWon + t.matchesLost)
  {
    var totalMatches := t.matchesWon + t.matchesLost;
    if options.usePoints then
      var exponent := if options.recalculateExponent then Recalculated(t.pointsEarned, t.pointsAllowed, totalMatches) else Fixed(options.exponent);
      Expectation(t.pointsEarned, t.pointsAllowed, exponent)
    else
      var exponent := if options.recalculateExponent then Recalculated(t.gamesWon, t.gamesLost, totalMatches) else Fixed(options.exponent);
      Expectation(t.gamesWon, t.gamesLost, exponent)
  }

  /** The row of one tallied accumulator (src/calculate.js:99-149). */
  function Row(team: Team, options: Options): (r: TeamResult)
    requires team.pythagorean.Some?
    ensures r.team == team && r.name == team.info.name
    ensures var t := team.pythagorean.value;
      && r.matchesWon == t.matchesWon && r.matchesLost == t.matchesLost
      && r.gamesWon == t.gamesWon && r.gamesLost == t.gamesLost
      && r.pointsEarned == t.pointsEarned && r.pointsAllowed == t.pointsAllowed
      && r.expectedPercentage == ExpectationOf(t, options)
    ensures r.totalMatches == r.matchesWon + r.matchesLost
    ensures r.expectedWins == ExpectedWins(r.expectedPercentage, r.totalMatches)
  {
    var t := team.pythagorean.value;
    var totalMatches := t.matchesWon + t.matchesLost;
    var expectedPercentage := ExpectationOf(t, options);
    TeamResult(team, team.info.name, totalMatches, t.matchesWon, t.matchesLost,
      expectedPercentage, ExpectedWins(expectedPercentage, totalMatches),
      t.gamesWon, t.gamesLost, t.pointsEarned, t.pointsAllowed)
  }

  /** The output `map` over the ranked accumulators. */
  function Rows(ts: seq<Team>, options: Options): (r: seq<TeamResult>)
    requires AllTallied(ts)
    ensures |r| == |ts| && forall k :: 0 <= k < |r| ==> r[k].team == ts[k] && r[k] == Row(ts[k], options)
  {
    seq(|ts|, k requires 0 <= k < |ts| => Row(ts[k], options))
  }

  /** The teams the rows are about. */
  function TeamsOf(rows: seq<TeamResult>): seq<Team>
  {
    seq(|rows|, k requires 0 <= k < |rows| => rows[k].team)
  }

  /** `Object.values(teams)`: the accumulators in key order. */
  function Roster(teams: map<string, Team>, order: seq<string>): (r: seq<Team>)
    requires forall h :: h in order ==> h in teams
    ensures |r| == |order| && forall k :: 0 <= k < |r| ==> r[k] == teams[order[k]]
  {
    seq(|order|, k requires 0 <= k < |order| => teams[order[k]])
  }

  /** The keys of the accumulators of the matches `ms`, in insertion order. */
  function GroupedOrder(ms: seq<Match>): seq<string>
  {
    HandlesOf(FirstSeen(Visits(ms)))
  }

  /** The accumulators of the matches `ms`, before the tally. */
  function GroupedTeams(ms: seq<Match>): map<string, Team>
  {
    Accumulators(Visits(ms))
  }

  /** The accumulators of the matches `ms` after the tally. */
  function TallyResult(ms: seq<Match>): Result<map<string, Team>, Error>
    requires WellFormedSeason(ms)
  {
    GroupedTallyable(ms);
    Tallied(GroupedTeams(ms), GroupedOrder(ms))
  }

  /** The tallied accumulators of the matches `ms`, ranked (src/calculate.js:96-98). */
  function RankedTeams(ms: seq<Match>): (r: Result<seq<Team>, Error>)
    requires WellFormedSeason(ms)
    ensures r.Ok? ==> AllTallied(r.value) && |r.value| == |GroupedOrder(ms)|
  {
    match TallyResult(ms)
    case Err(e) => Err(e)
    case Ok(updated) =>
      TalliedRoster(ms);
      Ok(SortByDifferential(Roster(updated, GroupedOrder(ms))))
  }

  /** The rows for the counted matches `ms`. */
  function StandingsOf(ms: seq<Match>, options: Options): (r: Result<seq<TeamResult>, Error>)
    requires WellFormedSeason(ms)
    ensures r.Ok? ==> |r.value| == |GroupedOrder(ms)|
  {
    match RankedTeams(ms)
    case Err(e) => Err(e)
    case Ok(ranked) => Ok(Rows(ranked, options))
  }

  /**
   * The result of `getTeams(allStages, options)`: the rows of the tallied
   * accumulators of the eligible matches, ranked by win differential, or the
   * error the first game without points raises.
   */
  function Standings(allStages: seq<Stage>, options: Options): (r: Result<seq<TeamResult>, Error>)
    requires WellFormedSeason(EligibleMatches(allStages, options))
    ensures r.Ok? ==> |r.value| == |GroupedOrder(EligibleMatches(allStages, options))|
  {
    StandingsOf(EligibleMatches(allStages, options), options)
  }

  /**
   * `getTeams` (src/calculate.js:14-150): the filters, then the grouping and
   * tally loops, then the ranking and the rows.
   */
  method GetTeams(allStages: seq<Stage>, options: Options) returns (r: Result<seq<TeamResult>, Error>)
    requires WellFormedSeason(EligibleMatches(allStages, options))
    ensures r == Standings(allStages, options)
  {
    var matches := EligibleMatches(allStages, options);
    var teams, order := GroupByHandle(matches);
    FirstSeenCovers(Visits(matches));
    GroupedTallyable(matches);
    var tallied := TallyTeams(teams, order);
    if tallied.Err? {
      return Err(tallied.error);
    }
    TalliedRoster(matches);
    var ranked := SortByDifferential(Roster(tallied.value, order));
    return Ok(Rows(ranked, options));
  }

  /** After a successful tally every accumulator has its counters, under the same keys. */
  lemma TalliedRoster(ms: seq<Match>)
    requires WellFormedSeason(ms)
    ensures TallyResult(ms).Ok? ==>
      && (forall h :: h in GroupedOrder(ms) ==> h in TallyResult(ms).value)
      && AllTallied(Roster(TallyResult(ms).value, GroupedOrder(ms)))
  {
    var vs := Visits(ms);
    var teams := GroupedTeams(ms);
    var order := GroupedOrder(ms);
    GroupedTallyable(ms);
    if TallyResult(ms).Ok? {
      var updated := TallyResult(ms).value;
      TalliedValues(teams, order);
      TalliedFails(teams, order);
      AccumulatorKeys(vs);
      forall k | 0 <= k < |order|
        ensures updated[order[k]].pythagorean.Some?
      {
        var h := order[k];
        assert h in order;
        var team := teams[h];
        AccumulateFails(StartOf(team), team.info.id, team.matches);
      }
    }
  }

  /** Competitors of the same matches that share a handle share an id. */
  lemma SameHandleSameId(ms: seq<Match>, m1: Match, c1: Competitor, m2: Match, c2: Competitor)
    requires ConsistentIds(ms) && m1 in ms && m2 in ms
    requires c1 in m1.competitors && c2 in m2.competitors && c1.handle == c2.handle
    ensures c1.id == c2.id
  {
    var i :| 0 <= i < |ms| && ms[i] == m1;
    var j :| 0 <= j < |ms| && ms[j] == m2;
    var a :| 0 <= a < |m1.competitors| && m1.competitors[a] == c1;
    var b :| 0 <= b < |m2.competitors| && m2.competitors[b] == c2;
    assert ms[i].competitors[a].handle == ms[j].competitors[b].handle;
  }

  /** Matches that each come with a visit by a competitor sharing `c`'s handle all list `c`'s id. */
  lemma VisitedPlayable(ms: seq<Match>, vs: seq<Visit>, c: Competitor, first: Visit, matches: seq<Match>)
    requires WellFormedSeason(ms)
    requires forall v :: v in vs ==> v.1 in ms && v.0 in v.1.competitors
    requires first in vs && first.0 == c
    requires forall m :: m in matches ==> exists v :: v in vs && v.0.handle == c.handle && v.1 == m
    ensures Playable(c.id, matches)
  {
    forall j | 0 <= j < |matches|
      ensures WellFormedMatch(matches[j]) && Plays(matches[j], c.id)
    {
      var m := matches[j];
      assert m in matches;
      var v :| v in vs && v.0.handle == c.handle && v.1 == m;
      SameHandleSameId(ms, first.1, c, m, v.0);
      var mi :| 0 <= mi < |ms| && ms[mi] == m;
      var b :| 0 <= b < |m.competitors| && m.competitors[b] == v.0;
    }
  }

  /**
   * In a well-formed season every accumulator the grouping builds can be
   * tallied: each of its matches is well formed and lists its team's id.
   */
  lemma GroupedTallyable(ms: seq<Match>)
    requires WellFormedSeason(ms)
    ensures Tallyable(GroupedTeams(ms), GroupedOrder(ms))
  {
    var vs := Visits(ms);
    var teams := Accumulators(vs);
    var firsts := FirstSeen(vs);
    AccumulatorKeys(vs);
    AccumulatorContents(vs);
    VisitsMembers(ms);
    FirstSeenIsFirst(vs);
    PushedToFromAll(vs);
    forall h | h in HandlesOf(firsts)
      ensures h in teams && PlayableTeam(teams[h])
    {
      var i :| 0 <= i < |firsts| && HandlesOf(firsts)[i] == h;
      var c := firsts[i];
      assert c in firsts && c.handle == h;
      var k :| 0 <= k < |vs| && vs[k].0 == c && forall j :: 0 <= j < k ==> vs[j].0.handle != c.handle;
      VisitedPlayable(ms, vs, c, vs[k], PushedTo(h, vs));
    }
  }

  lemma PushedToFromAll(vs: seq<Visit>)
    ensures forall h, m :: m in PushedTo(h, vs) ==> exists v :: v in vs && v.0.handle == h && v.1 == m
  {
    forall h: string { PushedToFrom(h, vs); }
  }

  /** Every visit puts its match into the list of its competitor's handle. */
  lemma {:induction false} PushedToHas(vs: seq<Visit>, v: Visit)
    requires v in vs
    ensures v.1 in PushedTo(v.0.handle, vs)
  {
    var n := |vs| - 1;
    if vs[n] != v {
      assert v in vs[..n] by {
        var i :| 0 <= i < |vs| && vs[i] == v;
        assert vs[..n][i] == v;
      }
      PushedToHas(vs[..n], v);
    }
  }

  /** A handle is grouped exactly when it belongs to a competitor of an eligible match. */
  lemma GroupedIffAppears(ms: seq<Match>, h: string)
    ensures h in HandlesOf(FirstSeen(Visits(ms))) <==> Appears(h, ms)
  {
    var vs := Visits(ms);
    FirstSeenCovers(vs);
    VisitsMembers(ms);
    if Appears(h, ms) {
      var m :| m in ms && h in HandlesOf(m.competitors);
      var a :| 0 <= a < |m.competitors| && HandlesOf(m.competitors)[a] == h;
      assert (m.competitors[a], m) in vs;
    }
    if h in HandlesOf(FirstSeen(vs)) {
      var v :| v in vs && v.0.handle == h;
      var a :| 0 <= a < |v.1.competitors| && v.1.competitors[a] == v.0;
      assert HandlesOf(v.1.competitors)[a] == h;
    }
  }

  /**
   * The accumulator `t` holds the matches the visits `vs` pushed onto its
   * handle, and its counters, once set, count each of them once, credit the
   * games by the max/min-by-winner rule and add up the points the team
   * earned and allowed in them.
   */
  predicate Counted(t: Team, vs: seq<Visit>)
  {
    && t.matches == PushedTo(t.info.handle, vs)
    && (t.pythagorean.Some? ==>
          && t.pythagorean.value.matchesWon == Wins(t.info.id, t.matches)
          && t.pythagorean.value.matchesLost == |t.matches| - Wins(t.info.id, t.matches)
          && Playable(t.info.id, t.matches) && !AnyUnscored(t.matches)
          && t.pythagorean.value.gamesWon == GamesOver(t.info.id, t.matches, true)
          && t.pythagorean.value.gamesLost == GamesOver(t.info.id, t.matches, false)
          && t.pythagorean.value.pointsEarned == PointsOver(t.info.id, t.matches, true)
          && t.pythagorean.value.pointsAllowed == PointsOver(t.info.id, t.matches, false))
  }

  /** After a successful tally every key still holds the accumulator of its own handle. */
  lemma RosterHandles(ms: seq<Match>)
    requires WellFormedSeason(ms)
    ensures TallyResult(ms).Ok? ==>
      && (forall h :: h in GroupedOrder(ms) ==> h in TallyResult(ms).value)
      && forall k :: 0 <= k < |GroupedOrder(ms)| ==>
           TallyResult(ms).value[GroupedOrder(ms)[k]].info.handle == GroupedOrder(ms)[k]
  {
    var teams := GroupedTeams(ms);
    var order := GroupedOrder(ms);
    GroupedTallyable(ms);
    TalliedRoster(ms);
    AccumulatorHandles(Visits(ms));
    if TallyResult(ms).Ok? {
      TalliedValues(teams, order);
      forall k | 0 <= k < |order|
        ensures TallyResult(ms).value[order[k]].info.handle == order[k]
      {
        assert order[k] in order;
      }
    }
  }

  /** Every accumulator after a successful tally is counted from its own matches, under its own handle. */
  lemma RosterCounted(ms: seq<Match>)
    requires WellFormedSeason(ms)
    ensures TallyResult(ms).Ok? ==>
      && (forall h :: h in GroupedOrder(ms) ==> h in TallyResult(ms).value)
      && forall k :: 0 <= k < |GroupedOrder(ms)| ==>
           Counted(TallyResult(ms).value[GroupedOrder(ms)[k]], Visits(ms)) &&
           TallyResult(ms).value[GroupedOrder(ms)[k]].info.handle == GroupedOrder(ms)[k]
  {
    var vs := Visits(ms);
    var teams := GroupedTeams(ms);
    var order := GroupedOrder(ms);
    GroupedTallyable(ms);
    TalliedRoster(ms);
    if TallyResult(ms).Ok? {
      var updated := TallyResult(ms).value;
      TalliedValues(teams, order);
      forall k | 0 <= k < |order|
        ensures Counted(updated[order[k]], vs) && updated[order[k]].info.handle == order[k]
      {
        assert order[k] in order;
        GroupedTeamCounted(ms, k);
      }
    }
  }

  /** One accumulator of the grouping, once tallied, is counted from its own matches. */
  lemma GroupedTeamCounted(ms: seq<Match>, k: nat)
    requires WellFormedSeason(ms) && k < |GroupedOrder(ms)|
    ensures Tallyable(GroupedTeams(ms), GroupedOrder(ms))
    ensures var team := GroupedTeams(ms)[GroupedOrder(ms)[k]];
      Counted(WithTally(team), Visits(ms)) && team.info.handle == GroupedOrder(ms)[k]
  {
    var vs := Visits(ms);
    var firsts := FirstSeen(vs);
    var h := GroupedOrder(ms)[k];
    GroupedTallyable(ms);
    assert h in GroupedOrder(ms);
    AccumulatorContents(vs);
    assert firsts[k] in firsts && firsts[k].handle == h;
    var team := GroupedTeams(ms)[h];
    assert team.info == firsts[k] && team.pythagorean == None && team.matches == PushedTo(h, vs);
    AccumulateCounts(Zero, team.info.id, team.matches);
    AccumulatePoints(Zero, team.info.id, team.matches);
    AccumulateGames(Zero, team.info.id, team.matches);
  }

  /** What holds of every accumulator holds of every ranked one. */
  lemma SortedFrom(ts: seq<Team>, vs: seq<Visit>)
    requires AllTallied(ts) && forall k :: 0 <= k < |ts| ==> Counted(ts[k], vs)
    ensures forall k :: 0 <= k < |SortByDifferential(ts)| ==> Counted(SortByDifferential(ts)[k], vs)
  {
    var sorted := SortByDifferential(ts);
    SortPermutation(ts);
    forall k | 0 <= k < |sorted| ensures Counted(sorted[k], vs) {
      assert sorted[k] in multiset(ts);
      var j :| 0 <= j < |ts| && ts[j] == sorted[k];
    }
  }


  /** An accumulator with an unscored match got it from an unscored match of `ms`. */
  lemma UnscoredFromMatch(ms: seq<Match>, h: string)
    requires h in GroupedTeams(ms) && AnyUnscored(GroupedTeams(ms)[h].matches)
    ensures exists m :: m in ms && Unscored(m)
  {
    var vs := Visits(ms);
    var teams := GroupedTeams(ms);
    AccumulatorContents(vs);
    var k :| 0 <= k < |teams[h].matches| && Unscored(teams[h].matches[k]);
    var m := teams[h].matches[k];
    assert m in PushedTo(h, vs);
    PushedToFrom(h, vs);
    var v :| v in vs && v.0.handle == h && v.1 == m;
    VisitsMembers(ms);
  }

  /** An unscored match of `ms` makes the accumulator of its first competitor unscored. */
  lemma UnscoredToTeam(ms: seq<Match>, m: Match)
    requires WellFormedSeason(ms) && m in ms && Unscored(m)
    ensures exists h :: h in GroupedOrder(ms) && h in GroupedTeams(ms) && AnyUnscored(GroupedTeams(ms)[h].matches)
  {
    var vs := Visits(ms);
    var teams := GroupedTeams(ms);
    var i :| 0 <= i < |ms| && ms[i] == m;
    var c := m.competitors[0];
    VisitsMembers(ms);
    assert (c, m) in vs;
    FirstSeenCovers(vs);
    AccumulatorKeys(vs);
    AccumulatorContents(vs);
    assert c.handle in GroupedOrder(ms);
    PushedToHas(vs, (c, m));
    var k :| 0 <= k < |teams[c.handle].matches| && teams[c.handle].matches[k] == m;
    assert AnyUnscored(teams[c.handle].matches);
  }

  /** Ranking fails exactly when an eligible match has a game without points. */
  lemma RankedFails(ms: seq<Match>)
    requires WellFormedSeason(ms)
    ensures RankedTeams(ms).Err? <==> exists m :: m in ms && Unscored(m)
  {
    GroupedTallyable(ms);
    TalliedFails(GroupedTeams(ms), GroupedOrder(ms));
    if h :| h in GroupedOrder(ms) && AnyUnscored(GroupedTeams(ms)[h].matches) {
      UnscoredFromMatch(ms, h);
    }
    if m :| m in ms && Unscored(m) {
      UnscoredToTeam(ms, m);
    }
  }

  /** The ranked accumulators never list one after another with a smaller differential. */
  lemma RankedOrder(ms: seq<Match>)
    requires WellFormedSeason(ms)
    ensures RankedTeams(ms).Ok? ==> Ranked(RankedTeams(ms).value)
  {
    if RankedTeams(ms).Ok? {
      TalliedRoster(ms);
      SortRanked(Roster(TallyResult(ms).value, GroupedOrder(ms)));
    }
  }

  /**
   * The ranked accumulators are those of the tally, rearranged, and those
   * with one differential keep the order in which their teams first
   * appeared.
   */
  lemma RankedPermutation(ms: seq<Match>, d: int)
    requires WellFormedSeason(ms)
    ensures RankedTeams(ms).Ok? ==>
      && TallyResult(ms).Ok?
      && (forall h :: h in GroupedOrder(ms) ==> h in TallyResult(ms).value)
      && AllTallied(Roster(TallyResult(ms).value, GroupedOrder(ms)))
      && multiset(RankedTeams(ms).value) == multiset(Roster(TallyResult(ms).value, GroupedOrder(ms)))
      && WithDifferential(RankedTeams(ms).value, d) == WithDifferential(Roster(TallyResult(ms).value, GroupedOrder(ms)), d)
  {
    if RankedTeams(ms).Ok? {
      TalliedRoster(ms);
      SortPermutation(Roster(TallyResult(ms).value, GroupedOrder(ms)));
      SortStable(Roster(TallyResult(ms).value, GroupedOrder(ms)), d);
    }
  }

  /** Every ranked accumulator is counted from the matches pushed onto its handle. */
  lemma RankedCounted(ms: seq<Match>)
    requires WellFormedSeason(ms)
    ensures RankedTeams(ms).Ok? ==>
      forall k :: 0 <= k < |RankedTeams(ms).value| ==> Counted(RankedTeams(ms).value[k], Visits(ms))
  {
    if RankedTeams(ms).Ok? {
      TalliedRoster(ms);
      RosterCounted(ms);
      var roster := Roster(TallyResult(ms).value, GroupedOrder(ms));
      SortedFrom(roster, Visits(ms));
    }
  }

  /** A handle has a ranked accumulator exactly when it belongs to a competitor of a match of `ms`. */
  lemma RankedCoverage(ms: seq<Match>, h: string)
    requires WellFormedSeason(ms)
    ensures RankedTeams(ms).Ok? ==>
      ((exists k :: 0 <= k < |RankedTeams(ms).value| && RankedTeams(ms).value[k].info.handle == h) <==> Appears(h, ms))
  {
    GroupedIffAppears(ms, h);
    if RankedTeams(ms).Ok? {
      var ranked := RankedTeams(ms).value;
      if k :| 0 <= k < |ranked| && ranked[k].info.handle == h {
        RankedHandleGrouped(ms, k);
      }
      if h in GroupedOrder(ms) {
        GroupedHandleRanked(ms, h);
      }
    }
  }

  lemma RankedHandleGrouped(ms: seq<Match>, k: nat)
    requires WellFormedSeason(ms) && RankedTeams(ms).Ok? && k < |RankedTeams(ms).value|
    ensures RankedTeams(ms).value[k].info.handle in GroupedOrder(ms)
  {
    var order := GroupedOrder(ms);
    TalliedRoster(ms);
    RosterHandles(ms);
    var roster := Roster(TallyResult(ms).value, order);
    var ranked := RankedTeams(ms).value;
    assert ranked == SortByDifferential(roster);
    SortPermutation(roster);
    assert ranked[k] in multiset(roster);
    var j :| 0 <= j < |roster| && roster[j] == ranked[k];
    assert roster[j].info.handle == order[j];
  }

  lemma GroupedHandleRanked(ms: seq<Match>, h: string)
    requires WellFormedSeason(ms) && RankedTeams(ms).Ok? && h in GroupedOrder(ms)
    ensures exists k :: 0 <= k < |RankedTeams(ms).value| && RankedTeams(ms).value[k].info.handle == h
  {
    var order := GroupedOrder(ms);
    TalliedRoster(ms);
    RosterHandles(ms);
    var roster := Roster(TallyResult(ms).value, order);
    var ranked := RankedTeams(ms).value;
    assert ranked == SortByDifferential(roster);
    SortPermutation(roster);
    var j :| 0 <= j < |order| && order[j] == h;
    assert roster[j].info.handle == h;
    assert roster[j] in multiset(ranked);
    var k :| 0 <= k < |ranked| && ranked[k] == roster[j];
  }

  /** `getTeams` fails exactly when an eligible match has a game without points. */
  lemma StandingsFails(allStages: seq<Stage>, options: Options)
    requires WellFormedSeason(EligibleMatches(allStages, options))
    ensures Standings(allStages, options).Err? <==>
      exists m :: m in EligibleMatches(allStages, options) && Unscored(m)
  {
    RankedFails(EligibleMatches(allStages, options));
  }

  /**
   * The rows are those of the ranked accumulators, in order, so no row
   * has a larger win differential than a row before it.
   */
  lemma StandingsRanked(allStages: seq<Stage>, options: Options)
    requires WellFormedSeason(EligibleMatches(allStages, options))
    ensures var ms := EligibleMatches(allStages, options);
      Standings(allStages, options).Ok? ==>
        var rows := Standings(allStages, options).value;
        && RankedTeams(ms).Ok? && TeamsOf(rows) == RankedTeams(ms).value
        && forall i, j :: 0 <= i < j < |rows| ==>
             rows[i].matchesWon - rows[i].matchesLost >= rows[j].matchesWon - rows[j].matchesLost
  {
    var ms := EligibleMatches(allStages, options);
    RankedOrder(ms);
    if Standings(allStages, options).Ok? {
      var rows := Standings(allStages, options).value;
      var ranked := RankedTeams(ms).value;
      assert rows == Rows(ranked, options);
      forall i, j | 0 <= i < j < |rows|
        ensures rows[i].matchesWon - rows[i].matchesLost >= rows[j].matchesWon - rows[j].matchesLost
      {
        assert Differential(ranked[i]) >= Differential(ranked[j]);
      }
    }
  }

  /**
   * Every row counts each of its team's matches once, as won exactly when
   * the team is the recorded winner; its team's matches are those the
   * grouping pushed onto its handle, which are the eligible matches it
   * appears in, in order, when no match lists a handle twice.
   */
  lemma StandingsCounts(allStages: seq<Stage>, options: Options)
    requires WellFormedSeason(EligibleMatches(allStages, options))
    ensures var ms := EligibleMatches(allStages, options);
      Standings(allStages, options).Ok? ==>
        forall k :: 0 <= k < |Standings(allStages, options).value| ==>
          var row := Standings(allStages, options).value[k];
          && row.totalMatches == row.matchesWon + row.matchesLost == |row.team.matches|
          && row.matchesWon == Wins(row.team.info.id, row.team.matches)
          && row.team.matches == PushedTo(row.team.info.handle, Visits(ms))
          && (DistinctHandlesPerMatch(ms) ==> row.team.matches == Appearing(row.team.info.handle, ms))
  {
    var ms := EligibleMatches(allStages, options);
    RankedCounted(ms);
    if Standings(allStages, options).Ok? {
      var rows := Standings(allStages, options).value;
      var ranked := RankedTeams(ms).value;
      assert rows == Rows(ranked, options);
      forall k | 0 <= k < |rows|
        ensures rows[k].totalMatches == rows[k].matchesWon + rows[k].matchesLost == |rows[k].team.matches|
        ensures rows[k].matchesWon == Wins(rows[k].team.info.id, rows[k].team.matches)
        ensures rows[k].team.matches == PushedTo(rows[k].team.info.handle, Visits(ms))
        ensures DistinctHandlesPerMatch(ms) ==> rows[k].team.matches == Appearing(rows[k].team.info.handle, ms)
      {
        assert rows[k].team == ranked[k] && Counted(ranked[k], Visits(ms));
        if DistinctHandlesPerMatch(ms) {
          PushedToIsAppearing(rows[k].team.info.handle, ms);
        }
      }
    }
  }

  /**
   * Every row's points earned and allowed are its team's own and its
   * opponents' points, summed over the games of its matches.
   */
  lemma StandingsPoints(allStages: seq<Stage>, options: Options)
    requires WellFormedSeason(EligibleMatches(allStages, options))
    ensures Standings(allStages, options).Ok? ==>
      forall k :: 0 <= k < |Standings(allStages, options).value| ==>
        var row := Standings(allStages, options).value[k];
        && Playable(row.team.info.id, row.team.matches) && !AnyUnscored(row.team.matches)
        && row.pointsEarned == PointsOver(row.team.info.id, row.team.matches, true)
        && row.pointsAllowed == PointsOver(row.team.info.id, row.team.matches, false)
  {
    var ms := EligibleMatches(allStages, options);
    RankedCounted(ms);
    if Standings(allStages, options).Ok? {
      var rows := Standings(allStages, options).value;
      var ranked := RankedTeams(ms).value;
      assert rows == Rows(ranked, options);
      forall k | 0 <= k < |rows|
        ensures Playable(rows[k].team.info.id, rows[k].team.matches) && !AnyUnscored(rows[k].team.matches)
        ensures rows[k].pointsEarned == PointsOver(rows[k].team.info.id, rows[k].team.matches, true)
        ensures rows[k].pointsAllowed == PointsOver(rows[k].team.info.id, rows[k].team.matches, false)
      {
        assert rows[k].team == ranked[k] && Counted(ranked[k], Visits(ms));
      }
    }
  }

  /**
   * Every row's games won and lost are, over its team's matches, the larger
   * final score when the team is the recorded winner and the smaller one
   * otherwise, and the other of the two.
   */
  lemma StandingsGames(allStages: seq<Stage>, options: Options)
    requires WellFormedSeason(EligibleMatches(allStages, options))
    ensures Standings(allStages, options).Ok? ==>
      forall k :: 0 <= k < |Standings(allStages, options).value| ==>
        var row := Standings(allStages, options).value[k];
        && Playable(row.team.info.id, row.team.matches)
        && row.gamesWon == GamesOver(row.team.info.id, row.team.matches, true)
        && row.gamesLost == GamesOver(row.team.info.id, row.team.matches, false)
  {
    var ms := EligibleMatches(allStages, options);
    RankedCounted(ms);
    if Standings(allStages, options).Ok? {
      var rows := Standings(allStages, options).value;
      var ranked := RankedTeams(ms).value;
      assert rows == Rows(ranked, options);
      forall k | 0 <= k < |rows|
        ensures Playable(rows[k].team.info.id, rows[k].team.matches)
        ensures rows[k].gamesWon == GamesOver(rows[k].team.info.id, rows[k].team.matches, true)
        ensures rows[k].gamesLost == GamesOver(rows[k].team.info.id, rows[k].team.matches, false)
      {
        assert rows[k].team == ranked[k] && Counted(ranked[k], Visits(ms));
      }
    }
  }

  /**
   * Every row is the row of its own tallied accumulator: the six counters
   * copied, the total, and the expectation pair and exponent the options
   * select.
   */
  lemma StandingsRows(allStages: seq<Stage>, options: Options)
    requires WellFormedSeason(EligibleMatches(allStages, options))
    ensures Standings(allStages, options).Ok? ==>
      forall k :: 0 <= k < |Standings(allStages, options).value| ==>
        var row := Standings(allStages, options).value[k];
        row.team.pythagorean.Some? && row == Row(row.team, options)
  {
    var ms := EligibleMatches(allStages, options);
    if Standings(allStages, options).Ok? {
      var ranked := RankedTeams(ms).value;
      assert Standings(allStages, options).value == Rows(ranked, options);
    }
  }

  /** A handle has a row exactly when its competitor plays an eligible match. */
  lemma StandingsCoverage(allStages: seq<Stage>, options: Options, h: string)
    requires WellFormedSeason(EligibleMatches(allStages, options))
    ensures Standings(allStages, options).Ok? ==>
      ((exists k :: 0 <= k < |Standings(allStages, options).value| && Standings(allStages, options).value[k].team.info.handle == h)
        <==> Appears(h, EligibleMatches(allStages, options)))
  {
    var ms := EligibleMatches(allStages, options);
    RankedCoverage(ms, h);
    if Standings(allStages, options).Ok? {
      var rows := Standings(allStages, options).value;
      var ranked := RankedTeams(ms).value;
      assert rows == Rows(ranked, options);
      assert forall k :: 0 <= k < |rows| ==> rows[k].team == ranked[k];
    }
  }

  /**
   * Every match a row counts is an eligible one: concluded, with every game
   * concluded, open or with playoffs included, from a stage that is not
   * preseason unless preseason is included.
   */
  lemma StandingsEligible(allStages: seq<Stage>, options: Options)
    requires WellFormedSeason(EligibleMatches(allStages, options))
    ensures Standings(allStages, options).Ok? ==>
      forall k, m :: 0 <= k < |Standings(allStages, options).value| && m in Standings(allStages, options).value[k].team.matches ==>
        && IsEligible(m, options.includePlayoffs)
        && exists s :: s in allStages && (options.includePreseason || s.slug != Preseason) && m in s.matches
  {
    var ms := EligibleMatches(allStages, options);
    var vs := Visits(ms);
    StandingsCounts(allStages, options);
    PushedToFromAll(vs);
    VisitsMembers(ms);
  }
}
