/**
 * The tally loop (src/calculate.js:51-94): for every accumulator, in key
 * order, the six counters are set to zero and then increased match by match.
 * Each match adds one won or lost match, the larger and smaller final score
 * as games won and lost (the larger going to the side recorded as winner),
 * and the team's and the opponent's points summed over the games.
 */
module Tallying {
  import opened Wrappers
  import opened Season
  import opened Grouping

  /** `Array.prototype.indexOf` on the competitor ids: the first position of `id`, or -1. */
  function IndexOfId(cs: seq<Competitor>, id: int): (r: int)
    ensures -1 <= r < |cs|
    ensures 0 <= r ==> cs[r].id == id && forall k :: 0 <= k < r ==> cs[k].id != id
    ensures r == -1 <==> forall k :: 0 <= k < |cs| ==> cs[k].id != id
  {
    if cs == [] then -1
    else if cs[0].id == id then 0
    else
      var r := IndexOfId(cs[1..], id);
      if r == -1 then -1 else r + 1
  }

  /** `match.scores.map(score => score.value)`. */
  function ScoreValues(scores: seq<Score>): (r: seq<int>)
    ensures |r| == |scores| && forall k :: 0 <= k < |scores| ==> r[k] == scores[k].value
  {
    seq(|scores|, k requires 0 <= k < |scores| => scores[k].value)
  }

  /** `Math.max(...xs)` on a non-empty sequence. */
  function Max(xs: seq<int>): (r: int)
    requires |xs| > 0
    ensures r in xs && forall k :: 0 <= k < |xs| ==> xs[k] <= r
  {
    if |xs| == 1 then xs[0]
    else
      var rest := Max(xs[1..]);
      if xs[0] >= rest then xs[0] else rest
  }

  /** `Math.min(...xs)` on a non-empty sequence. */
  function Min(xs: seq<int>): (r: int)
    requires |xs| > 0
    ensures r in xs && forall k :: 0 <= k < |xs| ==> r <= xs[k]
  {
    if |xs| == 1 then xs[0]
    else
      var rest := Min(xs[1..]);
      if xs[0] <= rest then xs[0] else rest
  }

  /** `sum(games.map(game => game.points[index]))`; `None` when a game has no points to read. */
  function PointsSum(games: seq<Game>, index: nat): (r: Option<int>)
    requires index < 2 && forall k :: 0 <= k < |games| ==> PointsShaped(games[k])
    ensures r.None? <==> exists k :: 0 <= k < |games| && games[k].points.None?
  {
    if games == [] then Some(0)
    else match games[0].points
      case None => None
      case Some(p) =>
        match PointsSum(games[1..], index)
        case None => None
        case Some(rest) =>
          assert PointsShaped(games[0]);
          assert forall k :: 1 <= k < |games| ==> games[1..][k - 1] == games[k];
          Some(p[index] + rest)
  }

  /** One game adds its entry at `index`, or leaves the sum missing when it has no points. */
  lemma PointsSumOne(g: Game, index: nat)
    requires index < 2 && PointsShaped(g)
    ensures PointsSum([g], index) == if g.points.None? then None else Some(g.points.value[index])
  {
    assert [g][1..] == [];
  }

  /** The sum over two runs of games is the sum of their sums, and missing when either is. */
  lemma {:induction false} PointsSumAppend(a: seq<Game>, b: seq<Game>, index: nat)
    requires index < 2
    requires (forall k :: 0 <= k < |a| ==> PointsShaped(a[k])) && (forall k :: 0 <= k < |b| ==> PointsShaped(b[k]))
    ensures forall k :: 0 <= k < |a + b| ==> PointsShaped((a + b)[k])
    ensures PointsSum(a + b, index) ==
      if PointsSum(a, index).Some? && PointsSum(b, index).Some?
      then Some(PointsSum(a, index).value + PointsSum(b, index).value)
      else None
  {
    if a == [] {
      assert a + b == b;
    } else {
      assert (a + b)[1..] == a[1..] + b && (a + b)[0] == a[0];
      PointsSumAppend(a[1..], b, index);
    }
  }

  /** The team with id `id` is one of the competitors of `m`. */
  predicate Plays(m: Match, id: int)
  {
    exists k :: 0 <= k < |m.competitors| && m.competitors[k].id == id
  }

  /** Every match of `ms` is well formed and lists the team with id `id`. */
  predicate Playable(id: int, ms: seq<Match>)
  {
    forall k :: 0 <= k < |ms| ==> WellFormedMatch(ms[k]) && Plays(ms[k], id)
  }

  /**
   * What match `m` adds to the counters of the team with id `id`
   * (src/calculate.js:64-92), or `None` when a game has no points.
   */
  function MatchTally(m: Match, id: int): (d: Option<Tally>)
    requires WellFormedMatch(m) && Plays(m, id)
    ensures d.None? <==> Unscored(m)
    ensures d.Some? ==>
      && d.value.matchesWon + d.value.matchesLost == 1
      && (d.value.matchesWon == 1 <==> m.winner.id == id)
      && d.value.gamesWon + d.value.gamesLost == Max(ScoreValues(m.scores)) + Min(ScoreValues(m.scores))
    ensures d.Some? && m.winner.id == id ==>
      d.value.gamesWon == Max(ScoreValues(m.scores)) && d.value.gamesLost == Min(ScoreValues(m.scores))
    ensures d.Some? && m.winner.id != id ==>
      d.value.gamesWon == Min(ScoreValues(m.scores)) && d.value.gamesLost == Max(ScoreValues(m.scores))
    ensures d.Some? ==>
      forall k :: 0 <= k < 2 && m.competitors[k].id == id && (k == 1 ==> m.competitors[0].id != id) ==>
        d.value.pointsEarned == PointsSum(m.games, k).value && d.value.pointsAllowed == PointsSum(m.games, 1 - k).value
  {
    var scores := ScoreValues(m.scores);
    var teamIndex := IndexOfId(m.competitors, id);
    var otherTeamIndex := if teamIndex == 0 then 1 else 0;
    match (PointsSum(m.games, teamIndex), PointsSum(m.games, otherTeamIndex))
    case (Some(earned), Some(allowed)) =>
      if m.winner.id == id then Some(Tally(1, 0, Max(scores), Min(scores), earned, allowed))
      else Some(Tally(0, 1, Min(scores), Max(scores), earned, allowed))
    case _ => None
  }

  /** The counters after the matches `ms`, starting from `start`; `None` once a match has a game without points. */
  function Accumulate(start: Tally, id: int, ms: seq<Match>): (r: Option<Tally>)
    requires Playable(id, ms)
    ensures r.Some? ==> r.value.matchesWon + r.value.matchesLost == start.matchesWon + start.matchesLost + |ms|
  {
    if ms == [] then Some(start)
    else
      match Accumulate(start, id, ms[..|ms| - 1])
      case None => None
      case Some(t) =>
        match MatchTally(ms[|ms| - 1], id)
        case None => None
        case Some(d) => Some(Plus(t, d))
  }

  /** The counters a team starts from: zero unless it already has some (src/calculate.js:52-61). */
  function StartOf(team: Team): (r: Tally)
    ensures team.pythagorean.None? ==> r == Zero
    ensures team.pythagorean.Some? ==> r == team.pythagorean.value
  {
    if team.pythagorean == None then Zero else team.pythagorean.value
  }

  predicate PlayableTeam(team: Team)
  {
    Playable(team.info.id, team.matches)
  }

  /** The accumulator with its counters set from its matches. */
  function WithTally(team: Team): Team
    requires PlayableTeam(team)
  {
    team.(pythagorean := Accumulate(StartOf(team), team.info.id, team.matches))
  }

  /** How many of `ms` record the team with id `id` as winner. */
  function Wins(id: int, ms: seq<Match>): nat
  {
    if ms == [] then 0
    else Wins(id, ms[..|ms| - 1]) + (if ms[|ms| - 1].winner.id == id then 1 else 0)
  }

  /**
   * The counters after adding match `m` to `t`, as the body of the inner
   * loop does it (src/calculate.js:64-92); `None` for a game without points.
   */
  method AddMatch(t0: Tally, m: Match, id: int) returns (t: Option<Tally>)
    requires WellFormedMatch(m) && Plays(m, id)
    ensures t == if MatchTally(m, id).None? then None else Some(Plus(t0, MatchTally(m, id).value))
  {
    var scores := ScoreValues(m.scores);
    var teamIndex := IndexOfId(m.competitors, id);
    var otherTeamIndex := if teamIndex == 0 then 1 else 0;
    var earned := PointsSum(m.games, teamIndex);
    var allowed := PointsSum(m.games, otherTeamIndex);
    if earned.None? || allowed.None? {
      return None;
    }
    var r := t0.(pointsEarned := t0.pointsEarned + earned.value, pointsAllowed := t0.pointsAllowed + allowed.value);
    if m.winner.id == id {
      r := r.(matchesWon := r.matchesWon + 1, gamesWon := r.gamesWon + Max(scores), gamesLost := r.gamesLost + Min(scores));
    } else {
      r := r.(matchesLost := r.matchesLost + 1, gamesWon := r.gamesWon + Min(scores), gamesLost := r.gamesLost + Max(scores));
    }
    return Some(r);
  }

  /**
   * The tally of one accumulator (src/calculate.js:52-93): start from zero,
   * then add each match's contribution in order. `None` stands for the
   * TypeError the source raises on a game without points.
   */
  method TallyMatches(team: Team) returns (tally: Option<Tally>)
    requires PlayableTeam(team)
    ensures tally == Accumulate(StartOf(team), team.info.id, team.matches)
  {
    var t := if team.pythagorean == None then Zero else team.pythagorean.value;
    assert team.matches[..0] == [];
    var j := 0;
    while j < |team.matches|
      invariant 0 <= j <= |team.matches|
      invariant Playable(team.info.id, team.matches[..j])
      invariant Accumulate(StartOf(team), team.info.id, team.matches[..j]) == Some(t)
    {
      var m := team.matches[j];
      var next := AddMatch(t, m, team.info.id);
      ghost var d := MatchTally(m, team.info.id);
      if next.None? {
        AccumulateFailsAt(StartOf(team), team.info.id, team.matches, j);
        return None;
      }
      assert d.Some? && next.value == Plus(t, d.value);
      AccumulateStep(StartOf(team), team.info.id, team.matches, j, t, d.value);
      t := next.value;
      j := j + 1;
    }
    assert team.matches[..j] == team.matches;
    return Some(t);
  }

  /** Every handle of `hs` is a key of `teams` whose matches can be tallied. */
  predicate Tallyable(teams: map<string, Team>, hs: seq<string>)
  {
    forall h :: h in hs ==> h in teams && PlayableTeam(teams[h])
  }

  /**
   * The accumulators after tallying those named by `hs`, in that order: the
   * first one with a game without points ends the computation.
   */
  function Tallied(teams: map<string, Team>, hs: seq<string>): (r: Result<map<string, Team>, Error>)
    requires Tallyable(teams, hs)
    ensures r.Ok? ==> r.value.Keys == teams.Keys
  {
    if hs == [] then Ok(teams)
    else
      var h := hs[|hs| - 1];
      match Tallied(teams, hs[..|hs| - 1])
      case Err(e) => Err(e)
      case Ok(updated) =>
        if AnyUnscored(teams[h].matches) then Err(MissingPoints)
        else Ok(updated[h := WithTally(teams[h])])
  }

  /**
   * The outer loop (src/calculate.js:51-94): every accumulator, in key
   * order, gets its counters. The first game without points ends the whole
   * computation. The accumulators are read from `teams` as
   * `Object.values` lists them before the loop starts.
   */
  method TallyTeams(teams: map<string, Team>, order: seq<string>) returns (result: Result<map<string, Team>, Error>)
    requires Distinct(order) && Tallyable(teams, order)
    ensures result == Tallied(teams, order)
  {
    var updated := teams;
    var i := 0;
    assert order[..0] == [];
    while i < |order|
      invariant 0 <= i <= |order|
      invariant Tallyable(teams, order[..i])
      invariant Tallied(teams, order[..i]) == Ok(updated)
    {
      var team := teams[order[i]];
      TalliedStep(teams, order, i);
      var tally := TallyMatches(team);
      AccumulateFails(StartOf(team), team.info.id, team.matches);
      if tally.None? {
        assert Tallied(teams, order[..i + 1]) == Err(MissingPoints);
        TalliedStaysErr(teams, order, i + 1);
        return Err(MissingPoints);
      }
      assert !AnyUnscored(team.matches) && team.(pythagorean := tally) == WithTally(team);
      updated := updated[order[i] := team.(pythagorean := tally)];
      i := i + 1;
    }
    assert order[..i] == order;
    return Ok(updated);
  }

  lemma TalliedStep(teams: map<string, Team>, hs: seq<string>, i: nat)
    requires Tallyable(teams, hs) && i < |hs|
    ensures Tallyable(teams, hs[..i]) && Tallyable(teams, hs[..i + 1])
    ensures Tallied(teams, hs[..i + 1]) ==
      match Tallied(teams, hs[..i])
      case Err(e) => Err(e)
      case Ok(updated) =>
        if AnyUnscored(teams[hs[i]].matches) then Err(MissingPoints)
        else Ok(updated[hs[i] := WithTally(teams[hs[i]])])
  {
    assert hs[..i + 1][..i] == hs[..i] && hs[..i + 1][i] == hs[i];
    assert forall k :: 0 <= k <= i ==> hs[..i + 1][k] == hs[k];
  }

  /** Once the computation has stopped it stays stopped. */
  lemma {:induction false} TalliedStaysErr(teams: map<string, Team>, hs: seq<string>, p: nat)
    requires Tallyable(teams, hs) && p <= |hs|
    requires Tallyable(teams, hs[..p]) && Tallied(teams, hs[..p]) == Err(MissingPoints)
    ensures Tallied(teams, hs) == Err(MissingPoints)
  {
    if p < |hs| {
      var n := |hs| - 1;
      TalliedStep(teams, hs, n);
      assert hs[..n][..p] == hs[..p];
      TalliedStaysErr(teams, hs[..n], p);
    } else {
      assert hs[..p] == hs;
    }
  }

  /** Extending the matches by one adds that match's contribution. */
  lemma AccumulateStep(start: Tally, id: int, ms: seq<Match>, j: nat, t: Tally, d: Tally)
    requires Playable(id, ms) && j < |ms|
    requires Playable(id, ms[..j]) && Accumulate(start, id, ms[..j]) == Some(t)
    requires MatchTally(ms[j], id) == Some(d)
    ensures Playable(id, ms[..j + 1]) && Accumulate(start, id, ms[..j + 1]) == Some(Plus(t, d))
  {
    assert ms[..j + 1][..j] == ms[..j] && ms[..j + 1][j] == ms[j];
  }

  /** A match without points anywhere in the list makes the whole tally fail. */
  lemma AccumulateFailsAt(start: Tally, id: int, ms: seq<Match>, j: nat)
    requires Playable(id, ms) && j < |ms| && MatchTally(ms[j], id).None?
    ensures Accumulate(start, id, ms) == None
  {
    assert Unscored(ms[j]);
    AccumulateFails(start, id, ms);
  }

  lemma PlayablePrefix(id: int, ms: seq<Match>, n: nat)
    requires Playable(id, ms) && n <= |ms|
    ensures Playable(id, ms[..n])
  {
    assert forall k :: 0 <= k < n ==> ms[..n][k] == ms[k];
  }

  /** The tally fails exactly when one of the matches has a game without points. */
  lemma {:induction false} AccumulateFails(start: Tally, id: int, ms: seq<Match>)
    requires Playable(id, ms)
    ensures Accumulate(start, id, ms).None? <==> AnyUnscored(ms)
  {
    if ms != [] {
      var n := |ms| - 1;
      PlayablePrefix(id, ms, n);
      AccumulateFails(start, id, ms[..n]);
      AccumulateLastFails(start, id, ms);
      AnyUnscoredLast(ms);
    }
  }

  /** Some match of `ms` has a game without points. */
  predicate AnyUnscored(ms: seq<Match>)
  {
    exists k :: 0 <= k < |ms| && Unscored(ms[k])
  }

  lemma AnyUnscoredLast(ms: seq<Match>)
    requires ms != []
    ensures AnyUnscored(ms) <==> AnyUnscored(ms[..|ms| - 1]) || Unscored(ms[|ms| - 1])
  {
    var n := |ms| - 1;
    assert forall k :: 0 <= k < n ==> ms[..n][k] == ms[k];
    if AnyUnscored(ms) {
      var k :| 0 <= k < |ms| && Unscored(ms[k]);
      if k < n {
        assert Unscored(ms[..n][k]);
      }
    }
    if AnyUnscored(ms[..n]) {
      var k :| 0 <= k < n && Unscored(ms[..n][k]);
      assert Unscored(ms[k]);
    }
  }

  lemma AccumulateLastFails(start: Tally, id: int, ms: seq<Match>)
    requires Playable(id, ms) && ms != []
    ensures Playable(id, ms[..|ms| - 1])
    ensures Accumulate(start, id, ms).None? <==>
      Accumulate(start, id, ms[..|ms| - 1]).None? || Unscored(ms[|ms| - 1])
  {
    PlayablePrefix(id, ms, |ms| - 1);
  }

  /** How many games the scores of `ms` add up to, counting each match's larger and smaller score. */
  function GamesPlayed(ms: seq<Match>): int
    requires forall k :: 0 <= k < |ms| ==> |ms[k].scores| > 0
  {
    if ms == [] then 0
    else
      var m := ms[|ms| - 1];
      GamesPlayed(ms[..|ms| - 1]) + Max(ScoreValues(m.scores)) + Min(ScoreValues(m.scores))
  }

  /**
   * The points of the team with id `id` over the matches `ms`: its own
   * (`own`) or its opponents', each match's games read at the team's
   * position among the competitors.
   */
  function PointsOver(id: int, ms: seq<Match>, own: bool): int
    requires Playable(id, ms) && !AnyUnscored(ms)
  {
    if ms == [] then 0
    else
      var n := |ms| - 1;
      var m := ms[n];
      PlayablePrefix(id, ms, n);
      AnyUnscoredLast(ms);
      assert Plays(m, id) && WellFormedMatch(m) && !Unscored(m);
      var k := IndexOfId(m.competitors, id);
      PointsOver(id, ms[..n], own) + PointsSum(m.games, if own then k else 1 - k).value
  }

  /**
   * A successful tally adds up, over the matches, the points the team
   * earned and allowed.
   */
  lemma {:induction false} AccumulatePoints(start: Tally, id: int, ms: seq<Match>)
    requires Playable(id, ms)
    ensures Accumulate(start, id, ms).Some? ==>
      && !AnyUnscored(ms)
      && Accumulate(start, id, ms).value.pointsEarned == start.pointsEarned + PointsOver(id, ms, true)
      && Accumulate(start, id, ms).value.pointsAllowed == start.pointsAllowed + PointsOver(id, ms, false)
  {
    AccumulateFails(start, id, ms);
    if ms != [] {
      var n := |ms| - 1;
      var m := ms[n];
      PlayablePrefix(id, ms, n);
      AccumulatePoints(start, id, ms[..n]);
      if Accumulate(start, id, ms).Some? {
        AnyUnscoredLast(ms);
        var k := IndexOfId(m.competitors, id);
        assert Plays(m, id) && 0 <= k < 2 && m.competitors[k].id == id && (k == 1 ==> m.competitors[0].id != id);
      }
    }
  }

  /**
   * A successful tally counts every match once, as won exactly when the
   * team is the recorded winner, and counts both final scores of every match.
   */
  lemma {:induction false} AccumulateCounts(start: Tally, id: int, ms: seq<Match>)
    requires Playable(id, ms)
    ensures Accumulate(start, id, ms).Some? ==>
      var t := Accumulate(start, id, ms).value;
      && t.matchesWon == start.matchesWon + Wins(id, ms)
      && t.matchesLost == start.matchesLost + |ms| - Wins(id, ms)
      && t.gamesWon + t.gamesLost == start.gamesWon + start.gamesLost + GamesPlayed(ms)
  {
    if ms != [] {
      var n := |ms| - 1;
      PlayablePrefix(id, ms, n);
      AccumulateCounts(start, id, ms[..n]);
    }
  }

  /**
   * The games of the team with id `id` over the matches `ms`: for each
   * match, the larger final score when the team is the recorded winner and
   * the smaller one otherwise (`won`), or the other of the two (`!won`).
   */
  function GamesOver(id: int, ms: seq<Match>, won: bool): int
    requires forall k :: 0 <= k < |ms| ==> |ms[k].scores| > 0
  {
    if ms == [] then 0
    else
      var m := ms[|ms| - 1];
      var scores := ScoreValues(m.scores);
      var larger := (m.winner.id == id) == won;
      GamesOver(id, ms[..|ms| - 1], won) + (if larger then Max(scores) else Min(scores))
  }

  /**
   * A successful tally credits, match by match, the larger final score as
   * games won and the smaller as games lost to the recorded winner, and the
   * other way round to every other team.
   */
  lemma {:induction false} AccumulateGames(start: Tally, id: int, ms: seq<Match>)
    requires Playable(id, ms)
    ensures Accumulate(start, id, ms).Some? ==>
      && Accumulate(start, id, ms).value.gamesWon == start.gamesWon + GamesOver(id, ms, true)
      && Accumulate(start, id, ms).value.gamesLost == start.gamesLost + GamesOver(id, ms, false)
  {
    if ms != [] {
      var n := |ms| - 1;
      PlayablePrefix(id, ms, n);
      AccumulateGames(start, id, ms[..n]);
    }
  }

  /**
   * The two sides of a match with two different teams see it from opposite
   * ends: one's points earned are the other's points allowed, and when one of
   * them is the recorded winner, exactly one wins and the games swap.
   */
  lemma MatchTallyZeroSum(m: Match)
    requires WellFormedMatch(m) && m.competitors[0].id != m.competitors[1].id
    ensures Plays(m, m.competitors[0].id) && Plays(m, m.competitors[1].id)
    ensures
      var a := MatchTally(m, m.competitors[0].id);
      var b := MatchTally(m, m.competitors[1].id);
      && (a.None? <==> b.None?)
      && (a.Some? ==>
        && a.value.pointsEarned == b.value.pointsAllowed
        && a.value.pointsAllowed == b.value.pointsEarned
        && a.value.matchesWon + b.value.matchesWon == (if m.winner.id in {m.competitors[0].id, m.competitors[1].id} then 1 else 0)
        && (m.winner.id in {m.competitors[0].id, m.competitors[1].id} ==>
              a.value.gamesWon == b.value.gamesLost && a.value.gamesLost == b.value.gamesWon)
        && a.value.pointsEarned + a.value.pointsAllowed + b.value.pointsEarned + b.value.pointsAllowed ==
             2 * (PointsSum(m.games, 0).value + PointsSum(m.games, 1).value))
  {
    var c0, c1 := m.competitors[0], m.competitors[1];
    assert Plays(m, c0.id) && Plays(m, c1.id);
    assert IndexOfId(m.competitors, c0.id) == 0;
    assert IndexOfId(m.competitors, c1.id) == 1;
  }

  /**
   * The games are credited by size, not by position: when the recorded
   * winner's own score is the larger of two, it gets its own score as games
   * won and the opponent's as games lost.
   */
  lemma WinnerGamesFromScores(m: Match, i: nat)
    requires WellFormedMatch(m) && |m.scores| == 2 && i < 2
    requires m.winner.id == m.competitors[i].id
    requires m.scores[i].value >= m.scores[1 - i].value
    ensures Plays(m, m.winner.id)
    ensures MatchTally(m, m.winner.id).Some? ==>
      MatchTally(m, m.winner.id).value.gamesWon == m.scores[i].value &&
      MatchTally(m, m.winner.id).value.gamesLost == m.scores[1 - i].value
  {
    assert Plays(m, m.competitors[i].id);
    var scores := ScoreValues(m.scores);
    assert scores[i] == m.scores[i].value && scores[1 - i] == m.scores[1 - i].value;
    assert Max(scores) == scores[i] && Min(scores) == scores[1 - i];
  }

  /**
   * The games are credited by size even against the record: a recorded
   * winner whose own final score is the smaller one is credited the larger
   * score as games won and its own as games lost.
   */
  lemma LowerScoredWinnerGames(m: Match, i: nat)
    requires WellFormedMatch(m) && |m.scores| == 2 && i < 2
    requires m.winner.id == m.competitors[i].id
    requires m.scores[i].value < m.scores[1 - i].value
    ensures Plays(m, m.winner.id)
    ensures MatchTally(m, m.winner.id).Some? ==>
      MatchTally(m, m.winner.id).value.gamesWon == m.scores[1 - i].value &&
      MatchTally(m, m.winner.id).value.gamesLost == m.scores[i].value
  {
    assert Plays(m, m.competitors[i].id);
    var scores := ScoreValues(m.scores);
    assert scores[i] == m.scores[i].value && scores[1 - i] == m.scores[1 - i].value;
    assert Max(scores) == scores[1 - i] && Min(scores) == scores[i];
  }

  /** The tally of all accumulators fails exactly when one of them has a match with a game without points. */
  lemma {:induction false} TalliedFails(teams: map<string, Team>, hs: seq<string>)
    requires Tallyable(teams, hs)
    ensures Tallied(teams, hs).Err? <==> exists h :: h in hs && AnyUnscored(teams[h].matches)
  {
    if hs != [] {
      var n := |hs| - 1;
      TalliedStep(teams, hs, n);
      TalliedFails(teams, hs[..n]);
      assert hs == hs[..n] + [hs[n]];
    }
  }

  /**
   * A successful tally keeps the same handles, gives every accumulator named
   * in `hs` its own counters and leaves every other one as it was.
   */
  lemma {:induction false} TalliedValues(teams: map<string, Team>, hs: seq<string>)
    requires Tallyable(teams, hs)
    ensures Tallied(teams, hs).Ok? ==>
      var updated := Tallied(teams, hs).value;
      && updated.Keys == teams.Keys
      && forall h :: h in teams ==> updated[h] == if h in hs then WithTally(teams[h]) else teams[h]
  {
    if hs != [] && Tallied(teams, hs).Ok? {
      var n := |hs| - 1;
      TalliedStep(teams, hs, n);
      TalliedValues(teams, hs[..n]);
      var prev := Tallied(teams, hs[..n]).value;
      var updated := Tallied(teams, hs).value;
      assert updated == prev[hs[n] := WithTally(teams[hs[n]])];
      LastMember(hs);
      forall h | h in teams
        ensures updated[h] == if h in hs then WithTally(teams[h]) else teams[h]
      {
      }
    }
  }

  /** Membership in a sequence split before its last element. */
  lemma LastMember(hs: seq<string>)
    requires hs != []
    ensures forall h :: h in hs <==> h in hs[..|hs| - 1] || h == hs[|hs| - 1]
  {
    assert hs == hs[..|hs| - 1] + [hs[|hs| - 1]];
  }
}
