/**
 * The season data the standings are computed from (stages of matches between
 * competitors, each match made of games), the options of the computation and
 * the per-team accumulator that the computation builds.
 */
module Season {
  import opened Wrappers

  /**
   * Status of a match or of a game; only CONCLUDED ones are counted.
   * `Unfinished` carries any other status text.
   */
  datatype Status = Concluded | Unfinished(text: string)

  /**
   * `tournament.type` of a match: OPEN_MATCHES is the regular season.
   * `Bracket` carries any other type text.
   */
  datatype TournamentType = OpenMatches | Bracket(text: string)

  /** A team as the match feed references it; `handle` is the grouping key. */
  datatype Competitor = Competitor(id: int, handle: string, name: string)

  /** An entry of `match.scores`: the number of maps a competitor took. */
  datatype Score = Score(value: int)

  /** One map of a match; `points` is indexed like the match's competitors and may be absent. */
  datatype Game = Game(status: Status, points: Option<seq<int>>)

  datatype Match = Match(
    status: Status,
    tournament: TournamentType,
    competitors: seq<Competitor>,
    games: seq<Game>,
    scores: seq<Score>,
    winner: Competitor)

  /** A phase of the season, identified by its slug ("preseason", "regular_season", ...). */
  datatype Stage = Stage(slug: string, matches: seq<Match>)

  /**
   * The options of the computation. The flags default to false; `exponent` is
   * the fixed exponent of the expectation formula, used unless
   * `recalculateExponent` is set, and `None` when the caller gives none.
   */
  datatype Options = Options(
    includePreseason: bool,
    includePlayoffs: bool,
    usePoints: bool,
    recalculateExponent: bool,
    exponent: Option<real>)

  /** `options = {}`: every flag false and no fixed exponent. */
  const DefaultOptions := Options(false, false, false, false, None)

  /** The six running counters of a team (`pythagorean` in the accumulator). */
  datatype Tally = Tally(
    matchesWon: int,
    matchesLost: int,
    gamesWon: int,
    gamesLost: int,
    pointsEarned: int,
    pointsAllowed: int)

  const Zero := Tally(0, 0, 0, 0, 0, 0)

  /** Component-wise sum of two tallies. */
  function Plus(a: Tally, b: Tally): Tally
  {
    Tally(a.matchesWon + b.matchesWon, a.matchesLost + b.matchesLost,
          a.gamesWon + b.gamesWon, a.gamesLost + b.gamesLost,
          a.pointsEarned + b.pointsEarned, a.pointsAllowed + b.pointsAllowed)
  }

  /**
   * The accumulator of one team: the competitor record met first, the matches
   * it played, and its counters (`None` until the tally step sets them).
   */
  datatype Team = Team(info: Competitor, matches: seq<Match>, pythagorean: Option<Tally>)

  /** Why the computation stops: a counted game carries no `points`, which the source reads anyway. */
  datatype Error = MissingPoints

  /** Every `points` array present in game `g` holds an entry for each of the two competitors' positions. */
  predicate PointsShaped(g: Game)
  {
    g.points.Some? ==> |g.points.value| >= 2
  }

  /**
   * The shape the computation relies on for a counted match: two competitors,
   * at least one score, and at least two entries in every points array present.
   */
  predicate WellFormedMatch(m: Match)
  {
    && |m.competitors| == 2
    && |m.scores| > 0
    && forall k :: 0 <= k < |m.games| ==> PointsShaped(m.games[k])
  }

  /** Competitors sharing a handle share an id, so a team is found in its matches by id. */
  predicate ConsistentIds(ms: seq<Match>)
  {
    forall i, j, a, b ::
      0 <= i < |ms| && 0 <= j < |ms| && 0 <= a < |ms[i].competitors| && 0 <= b < |ms[j].competitors| &&
      ms[i].competitors[a].handle == ms[j].competitors[b].handle ==>
        ms[i].competitors[a].id == ms[j].competitors[b].id
  }

  predicate WellFormedSeason(ms: seq<Match>)
  {
    (forall k :: 0 <= k < |ms| ==> WellFormedMatch(ms[k])) && ConsistentIds(ms)
  }

  /** Some game of `m` carries no points. */
  predicate Unscored(m: Match)
  {
    exists g :: 0 <= g < |m.games| && m.games[g].points.None?
  }

  /** Concatenation regrouped; stated once so that longer proofs need not rediscover it. */
  lemma ConcatAssoc<T>(a: seq<T>, b: seq<T>, c: seq<T>)
    ensures a + (b + c) == (a + b) + c
  {
  }
}
