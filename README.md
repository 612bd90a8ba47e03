# owl-pythag standings in Dafny

This project models `getTeams` from owl-pythag (`src/calculate.js`). The
function turns an Overwatch League season into standings with a Pythagorean
expectation per team. It works on a list of stages, each a list of matches.
It runs in five steps:

1. It drops the preseason stage unless `includePreseason` is set.
2. It flattens the stages into one list of matches and keeps only the eligible ones. A match is eligible when it and all its games are concluded, and it is an open match or `includePlayoffs` is set.
3. It groups the matches by competitor handle into accumulators, held in a JavaScript object whose keys follow insertion order.
4. For each accumulator it tallies six counters:
   - matches won and lost;
   - games won and lost, taken from the larger and smaller final score;
   - points earned and allowed, summed over the games.
5. It ranks the accumulators by win differential with a stable sort and builds one output row per team. Each row carries the expected win percentage and the expected wins.

The model has one module per step:

- `Season` (season.dfy): the data model.
- `Filtering` (filtering.dfy): stage and match filters, as functions.
- `Grouping` (grouping.dfy): the grouping loop, as methods over a `map` plus a key-order `seq`, proved against the fold specifications `Accumulators`, `FirstSeen` and `PushedTo`.
- `Tallying` (tallying.dfy): the two tally loops, as methods proved against the fold specifications `Accumulate` and `Tallied`.
- `Ranking` (ranking.dfy): `sortBy` as a stable insertion sort.
- `Standings` (standings.dfy): the output rows, the whole computation as one function `Standings`, and the method `GetTeams` that computes it with the loops.
- `Scenarios` (scenarios.dfy): worked seasons. They cover one open match, a preseason-only season, and a game without points.

A game without `points` makes the source throw a `TypeError` when it reads `game.points[teamIndex]`. The model turns this into the result `Err(MissingPoints)`.

The floating-point parts (`getExponent`, `pythagoreanExpectation`, and `expectedPercentage * totalMatches`) are modelled as terms. Each term records exactly which inputs the source passes to them.

Each eligible match has to meet some conditions that the source relies on (`WellFormedSeason`):

- it has two competitors;
- it has at least one score;
- each `points` array present has at least two entries;
- competitors that share a handle share an id.

## Model

| member | source | states |
|---|---|---|
| Filtering.SelectStages | src/calculate.js:23-25 | All stages with `includePreseason`; otherwise exactly the stages whose slug is not "preseason". |
| Filtering.WithoutPreseason | src/calculate.js:25 | A stage is kept iff it is in the input and its slug is not "preseason". |
| Filtering.WithoutPreseasonAppend | src/calculate.js:25 | The preseason filter keeps the relative order of the stages it keeps. |
| Filtering.Flatten | src/calculate.js:27 | A match is in the flattened list iff it is in one of the stages. |
| Filtering.FlattenAppend | src/calculate.js:27 | Flattening keeps stage order: earlier stages' matches come first. |
| Filtering.IsEligible | src/calculate.js:30-34 | The match filter's predicate: the match is concluded, every game is concluded, and it is an open match or playoffs are included. |
| Filtering.KeepEligible | src/calculate.js:29-35 | A match is kept iff it is in the input, is concluded, all its games are concluded, and it is an open match or playoffs are included. |
| Filtering.KeepEligibleAppend | src/calculate.js:29-35 | The match filter keeps the relative order of the matches it keeps. |
| Filtering.WithoutPreseasonOne | src/calculate.js:25 | A single stage is kept, once, exactly when its slug is not "preseason". |
| Filtering.WithoutPreseasonCount | src/calculate.js:25 | Every non-preseason stage is kept as many times as it occurs in the input; the preseason never. |
| Filtering.FlattenOne | src/calculate.js:27 | A single stage flattens to exactly its own matches, in order. |
| Filtering.FlattenCount | src/calculate.js:27 | The flattened list holds every stage's matches, each as often as the stages hold it. |
| Filtering.KeepEligibleOne | src/calculate.js:29-35 | A single match is kept, once, exactly when it is eligible. |
| Filtering.KeepEligibleCount | src/calculate.js:29-35 | Every eligible match is kept as many times as it occurs; no ineligible match is kept. |
| Filtering.EligibleMatches | src/calculate.js:23-35 | A match reaches the grouping iff it passes the match filter and lies in a stage the stage filter keeps. |
| Grouping.Push | src/calculate.js:40-47 | One inner step: creating the accumulator of a new handle and pushing the match gives the grouped state after one more visit. |
| Grouping.PushMatch | src/calculate.js:39-48 | The inner loop pushes the match once per competitor, in competitor order. |
| Grouping.GroupByHandle | src/calculate.js:37-49 | The returned map and key order are the grouped state of all visits. The keys are exactly the listed handles. Each accumulator holds the competitor record met first for its handle and the matches pushed onto that handle, and has no tally yet. |
| Grouping.Accumulators | src/calculate.js:37-49 | The fold over the visits that the grouping loop is proved against: a new handle gets an accumulator from the visiting competitor, and the match is appended. |
| Grouping.AccumulatorHandles | src/calculate.js:40-47 | Each accumulator is filed under its own competitor's handle and holds at least one match. |
| Grouping.AccumulatorKeys | src/calculate.js:40-46 | An accumulator exists exactly for each handle in the first-seen order. |
| Grouping.AccumulatorContents | src/calculate.js:41-47 | Each accumulator keeps its first competitor record and exactly the matches pushed onto its handle; `pythagorean` stays null. |
| Grouping.PushedToUnseen | src/calculate.js:40-47 | No match is pushed onto a handle that never appears. |
| Grouping.FirstSeenCovers | src/calculate.js:40-46 | The key order lists each handle once, and exactly the handles of the visited competitors. |
| Grouping.FirstSeenIsFirst | src/calculate.js:40-46 | Every stored competitor record is the one from the first visit with its handle; later records with the same handle are ignored. |
| Grouping.FirstSeenPrefix | src/calculate.js:40-46 | Insertion order only grows: the key order after a prefix of the visits is a prefix of the final key order. |
| Grouping.VisitsMembers | src/calculate.js:38-39 | The nested loops visit exactly the (competitor, match) pairs of the matches. |
| Grouping.VisitsOfMembers | src/calculate.js:39 | The inner loop visits exactly the match's competitors, each paired with the match. |
| Grouping.PushedToAppend | src/calculate.js:47 | Pushing one run of visits and then another appends their matches in that order. |
| Grouping.PushedToOneMatch | src/calculate.js:39-48 | A match whose competitors have distinct handles is pushed exactly once onto each of its handles and onto no other. |
| Grouping.PushedToIsAppearing | src/calculate.js:37-49 | When no match lists a handle twice, an accumulator's matches are exactly the matches its team takes part in, in order. |
| Grouping.PushedToFrom | src/calculate.js:47 | Every match pushed onto a handle comes from a visit of a competitor with that handle. |
| Grouping.Appearing | src/calculate.js:37-49 | The matches a handle takes part in are those of the input that list it. |
| Tallying.IndexOfId | src/calculate.js:67 | `indexOf` gives the first position of the id, or -1 exactly when no competitor has it. |
| Tallying.ScoreValues | src/calculate.js:64 | The score values, one per score entry, in order. |
| Tallying.Max | src/calculate.js:85 | `Math.max` gives an element of the scores that no score exceeds. |
| Tallying.Min | src/calculate.js:86 | `Math.min` gives an element of the scores that exceeds no score. |
| Tallying.PointsSum | src/calculate.js:70-80 | The points sum is missing exactly when some game has no `points` array. |
| Tallying.PointsSumOne | src/calculate.js:70-80 | One game adds `game.points[index]`, or makes the sum missing when it has no points. |
| Tallying.PointsSumAppend | src/calculate.js:70-80 | The sum over two runs of games is the sum of their sums, and is missing when either is; with `PointsSumOne`, the sum is that of `game.points[index]` over the games. |
| Tallying.MatchTally | src/calculate.js:64-92 | A match's contribution is missing exactly when a game lacks points. Otherwise it adds one match, counted as won exactly when the team is the recorded winner. The recorded winner gets max of the scores as games won and min as games lost, and any other team the reverse. Points earned are the sum of the games' points at the team's first position among the competitors, and points allowed the sum at the other position. |
| Tallying.AddMatch | src/calculate.js:64-92 | The inner loop body adds the match's contribution to the counters, or fails when a game lacks points. |
| Tallying.StartOf | src/calculate.js:52-61 | The counters start at zero when the accumulator has none, and otherwise keep the ones it has. |
| Tallying.Accumulate | src/calculate.js:52-93 | The fold over the matches that the tally loop is proved against: every successful tally counts each match once as won or lost. |
| Tallying.TallyMatches | src/calculate.js:52-93 | An accumulator's counters start from zero and take in its matches in order, as `Accumulate` gives them. |
| Tallying.TallyTeams | src/calculate.js:51-94 | The outer loop tallies the accumulators in key order, as `Tallied` gives them. It stops at the first that fails. |
| Tallying.Tallied | src/calculate.js:51-94 | The fold over the keys that the outer loop is proved against: a successful tally keeps the set of keys. |
| Tallying.TalliedStep | src/calculate.js:51-94 | Tallying one more key extends the tallied map by that key's accumulator, or fails. |
| Tallying.TalliedStaysErr | src/calculate.js:51-94 | Once the tally has failed, tallying more keys still fails. |
| Tallying.AccumulateStep | src/calculate.js:63-93 | Adding one more match to a successful tally adds that match's contribution. |
| Tallying.AccumulateFailsAt | src/calculate.js:70-80 | A match with a game without points makes the whole accumulator's tally fail. |
| Tallying.AccumulateFails | src/calculate.js:63-93 | An accumulator's tally fails exactly when one of its matches has a game without points. |
| Tallying.AccumulateGames | src/calculate.js:82-92 | After the tally, games won and games lost are the start plus, per match, the larger score when the team is the recorded winner and the smaller otherwise, and the other one. |
| Tallying.AccumulateCounts | src/calculate.js:82-92 | After the tally, matches won is the start plus the number of matches the team won, and matches lost is the start plus the rest. Games won plus games lost grows by max + min of each match's scores. |
| Tallying.MatchTallyZeroSum | src/calculate.js:63-92 | The two competitors of a match: both fail or neither does, and their points swap. Points earned plus allowed over both sides is twice the points recorded in the games. When the recorded winner is one of them, exactly one wins the match and their games swap. |
| Tallying.AccumulatePoints | src/calculate.js:70-80 | After a successful tally no match lacks points, and points earned and allowed are the start plus the team's own and its opponents' points summed over its matches. |
| Tallying.WinnerGamesFromScores | src/calculate.js:82-86 | When the winner's own score is the larger of two, the winner is credited its own score as games won and the opponent's as games lost. |
| Tallying.LowerScoredWinnerGames | src/calculate.js:82-86 | Games are credited by size, not by position: a recorded winner whose own score is the smaller of two is still credited the larger score as games won and its own as games lost. |
| Tallying.TalliedFails | src/calculate.js:51-94 | The tally of all accumulators fails exactly when one of them has a match with a game without points. |
| Tallying.TalliedValues | src/calculate.js:51-94 | A successful tally keeps the keys. It tallies exactly the accumulators under the listed keys and leaves the others as they were. |
| Ranking.Insert | src/calculate.js:96-98 | Insertion keeps every accumulator tallied and grows the list by one. |
| Ranking.SortByDifferential | src/calculate.js:96-98 | `sortBy` keeps every accumulator tallied and returns as many as it was given. |
| Ranking.InsertPermutation | src/calculate.js:96-98 | Insertion adds exactly the inserted accumulator. |
| Ranking.InsertRanked | src/calculate.js:96-98 | Inserting into a ranked list keeps it ranked. |
| Ranking.InsertStable | src/calculate.js:96-98 | The inserted accumulator goes after every one with the same differential. |
| Ranking.SortPermutation | src/calculate.js:96-98 | `sortBy` returns a permutation of `Object.values(teams)`. |
| Ranking.SortRanked | src/calculate.js:96-98 | `sortBy` with key `-(won - lost)` puts no accumulator before one with a larger win differential. |
| Ranking.SortStable | src/calculate.js:96-98 | `sortBy` is stable: accumulators with equal differential keep their `Object.values` order. |
| Standings.ExpectationOf | src/calculate.js:114-133 | With `usePoints` the expectation uses points earned and allowed, otherwise games won and lost. The exponent is recalculated from that pair and the total matches exactly when `recalculateExponent` is set; otherwise it is `options.exponent`. |
| Standings.Row | src/calculate.js:99-149 | A row carries the team, its name and its six counters. Total matches is won plus lost, and expected wins is the expectation times the total matches. |
| Standings.Rows | src/calculate.js:99-150 | The output `map`: one row per ranked accumulator, row k being `Row` of accumulator k. |
| Standings.Roster | src/calculate.js:97 | `Object.values(teams)`: the accumulators in key order, one per key. |
| Standings.RankedTeams | src/calculate.js:96-98 | Every ranked accumulator has its counters, and there is one per grouped handle. |
| Standings.StandingsOf | src/calculate.js:96-150 | The rows of a successful computation number the grouped handles. |
| Standings.Standings | src/calculate.js:14-150 | The result of `getTeams` as one function of the stages and the options: on success, one row per distinct handle among the eligible matches. |
| Standings.GetTeams | src/calculate.js:14-150 | The filters, the grouping loop, the tally loops, the ranking and the rows together compute `Standings`. |
| Standings.GroupedTallyable | src/calculate.js:37-67 | Every grouped accumulator's matches are well formed and list the team's id, so `indexOf` finds it. |
| Standings.RosterHandles | src/calculate.js:51-97 | After a successful tally every key still holds the accumulator of its own handle. |
| Standings.TalliedRoster | src/calculate.js:51-97 | After a successful tally, every key still has an accumulator and all of them have counters. |
| Standings.GroupedIffAppears | src/calculate.js:37-49 | A handle gets an accumulator exactly when it takes part in an eligible match. |
| Standings.RankedFails | src/calculate.js:51-98 | The ranked list fails exactly when an eligible match has a game without points. |
| Standings.RankedOrder | src/calculate.js:96-98 | The ranked accumulators are ordered by win differential, largest first. |
| Standings.RankedPermutation | src/calculate.js:96-98 | The ranked accumulators are a stable permutation of the tallied accumulators in key order. |
| Standings.RankedCounted | src/calculate.js:37-98 | Every ranked accumulator's matches are those pushed onto its handle, and its counters count its wins and losses, its games by the max/min-by-winner rule and its points. |
| Standings.RankedCoverage | src/calculate.js:37-98 | A handle is ranked exactly when it takes part in an eligible match. |
| Standings.StandingsFails | src/calculate.js:14-150 | `getTeams` throws exactly when an eligible match has a game without points. |
| Standings.StandingsRanked | src/calculate.js:96-150 | The rows are those of the ranked accumulators, in order, so no row has a larger `matchesWon - matchesLost` than a row before it. |
| Standings.StandingsCounts | src/calculate.js:37-150 | In every row, total matches equals won plus lost, which equals the team's match count. Won is the number of its matches it is the recorded winner of. Its matches are those pushed onto its handle, which are the eligible matches it appears in when no match lists a handle twice. |
| Standings.StandingsGames | src/calculate.js:82-92 | In every row, games won and lost are summed over its matches by the max/min-by-winner rule. |
| Standings.StandingsRows | src/calculate.js:99-149 | Every row is `Row` of its own tallied accumulator: the six counters copied, total = won + lost, and the expectation pair and exponent the options select. |
| Standings.StandingsPoints | src/calculate.js:70-80 | In every row, points earned and allowed are the team's own and its opponents' points, summed over the games of its matches, each read at the team's position. |
| Standings.StandingsCoverage | src/calculate.js:14-150 | A handle has a row exactly when it takes part in an eligible match. |
| Standings.StandingsEligible | src/calculate.js:14-150 | Every match a row counts is concluded, with all games concluded, open or playoffs included, and from a stage the stage filter keeps. |
| Scenarios.OneOpenMatch | src/calculate.js:14-150 | One concluded open match, A beating B with points [2, 1] and scores [2, 1]. It gives two rows, A first, with A at 1-0 in matches, 2-1 in games and 2-1 in points, B the reverse. The expectations are the terms for (2, 1) and (1, 2) with exponent 2. |
| Scenarios.PreseasonOnly | src/calculate.js:23-25 | A season played only in the preseason gives no rows when the preseason is left out. |
| Scenarios.MissingGamePoints | src/calculate.js:70-80 | A counted game without points makes `getTeams` fail. |
| Scenarios.OpenerMatchTallies | src/calculate.js:64-92 | The open match adds one win, games 2-1 and points 2-1 to A, and the reverse to B. |

## Left out

- Floating point. `getExponent`, `pythagoreanExpectation` and `expectedPercentage * totalMatches` (src/calculate.js:3-12, 135) are kept as symbolic terms (`Exponent`, `Expectation`, `ExpectedWins`). Their numeric values, NaN on zero totals included, are not modelled.
- `options.exponent` left undefined is modelled as `None`. `options = {}` is `DefaultOptions`.
- The `debugger` statement (src/calculate.js:72-74) has no effect on the result and is not modelled.
- The `TypeError` on a game without `points` is modelled as `Err(MissingPoints)` with no further detail. The model does not keep the partial mutations made before the throw; the caller never sees them.
- Malformed matches are excluded by `WellFormedSeason` rather than modelled:
  - a match without two competitors;
  - a match with empty `scores`, where `Math.max` would give `-Infinity`;
  - a `points` array with fewer than two entries, where JavaScript reads `undefined`;
  - one handle with two ids, where `indexOf` gives -1 and the points sum reads `points[-1]`.
- `match.winner` is assumed to be a competitor record. A null winner would throw.
- `Object.values` is a snapshot. `Tallying.TallyTeams` reads each accumulator from the grouped map and requires distinct keys, which the grouping guarantees (`Grouping.FirstSeenCovers`).
- Handles equal to a name that every JavaScript object inherits (`constructor`, `toString`, `__proto__` and the like) are not modelled. For those `team.handle in teams` (src/calculate.js:40) is already true on the empty object, no accumulator is created, and the push at line 47 throws. The model creates the accumulator instead.
- `Status.Unfinished(text)` and `TournamentType.Bracket(text)` stand for every status other than CONCLUDED and every type other than OPEN_MATCHES. Their texts are assumed never to be those two strings; the model treats such a text as ineligible, where the source would count the match.
- The object's key order follows insertion order. The JavaScript rule that lists integer-like keys first is not modelled, so handles are assumed not to look like array indices.
- Games are credited from `Math.max`/`Math.min` of the scores. Each side's games won plus games lost for a match is max + min, which equals the sum of the scores only when there are exactly two scores. The model follows the code (`Tallying.MatchTally`, `Tallying.AccumulateCounts`).
- Accumulators are values. JavaScript shares the `team` object between the accumulator and the output row, and the match objects between accumulators; that aliasing is not modelled.
- src/Table.js and src/App.js (rendering and UI state) and bin/transform-data.js (a script that extracts the stages from a saved season file) are not part of this model.
