/**
 * The pure front of the computation (src/calculate.js:23-35): drop the
 * preseason stage unless asked to keep it, flatten the stages into one
 * sequence of matches, and keep the matches that count.
 */
module Filtering {
  import opened Season

  const Preseason := "preseason"

  /** The stages whose slug is not "preseason", in their original order. */
  function WithoutPreseason(stages: seq<Stage>): (r: seq<Stage>)
    ensures forall s :: s in r <==> s in stages && s.slug != Preseason
  {
    if stages == [] then []
    else (if stages[0].slug != Preseason then [stages[0]] else []) + WithoutPreseason(stages[1..])
  }

  /** The stage filter: every stage when `includePreseason`, else all but the preseason. */
  function SelectStages(allStages: seq<Stage>, includePreseason: bool): (r: seq<Stage>)
    ensures includePreseason ==> r == allStages
    ensures forall s :: s in r <==> s in allStages && (includePreseason || s.slug != Preseason)
  {
    if includePreseason then allStages else WithoutPreseason(allStages)
  }

  /** The matches of all stages, stage by stage, each stage's in its own order. */
  function Flatten(stages: seq<Stage>): (r: seq<Match>)
    ensures forall m :: m in r <==> exists s :: s in stages && m in s.matches
  {
    if stages == [] then [] else stages[0].matches + Flatten(stages[1..])
  }

  /** The match filter: concluded, every game concluded, and open or playoffs included. */
  predicate IsEligible(m: Match, includePlayoffs: bool)
  {
    && m.status == Concluded
    && (forall g :: g in m.games ==> g.status == Concluded)
    && (m.tournament == OpenMatches || includePlayoffs)
  }

  /** The eligible matches of `ms`, in their order. */
  function KeepEligible(ms: seq<Match>, includePlayoffs: bool): (r: seq<Match>)
    ensures forall m :: m in r <==> m in ms && IsEligible(m, includePlayoffs)
  {
    if ms == [] then []
    else (if IsEligible(ms[0], includePlayoffs) then [ms[0]] else []) + KeepEligible(ms[1..], includePlayoffs)
  }

  /** The matches that reach the grouping step. */
  function EligibleMatches(allStages: seq<Stage>, options: Options): (r: seq<Match>)
    ensures forall m :: m in r <==>
      && IsEligible(m, options.includePlayoffs)
      && exists s :: s in allStages && (options.includePreseason || s.slug != Preseason) && m in s.matches
  {
    KeepEligible(Flatten(SelectStages(allStages, options.includePreseason)), options.includePlayoffs)
  }

  /** Dropping the preseason keeps the relative order of the other stages. */
  lemma {:induction false} WithoutPreseasonAppend(a: seq<Stage>, b: seq<Stage>)
    ensures WithoutPreseason(a + b) == WithoutPreseason(a) + WithoutPreseason(b)
  {
    if a == [] {
      assert a + b == b;
    } else {
      assert (a + b)[1..] == a[1..] + b;
      WithoutPreseasonAppend(a[1..], b);
    }
  }

  /** Flattening keeps stage order: the matches of earlier stages come first. */
  lemma {:induction false} FlattenAppend(a: seq<Stage>, b: seq<Stage>)
    ensures Flatten(a + b) == Flatten(a) + Flatten(b)
  {
    if a == [] {
      assert a + b == b;
    } else {
      assert (a + b)[1..] == a[1..] + b;
      FlattenAppend(a[1..], b);
    }
  }

  /** The match filter keeps the relative order of the matches it keeps. */
  lemma {:induction false} KeepEligibleAppend(a: seq<Match>, b: seq<Match>, includePlayoffs: bool)
    ensures KeepEligible(a + b, includePlayoffs) == KeepEligible(a, includePlayoffs) + KeepEligible(b, includePlayoffs)
  {
    if a == [] {
      assert a + b == b;
    } else {
      assert (a + b)[1..] == a[1..] + b;
      KeepEligibleAppend(a[1..], b, includePlayoffs);
    }
  }

  /** One stage passes the stage filter on its own exactly when it is not the preseason. */
  lemma WithoutPreseasonOne(s: Stage)
    ensures WithoutPreseason([s]) == if s.slug != Preseason then [s] else []
  {
    assert [s][1..] == [];
  }

  /** One stage flattens to its own matches, in their order. */
  lemma FlattenOne(s: Stage)
    ensures Flatten([s]) == s.matches
  {
    assert [s][1..] == [];
  }

  /** One match passes the match filter on its own exactly when it is eligible. */
  lemma KeepEligibleOne(m: Match, includePlayoffs: bool)
    ensures KeepEligible([m], includePlayoffs) == if IsEligible(m, includePlayoffs) then [m] else []
  {
    assert [m][1..] == [];
  }

  /** The stage filter keeps every other stage as often as it occurs, and the preseason never. */
  lemma {:induction false} WithoutPreseasonCount(stages: seq<Stage>)
    ensures forall s :: multiset(WithoutPreseason(stages))[s] == if s.slug != Preseason then multiset(stages)[s] else 0
  {
    if stages != [] {
      WithoutPreseasonCount(stages[1..]);
      assert stages == [stages[0]] + stages[1..];
    }
  }

  /** The match filter keeps every eligible match as often as it occurs, and no other. */
  lemma {:induction false} KeepEligibleCount(ms: seq<Match>, includePlayoffs: bool)
    ensures forall m :: multiset(KeepEligible(ms, includePlayoffs))[m] ==
                          if IsEligible(m, includePlayoffs) then multiset(ms)[m] else 0
  {
    if ms != [] {
      KeepEligibleCount(ms[1..], includePlayoffs);
      assert ms == [ms[0]] + ms[1..];
    }
  }

  /** The matches of all stages together: each stage's matches once. */
  function AllMatches(stages: seq<Stage>): multiset<Match>
  {
    if stages == [] then multiset{} else multiset(stages[0].matches) + AllMatches(stages[1..])
  }

  /** Flattening lists every match as often as the stages hold it, no more and no fewer. */
  lemma {:induction false} FlattenCount(stages: seq<Stage>)
    ensures multiset(Flatten(stages)) == AllMatches(stages)
  {
    if stages != [] {
      FlattenCount(stages[1..]);
    }
  }
}
