/**
 * The ranking (src/calculate.js:96-99): lodash `sortBy` with the key
 * `-(matchesWon - matchesLost)`, which orders the accumulators by win
 * differential, largest first, and keeps accumulators with equal
 * differential in the order `Object.values` listed them (`sortBy` is stable).
 */
module Ranking {
  import opened Season

  /** Every accumulator of `ts` has its counters. */
  predicate AllTallied(ts: seq<Team>)
  {
    forall k :: 0 <= k < |ts| ==> ts[k].pythagorean.Some?
  }

  /** `matchesWon - matchesLost`, the negation of the sort key. */
  function Differential(t: Team): int
    requires t.pythagorean.Some?
  {
    t.pythagorean.value.matchesWon - t.pythagorean.value.matchesLost
  }

  /** No accumulator has a larger differential than one before it. */
  predicate Ranked(ts: seq<Team>)
    requires AllTallied(ts)
  {
    forall i, j :: 0 <= i < j < |ts| ==> Differential(ts[i]) >= Differential(ts[j])
  }

  /** The accumulators of `ts` whose differential is `d`, in their order in `ts`. */
  function WithDifferential(ts: seq<Team>, d: int): seq<Team>
    requires AllTallied(ts)
  {
    if ts == [] then []
    else
      var init := ts[..|ts| - 1];
      var t := ts[|ts| - 1];
      WithDifferential(init, d) + (if Differential(t) == d then [t] else [])
  }

  /** Places `t` after every accumulator of `s` whose differential is at least its own. */
  function Insert(t: Team, s: seq<Team>): (r: seq<Team>)
    requires t.pythagorean.Some? && AllTallied(s)
    ensures AllTallied(r) && |r| == |s| + 1
  {
    if s == [] then [t]
    else if Differential(t) > Differential(s[0]) then [t] + s
    else [s[0]] + Insert(t, s[1..])
  }

  /** `sortBy(ts, team => -(team.pythagorean.matchesWon - team.pythagorean.matchesLost))`. */
  function SortByDifferential(ts: seq<Team>): (r: seq<Team>)
    requires AllTallied(ts)
    ensures AllTallied(r) && |r| == |ts|
  {
    if ts == [] then []
    else Insert(ts[|ts| - 1], SortByDifferential(ts[..|ts| - 1]))
  }

  lemma {:induction false} InsertPermutation(t: Team, s: seq<Team>)
    requires t.pythagorean.Some? && AllTallied(s)
    ensures multiset(Insert(t, s)) == multiset(s) + multiset{t}
  {
    if s != [] && Differential(t) <= Differential(s[0]) {
      RankedTailTallied(s);
      InsertPermutation(t, s[1..]);
      assert s == [s[0]] + s[1..];
    }
  }

  lemma RankedTailTallied(s: seq<Team>)
    requires AllTallied(s) && s != []
    ensures AllTallied(s[1..])
  {
    assert forall k :: 0 <= k < |s| - 1 ==> s[1..][k] == s[k + 1];
  }

  /** The ranking rearranges the accumulators: it neither drops nor duplicates any. */
  lemma {:induction false} SortPermutation(ts: seq<Team>)
    requires AllTallied(ts)
    ensures multiset(SortByDifferential(ts)) == multiset(ts)
  {
    if ts != [] {
      var init := ts[..|ts| - 1];
      var last := ts[|ts| - 1];
      calc {
        multiset(SortByDifferential(ts));
        multiset(Insert(last, SortByDifferential(init)));
        { InsertPermutation(last, SortByDifferential(init)); }
        multiset(SortByDifferential(init)) + multiset{last};
        { SortPermutation(init); }
        multiset(init) + multiset{last};
        { assert ts == init + [last]; }
        multiset(ts);
      }
    }
  }

  lemma {:induction false} InsertRanked(t: Team, s: seq<Team>)
    requires t.pythagorean.Some? && AllTallied(s) && Ranked(s)
    ensures Ranked(Insert(t, s))
  {
    if s != [] && Differential(t) <= Differential(s[0]) {
      RankedTail(s);
      InsertRanked(t, s[1..]);
      var rest := Insert(t, s[1..]);
      forall k | 0 <= k < |rest|
        ensures Differential(s[0]) >= Differential(rest[k])
      {
        InsertPermutation(t, s[1..]);
        assert rest[k] in multiset(s[1..]) + multiset{t};
        if rest[k] in multiset(s[1..]) {
          var j :| 0 <= j < |s[1..]| && s[1..][j] == rest[k];
          assert s[j + 1] == rest[k];
        }
      }
    }
  }

  /** The ranking never lists an accumulator after one with a smaller differential. */
  lemma {:induction false} SortRanked(ts: seq<Team>)
    requires AllTallied(ts)
    ensures Ranked(SortByDifferential(ts))
  {
    if ts != [] {
      SortRanked(ts[..|ts| - 1]);
      InsertRanked(ts[|ts| - 1], SortByDifferential(ts[..|ts| - 1]));
    }
  }

  lemma {:induction false} InsertStable(t: Team, s: seq<Team>, d: int)
    requires t.pythagorean.Some? && AllTallied(s) && Ranked(s)
    ensures WithDifferential(Insert(t, s), d) == WithDifferential(s, d) + (if Differential(t) == d then [t] else [])
  {
    if s == [] {
      assert WithDifferential([t], d) == WithDifferential([], d) + (if Differential(t) == d then [t] else []);
    } else if Differential(t) > Differential(s[0]) {
      InsertStableFront(t, s, d);
    } else {
      RankedTail(s);
      InsertStable(t, s[1..], d);
      InsertStableSkip(t, s, d);
    }
  }

  lemma RankedTail(s: seq<Team>)
    requires AllTallied(s) && Ranked(s) && s != []
    ensures AllTallied(s[1..]) && Ranked(s[1..])
  {
    assert forall k :: 0 <= k < |s| - 1 ==> s[1..][k] == s[k + 1];
  }

  /** `t` goes in front of a ranked `s` whose first differential is smaller. */
  lemma InsertStableFront(t: Team, s: seq<Team>, d: int)
    requires t.pythagorean.Some? && AllTallied(s) && Ranked(s)
    requires s != [] && Differential(t) > Differential(s[0])
    ensures WithDifferential(Insert(t, s), d) == WithDifferential(s, d) + (if Differential(t) == d then [t] else [])
  {
    WithDifferentialCons(t, s, d);
    if Differential(t) == d {
      // every accumulator of `s` has a smaller differential than `t`
      assert forall k :: 0 <= k < |s| ==> Differential(s[k]) <= Differential(s[0]);
      WithDifferentialNone(s, d);
    }
  }

  /** `t` goes past the first element of `s`, so the filter of the rest decides. */
  lemma InsertStableSkip(t: Team, s: seq<Team>, d: int)
    requires t.pythagorean.Some? && AllTallied(s)
    requires s != [] && Differential(t) <= Differential(s[0])
    requires WithDifferential(Insert(t, s[1..]), d) == WithDifferential(s[1..], d) + (if Differential(t) == d then [t] else [])
    ensures WithDifferential(Insert(t, s), d) == WithDifferential(s, d) + (if Differential(t) == d then [t] else [])
  {
    var rest := Insert(t, s[1..]);
    var c0 := if Differential(s[0]) == d then [s[0]] else [];
    var ct := if Differential(t) == d then [t] else [];
    calc {
      WithDifferential(Insert(t, s), d);
      { assert Insert(t, s) == [s[0]] + rest; }
      WithDifferential([s[0]] + rest, d);
      { WithDifferentialCons(s[0], rest, d); }
      c0 + WithDifferential(rest, d);
      c0 + (WithDifferential(s[1..], d) + ct);
      { ConcatAssoc(c0, WithDifferential(s[1..], d), ct); }
      (c0 + WithDifferential(s[1..], d)) + ct;
      { WithDifferentialCons(s[0], s[1..], d); }
      WithDifferential([s[0]] + s[1..], d) + ct;
      { assert [s[0]] + s[1..] == s; }
      WithDifferential(s, d) + ct;
    }
  }

  /** Filtering a sequence with a new first element. */
  lemma {:induction false} WithDifferentialCons(t: Team, s: seq<Team>, d: int)
    requires t.pythagorean.Some? && AllTallied(s)
    ensures AllTallied([t] + s)
    ensures WithDifferential([t] + s, d) == (if Differential(t) == d then [t] else []) + WithDifferential(s, d)
  {
    if s != [] {
      var n := |s| - 1;
      assert ([t] + s)[..|s|] == [t] + s[..n];
      assert ([t] + s)[|s|] == s[n];
      WithDifferentialCons(t, s[..n], d);
    }
  }

  /** No accumulator with differential `d` means nothing to keep. */
  lemma {:induction false} WithDifferentialNone(s: seq<Team>, d: int)
    requires AllTallied(s) && forall k :: 0 <= k < |s| ==> Differential(s[k]) != d
    ensures WithDifferential(s, d) == []
  {
    if s != [] {
      WithDifferentialNone(s[..|s| - 1], d);
    }
  }

  /** Stability: the accumulators with any one differential keep their relative order. */
  lemma {:induction false} SortStable(ts: seq<Team>, d: int)
    requires AllTallied(ts)
    ensures WithDifferential(SortByDifferential(ts), d) == WithDifferential(ts, d)
  {
    if ts != [] {
      var init := ts[..|ts| - 1];
      SortStable(init, d);
      SortRanked(init);
      InsertStable(ts[|ts| - 1], SortByDifferential(init), d);
    }
  }
}
