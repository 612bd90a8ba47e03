/**
 * The grouping loop (src/calculate.js:37-49): every competitor of every
 * counted match gets an accumulator, keyed by handle and created the first
 * time the handle is met, and the match is pushed onto it. The JavaScript
 * object is modelled as a map from handle to accumulator together with the
 * sequence of its keys in insertion order, which is the order in which
 * `Object.values` lists them.
 */
module Grouping {
  import opened Wrappers
  import opened Season

  /** One step of the grouping: a competitor of a match, and that match. */
  type Visit = (Competitor, Match)

  /** The handles of `cs`, position by position. */
  function HandlesOf(cs: seq<Competitor>): seq<string>
  {
    seq(|cs|, k requires 0 <= k < |cs| => cs[k].handle)
  }

  /** No handle occurs twice in `hs`. */
  predicate Distinct(hs: seq<string>)
  {
    forall a, b :: 0 <= a < b < |hs| ==> hs[a] != hs[b]
  }

  /** The visits of match `m` for its competitors `cs`, in order. */
  function VisitsOf(cs: seq<Competitor>, m: Match): seq<Visit>
  {
    if cs == [] then [] else VisitsOf(cs[..|cs| - 1], m) + [(cs[|cs| - 1], m)]
  }

  /** The visits of the grouping loop over `ms`, in the order the two nested loops make them. */
  function Visits(ms: seq<Match>): seq<Visit>
  {
    if ms == [] then [] else Visits(ms[..|ms| - 1]) + VisitsOf(ms[|ms| - 1].competitors, ms[|ms| - 1])
  }

  /** Each handle met in `vs` once, with the competitor record met first, in order of first appearance. */
  function FirstSeen(vs: seq<Visit>): seq<Competitor>
  {
    if vs == [] then []
    else
      var s := FirstSeen(vs[..|vs| - 1]);
      if vs[|vs| - 1].0.handle in HandlesOf(s) then s else s + [vs[|vs| - 1].0]
  }

  /** The matches pushed onto the accumulator of handle `h` by the visits `vs`, in order. */
  function PushedTo(h: string, vs: seq<Visit>): seq<Match>
  {
    if vs == [] then []
    else PushedTo(h, vs[..|vs| - 1]) + (if vs[|vs| - 1].0.handle == h then [vs[|vs| - 1].1] else [])
  }

  /** The matches in which `h` takes part, in their order. */
  function Appearing(h: string, ms: seq<Match>): (r: seq<Match>)
    ensures forall m :: m in r <==> m in ms && h in HandlesOf(m.competitors)
  {
    if ms == [] then []
    else
      assert ms == ms[..|ms| - 1] + [ms[|ms| - 1]];
      Appearing(h, ms[..|ms| - 1]) + (if h in HandlesOf(ms[|ms| - 1].competitors) then [ms[|ms| - 1]] else [])
  }

  /** `h` is the handle of some competitor of some match of `ms`. */
  predicate Appears(h: string, ms: seq<Match>)
  {
    exists m :: m in ms && h in HandlesOf(m.competitors)
  }

  /** No match of `ms` lists two competitors with one handle. */
  predicate DistinctHandlesPerMatch(ms: seq<Match>)
  {
    forall k :: 0 <= k < |ms| ==> Distinct(HandlesOf(ms[k].competitors))
  }

  /**
   * The accumulators after the visits `vs`, as the loop body builds them: the
   * accumulator of the visiting competitor's handle is created from that
   * competitor when the handle is new, and the match is appended to it.
   */
  function Accumulators(vs: seq<Visit>): map<string, Team>
  {
    if vs == [] then map[]
    else
      var teams := Accumulators(vs[..|vs| - 1]);
      var team := vs[|vs| - 1].0;
      var acc := if team.handle in teams then teams[team.handle] else Team(team, [], None);
      teams[team.handle := acc.(matches := acc.matches + [vs[|vs| - 1].1])]
  }

  /**
   * `teams`, with keys `order` in insertion order, is the JavaScript object
   * the grouping loop holds after the visits `vs`.
   */
  ghost predicate Grouped(teams: map<string, Team>, order: seq<string>, vs: seq<Visit>)
  {
    teams == Accumulators(vs) && order == HandlesOf(FirstSeen(vs))
  }

  /**
   * The body of the inner loop (src/calculate.js:40-47): create the
   * accumulator of `team` if its handle is new, then push `m` onto it.
   */
  method Push(teams0: map<string, Team>, order0: seq<string>, team: Competitor, m: Match, ghost vs: seq<Visit>)
    returns (teams: map<string, Team>, order: seq<string>)
    requires Grouped(teams0, order0, vs)
    ensures Grouped(teams, order, vs + [(team, m)])
  {
    teams, order := teams0, order0;
    ghost var after := vs + [(team, m)];
    assert after[..|vs|] == vs && after[|vs|] == (team, m);
    AccumulatorKeys(vs);
    if team.handle !in teams {
      teams := teams[team.handle := Team(team, [], None)];
      assert HandlesOf(FirstSeen(vs) + [team]) == order + [team.handle];
      order := order + [team.handle];
    }
    var acc := teams[team.handle];
    teams := teams[team.handle := acc.(matches := acc.matches + [m])];
  }

  /**
   * The inner loop of the grouping (src/calculate.js:39-48): push `m` onto the
   * accumulator of each of its competitors in turn.
   */
  method PushMatch(teams0: map<string, Team>, order0: seq<string>, m: Match, ghost before: seq<Visit>)
    returns (teams: map<string, Team>, order: seq<string>)
    requires Grouped(teams0, order0, before)
    ensures Grouped(teams, order, before + VisitsOf(m.competitors, m))
  {
    teams, order := teams0, order0;
    ghost var visited := before;
    VisitsOfStep(m.competitors, 0, m);
    assert visited == before + [];
    var j := 0;
    while j < |m.competitors|
      invariant 0 <= j <= |m.competitors|
      invariant visited == before + VisitsOf(m.competitors[..j], m)
      invariant Grouped(teams, order, visited)
    {
      VisitsOfStep(m.competitors, j + 1, m);
      teams, order := Push(teams, order, m.competitors[j], m, visited);
      assert before + VisitsOf(m.competitors[..j + 1], m) == visited + [(m.competitors[j], m)];
      visited := visited + [(m.competitors[j], m)];
      j := j + 1;
    }
    assert m.competitors[..j] == m.competitors;
  }

  /**
   * The grouping loop. It returns the accumulators and their keys in
   * insertion order: the keys are the handles in order of first appearance,
   * each accumulator holds the competitor record met first and the matches
   * pushed onto it, and no tally is set yet.
   */
  method GroupByHandle(matches: seq<Match>) returns (teams: map<string, Team>, order: seq<string>)
    ensures teams == Accumulators(Visits(matches))
    ensures order == HandlesOf(FirstSeen(Visits(matches)))
    ensures forall h :: h in teams <==> h in order
    ensures forall c :: c in FirstSeen(Visits(matches)) ==> c.handle in teams && teams[c.handle].info == c
    ensures forall h :: h in teams ==> teams[h].matches == PushedTo(h, Visits(matches)) && teams[h].pythagorean == None
  {
    teams, order := map[], [];
    var i := 0;
    while i < |matches|
      invariant 0 <= i <= |matches|
      invariant Grouped(teams, order, Visits(matches[..i]))
    {
      VisitsStep(matches, i);
      teams, order := PushMatch(teams, order, matches[i], Visits(matches[..i]));
      i := i + 1;
    }
    assert matches[..i] == matches;
    AccumulatorKeys(Visits(matches));
    AccumulatorContents(Visits(matches));
  }

  lemma VisitsStep(ms: seq<Match>, i: nat)
    requires i < |ms|
    ensures Visits(ms[..i + 1]) == Visits(ms[..i]) + VisitsOf(ms[i].competitors, ms[i])
  {
    assert ms[..i + 1][..i] == ms[..i];
  }

  lemma VisitsOfStep(cs: seq<Competitor>, j: nat, m: Match)
    requires j <= |cs|
    ensures j == 0 ==> VisitsOf(cs[..j], m) == []
    ensures 0 < j ==> VisitsOf(cs[..j], m) == VisitsOf(cs[..j - 1], m) + [(cs[j - 1], m)]
  {
    if 0 < j {
      assert cs[..j][..j - 1] == cs[..j - 1];
    }
  }

  /** The keys of the accumulators are the handles met, listed in `HandlesOf(FirstSeen(vs))`. */
  lemma {:induction false} AccumulatorKeys(vs: seq<Visit>)
    ensures forall h :: h in Accumulators(vs) <==> h in HandlesOf(FirstSeen(vs))
  {
    if vs != [] {
      var n := |vs| - 1;
      AccumulatorKeys(vs[..n]);
      var s := FirstSeen(vs[..n]);
      if vs[n].0.handle !in HandlesOf(s) {
        assert HandlesOf(s + [vs[n].0]) == HandlesOf(s) + [vs[n].0.handle];
      }
    }
  }

  /** Each accumulator is filed under its own competitor's handle and holds at least one match. */
  lemma {:induction false} AccumulatorHandles(vs: seq<Visit>)
    ensures forall h :: h in Accumulators(vs) ==>
      Accumulators(vs)[h].info.handle == h && |Accumulators(vs)[h].matches| > 0
  {
    if vs != [] {
      AccumulatorHandles(vs[..|vs| - 1]);
    }
  }

  /**
   * Each accumulator holds the competitor record its handle was first met
   * with and the matches pushed onto that handle, and has no tally yet.
   */
  lemma {:induction false} AccumulatorContents(vs: seq<Visit>)
    ensures forall c :: c in FirstSeen(vs) ==> c.handle in Accumulators(vs) && Accumulators(vs)[c.handle].info == c
    ensures forall h :: h in Accumulators(vs) ==>
      Accumulators(vs)[h].matches == PushedTo(h, vs) && Accumulators(vs)[h].pythagorean == None
  {
    if vs != [] {
      var n := |vs| - 1;
      AccumulatorContents(vs[..n]);
      AccumulatorKeys(vs[..n]);
      var s := FirstSeen(vs[..n]);
      var team := vs[n].0;
      forall c | c in s ensures c.handle in HandlesOf(s) {
        var k :| 0 <= k < |s| && s[k] == c;
        assert HandlesOf(s)[k] == c.handle;
      }
      assert forall h :: h !in Accumulators(vs[..n]) ==> PushedTo(h, vs[..n]) == [] by {
        forall h | h !in Accumulators(vs[..n]) ensures PushedTo(h, vs[..n]) == [] {
          PushedToUnseen(h, vs[..n]);
        }
      }
    }
  }

  /** No match is pushed onto a handle that was never met. */
  lemma {:induction false} PushedToUnseen(h: string, vs: seq<Visit>)
    requires h !in Accumulators(vs)
    ensures PushedTo(h, vs) == []
  {
    if vs != [] {
      var n := |vs| - 1;
      PushedToUnseen(h, vs[..n]);
    }
  }

  /** The visits of one match are its competitors, each paired with it. */
  lemma {:induction false} VisitsOfMembers(cs: seq<Competitor>, m: Match)
    ensures forall v :: v in VisitsOf(cs, m) <==> v.1 == m && v.0 in cs
  {
    if cs != [] {
      var n := |cs| - 1;
      VisitsOfMembers(cs[..n], m);
      assert cs == cs[..n] + [cs[n]];
    }
  }

  /** The visits of the grouping loop are exactly the (competitor, match) pairs of `ms`. */
  lemma {:induction false} VisitsMembers(ms: seq<Match>)
    ensures forall v :: v in Visits(ms) <==> v.1 in ms && v.0 in v.1.competitors
  {
    if ms != [] {
      var n := |ms| - 1;
      VisitsMembers(ms[..n]);
      VisitsOfMembers(ms[n].competitors, ms[n]);
      assert ms == ms[..n] + [ms[n]];
    }
  }

  /** Every handle met by the visits is listed once, and only those are. */
  lemma {:induction false} FirstSeenCovers(vs: seq<Visit>)
    ensures Distinct(HandlesOf(FirstSeen(vs)))
    ensures forall h :: h in HandlesOf(FirstSeen(vs)) <==> exists v :: v in vs && v.0.handle == h
  {
    if vs != [] {
      var n := |vs| - 1;
      FirstSeenCovers(vs[..n]);
      assert vs == vs[..n] + [vs[n]];
      var s := FirstSeen(vs[..n]);
      if vs[n].0.handle !in HandlesOf(s) {
        assert HandlesOf(s + [vs[n].0]) == HandlesOf(s) + [vs[n].0.handle];
      }
    }
  }

  /**
   * Each listed competitor record is the one of the first visit with its
   * handle: the grouping keeps the record it met first.
   */
  lemma {:induction false} FirstSeenIsFirst(vs: seq<Visit>)
    ensures forall c :: c in FirstSeen(vs) ==>
      exists k :: 0 <= k < |vs| && vs[k].0 == c && forall j :: 0 <= j < k ==> vs[j].0.handle != c.handle
  {
    if vs != [] {
      var n := |vs| - 1;
      var init := vs[..n];
      var s := FirstSeen(init);
      FirstSeenIsFirst(init);
      FirstSeenCovers(init);
      forall c | c in FirstSeen(vs)
        ensures exists k :: 0 <= k < |vs| && vs[k].0 == c && forall j :: 0 <= j < k ==> vs[j].0.handle != c.handle
      {
        if c in s {
          var k :| 0 <= k < n && init[k].0 == c && forall j :: 0 <= j < k ==> init[j].0.handle != c.handle;
          assert forall j :: 0 <= j < k ==> vs[j] == init[j];
        } else {
          FirstVisitOfNewHandle(vs, c);
        }
      }
    }
  }

  /** A visit whose handle no earlier visit has is the first visit with that handle. */
  lemma FirstVisitOfNewHandle(vs: seq<Visit>, c: Competitor)
    requires vs != [] && c == vs[|vs| - 1].0
    requires !exists v :: v in vs[..|vs| - 1] && v.0.handle == c.handle
    ensures forall j :: 0 <= j < |vs| - 1 ==> vs[j].0.handle != c.handle
  {
    forall j | 0 <= j < |vs| - 1 ensures vs[j].0.handle != c.handle {
      assert vs[..|vs| - 1][j] == vs[j];
    }
  }

  /**
   * The order of first appearance only grows: the teams met in a prefix of
   * the visits keep their places when more visits follow.
   */
  lemma {:induction false} FirstSeenPrefix(vs: seq<Visit>, p: nat)
    requires p <= |vs|
    ensures FirstSeen(vs[..p]) <= FirstSeen(vs)
  {
    if p < |vs| {
      var n := |vs| - 1;
      assert vs[..n][..p] == vs[..p];
      FirstSeenPrefix(vs[..n], p);
    } else {
      assert vs[..p] == vs;
    }
  }

  /** Pushing the visits of `a` and then those of `b` pushes onto each handle in that order. */
  lemma {:induction false} PushedToAppend(h: string, a: seq<Visit>, b: seq<Visit>)
    ensures PushedTo(h, a + b) == PushedTo(h, a) + PushedTo(h, b)
  {
    if b == [] {
      assert a + b == a;
    } else {
      var n := |b| - 1;
      var last := if b[n].0.handle == h then [b[n].1] else [];
      calc {
        PushedTo(h, a + b);
        { assert (a + b)[..|a| + n] == a + b[..n] && (a + b)[|a| + n] == b[n]; }
        PushedTo(h, a + b[..n]) + last;
        { PushedToAppend(h, a, b[..n]); }
        (PushedTo(h, a) + PushedTo(h, b[..n])) + last;
        { ConcatAssoc(PushedTo(h, a), PushedTo(h, b[..n]), last); }
        PushedTo(h, a) + (PushedTo(h, b[..n]) + last);
        PushedTo(h, a) + PushedTo(h, b);
      }
    }
  }

  /** A match whose competitors have distinct handles is pushed once onto each of them. */
  lemma {:induction false} PushedToOneMatch(h: string, cs: seq<Competitor>, m: Match)
    requires Distinct(HandlesOf(cs))
    ensures PushedTo(h, VisitsOf(cs, m)) == if h in HandlesOf(cs) then [m] else []
  {
    if cs != [] {
      var n := |cs| - 1;
      var hs := HandlesOf(cs);
      assert hs == HandlesOf(cs[..n]) + [cs[n].handle];
      assert forall a :: 0 <= a < n ==> HandlesOf(cs[..n])[a] == hs[a];
      PushedToOneMatch(h, cs[..n], m);
      var vs := VisitsOf(cs, m);
      assert vs[..|vs| - 1] == VisitsOf(cs[..n], m);
      if cs[n].handle == h {
        forall a | 0 <= a < n ensures HandlesOf(cs[..n])[a] != h {
          assert hs[a] != hs[n];
        }
      }
    }
  }

  /**
   * When no match lists one handle twice, the matches pushed onto a handle
   * are exactly the matches that team takes part in, in their order.
   */
  lemma {:induction false} PushedToIsAppearing(h: string, ms: seq<Match>)
    requires DistinctHandlesPerMatch(ms)
    ensures PushedTo(h, Visits(ms)) == Appearing(h, ms)
  {
    if ms != [] {
      var n := |ms| - 1;
      assert DistinctHandlesPerMatch(ms[..n]);
      PushedToIsAppearing(h, ms[..n]);
      PushedToAppend(h, Visits(ms[..n]), VisitsOf(ms[n].competitors, ms[n]));
      PushedToOneMatch(h, ms[n].competitors, ms[n]);
    }
  }

  /** Every match pushed onto `h` comes from a visit of a competitor with handle `h`. */
  lemma {:induction false} PushedToFrom(h: string, vs: seq<Visit>)
    ensures forall m :: m in PushedTo(h, vs) ==> (exists v :: v in vs && v.0.handle == h && v.1 == m)
  {
    if vs != [] {
      var n := |vs| - 1;
      PushedToFrom(h, vs[..n]);
      assert vs == vs[..n] + [vs[n]];
    }
  }
}
