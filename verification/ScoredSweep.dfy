/**
 A third sweep, written independently: `score_sweep` takes the genuine and the impostor scores as two
 lists, so failures are in none of its denominators.
 */
module ScoredSweep {
  import opened Results
  import opened Rates
  import opened Scores
  import opened ScoreSweep

  /** One line of the readout; no threshold is the accept-none line. */
  datatype Line = Line(threshold: Option<real>, tar: Rate, far: Rate, frr: Rate)

  /** The line for a number of accepted genuine and impostor scores. */
  function LineAt(threshold: Option<real>, ga: nat, ia: nat, genuine: nat, impostor: nat): Line
    requires ga <= genuine
  {
    Line(threshold, Rate(ga, genuine), Rate(ia, impostor), Rate(genuine - ga, genuine))
  }

  /** The readout said without groups or running counts. */
  predicate IsReadout(lines: seq<Line>, genuine: seq<real>, impostor: seq<real>) {
    var cuts := Rank(HigherIsBetter, genuine + impostor);
    && |lines| == |cuts| + 1
    && lines[0] == LineAt(None, 0, 0, |genuine|, |impostor|)
    && forall k :: 0 < k <= |cuts| ==> lines[k] == LineAt(Some(cuts[k - 1]),
         Count(Cut(HigherIsBetter, cuts[k - 1]), genuine), Count(Cut(HigherIsBetter, cuts[k - 1]), impostor),
         |genuine|, |impostor|)
  }

  // --------------------------------------------------------------- grouping

  /** How often each score occurs among the genuine and among the impostor ones counted so far. */
  ghost predicate Grouping(groups: map<real, (nat, nat)>, genuine: multiset<real>, impostor: multiset<real>) {
    && (forall x :: x in groups <==> x in genuine || x in impostor)
    && (forall x :: x in groups ==> groups[x] == (genuine[x], impostor[x]))
  }

  /** `groups.setdefault(value, [0, 0])[label] += 1` */
  function Bump(groups: map<real, (nat, nat)>, value: real, side: nat): map<real, (nat, nat)> {
    var (g, i) := if value in groups then groups[value] else (0, 0);
    groups[value := if side == 0 then (g + 1, i) else (g, i + 1)]
  }

  lemma {:induction false} BumpGroups(groups: map<real, (nat, nat)>, genuine: multiset<real>,
                                      impostor: multiset<real>, value: real)
    requires Grouping(groups, genuine, impostor)
    ensures Grouping(Bump(groups, value, 0), genuine + multiset{value}, impostor)
    ensures Grouping(Bump(groups, value, 1), genuine, impostor + multiset{value})
  {
  }

  /** The inner loop, over one of the lists. */
  method GroupList(groups: map<real, (nat, nat)>, scores: seq<real>, side: nat, ghost genuine: multiset<real>)
    returns (r: map<real, (nat, nat)>)
    requires side < 2 && Grouping(groups, genuine, multiset{}) && (side == 0 ==> genuine == multiset{})
    ensures side == 0 ==> Grouping(r, multiset(scores), multiset{})
    ensures side == 1 ==> Grouping(r, genuine, multiset(scores))
  {
    r := groups;
    for n := 0 to |scores|
      invariant side == 0 ==> Grouping(r, multiset(scores[..n]), multiset{})
      invariant side == 1 ==> Grouping(r, genuine, multiset(scores[..n]))
    {
      assert scores[..n + 1] == scores[..n] + [scores[n]];
      BumpGroups(r, if side == 0 then multiset(scores[..n]) else genuine,
                 if side == 0 then multiset{} else multiset(scores[..n]), scores[n]);
      r := Bump(r, scores[n], side);
    }
    assert scores[..|scores|] == scores;
  }

  /** `enumerate((genuine, impostor))` */
  method GroupScores(genuine: seq<real>, impostor: seq<real>) returns (groups: map<real, (nat, nat)>)
    ensures Grouping(groups, multiset(genuine), multiset(impostor))
  {
    groups := map[];
    for side := 0 to 2
      invariant side == 0 ==> Grouping(groups, multiset{}, multiset{})
      invariant side == 1 ==> Grouping(groups, multiset(genuine), multiset{})
      invariant side == 2 ==> Grouping(groups, multiset(genuine), multiset(impostor))
    {
      groups := GroupList(groups, if side == 0 then genuine else impostor, side,
                          if side == 0 then multiset{} else multiset(genuine));
    }
  }

  // ------------------------------------------------------------------- walk

  /** A boundary that accepts one more distinct score accepts that many more of the list. */
  lemma {:induction false} OneScoreMore(b: Boundary, c: Boundary, score: real, scores: seq<real>)
    requires forall x :: x in scores ==> (Decides(c, x) <==> Decides(b, x) || x == score)
    requires !Decides(b, score)
    ensures Count(c, scores) == Count(b, scores) + multiset(scores)[score]
  {
    if scores != [] {
      assert scores == [scores[0]] + scores[1..];
      assert forall x :: x in scores[1..] ==> x in scores;
      OneScoreMore(b, c, score, scores[1..]);
    }
  }

  lemma {:induction false} NextLine(scores: seq<real>, cuts: seq<real>, k: nat)
    requires Ranked(HigherIsBetter, cuts) && k < |cuts| && forall x :: x in scores ==> x in cuts
    ensures Count(Cut(HigherIsBetter, cuts[k]), scores) == multiset(scores)[cuts[k]]
      + if k == 0 then 0 else Count(Cut(HigherIsBetter, cuts[k - 1]), scores)
  {
    if k == 0 {
      var none := Boundary(cuts[0], Strict(HigherIsBetter));
      FirstCut(HigherIsBetter, cuts);
      NoneCounted(none, scores);
      OneScoreMore(none, Cut(HigherIsBetter, cuts[0]), cuts[0], scores);
    } else {
      NeighbourCuts(HigherIsBetter, cuts, k);
      OneScoreMore(Cut(HigherIsBetter, cuts[k - 1]), Cut(HigherIsBetter, cuts[k]), cuts[k], scores);
    }
  }

  /** The first lines of the readout, with the counts they have reached. */
  predicate Begun(lines: seq<Line>, genuine: seq<real>, impostor: seq<real>, n: nat, ga: nat, ia: nat) {
    var cuts := Rank(HigherIsBetter, genuine + impostor);
    && n <= |cuts| && |lines| == n + 1
    && lines[0] == LineAt(None, 0, 0, |genuine|, |impostor|)
    && (forall k :: 0 < k <= n ==> lines[k] == LineAt(Some(cuts[k - 1]),
         Count(Cut(HigherIsBetter, cuts[k - 1]), genuine), Count(Cut(HigherIsBetter, cuts[k - 1]), impostor),
         |genuine|, |impostor|))
    && ga == (if n == 0 then 0 else Count(Cut(HigherIsBetter, cuts[n - 1]), genuine))
    && ia == (if n == 0 then 0 else Count(Cut(HigherIsBetter, cuts[n - 1]), impostor))
  }

  lemma {:induction false} BegunNext(lines: seq<Line>, genuine: seq<real>, impostor: seq<real>, n: nat, ga: nat,
                                     ia: nat)
    requires Begun(lines, genuine, impostor, n, ga, ia) && n < |Rank(HigherIsBetter, genuine + impostor)|
    ensures var cut := Rank(HigherIsBetter, genuine + impostor)[n];
      var ga', ia' := ga + multiset(genuine)[cut], ia + multiset(impostor)[cut];
      && ga' <= |genuine|
      && Begun(lines + [LineAt(Some(cut), ga', ia', |genuine|, |impostor|)], genuine, impostor, n + 1, ga', ia')
  {
    var cuts := Rank(HigherIsBetter, genuine + impostor);
    NextLine(genuine, cuts, n);
    NextLine(impostor, cuts, n);
  }

  /** `score_sweep`: nothing when a list is empty, else the readout, built by running counts over the groups. */
  method SweepScores(genuine: seq<real>, impostor: seq<real>) returns (lines: seq<Line>)
    ensures genuine == [] || impostor == [] ==> lines == []
    ensures genuine != [] && impostor != [] ==> IsReadout(lines, genuine, impostor)
  {
    if genuine == [] || impostor == [] { return []; }
    var groups := GroupScores(genuine, impostor);
    var acceptedGenuine, acceptedImpostor := 0, 0;
    lines := [LineAt(None, 0, 0, |genuine|, |impostor|)];
    var cuts := Rank(HigherIsBetter, genuine + impostor);
    for n := 0 to |cuts|
      invariant Begun(lines, genuine, impostor, n, acceptedGenuine, acceptedImpostor)
    {
      assert cuts[n] in cuts && cuts[n] in genuine + impostor;
      var (g, i) := groups[cuts[n]];
      BegunNext(lines, genuine, impostor, n, acceptedGenuine, acceptedImpostor);
      acceptedGenuine := acceptedGenuine + g;
      acceptedImpostor := acceptedImpostor + i;
      lines := lines + [LineAt(Some(cuts[n]), acceptedGenuine, acceptedImpostor, |genuine|, |impostor|)];
    }
  }

  // ---------------------------------------------------- beside the main sweep

  /** The scores of one population. */
  function ScoresFor(rows: seq<Attempt>, population: Population): seq<real> {
    if rows == [] then [] else
      (if rows[0].population == population && rows[0].score.Some? then [rows[0].score.value] else [])
      + ScoresFor(rows[1..], population)
  }

  lemma {:induction false} HitsAreCounts(rows: seq<Attempt>, population: Population, b: Boundary)
    ensures Hits(rows, population, b) == Count(b, ScoresFor(rows, population))
    ensures Scored(rows, population) == |ScoresFor(rows, population)|
  {
    if rows != [] {
      HitsAreCounts(rows[1..], population, b);
      var tail := ScoresFor(rows[1..], population);
      if rows[0].score.Some? { assert ([rows[0].score.value] + tail)[1..] == tail; }
      assert [] + tail == tail;
    }
  }

  lemma {:induction false} EveryScoreIsForOne(rows: seq<Attempt>, x: real)
    ensures x in ScoresIn(rows) <==> x in ScoresFor(rows, Genuine) + ScoresFor(rows, Impostor)
  {
    if rows != [] { EveryScoreIsForOne(rows[1..], x); }
  }

  /** The lines are the points of the sweep: the same cuts and counts, over the scored denominators. */
  predicate SameLines(lines: seq<Line>, s: Sweep) {
    && |lines| == |s.points|
    && forall k :: 0 <= k < |lines| ==> SameLine(lines[k], s.points[k], s)
  }

  predicate SameLine(line: Line, p: Point, s: Sweep) {
    && p.genuineAccepted <= s.genuine.scored
    && line == LineAt(p.cut, p.genuineAccepted, p.impostorAccepted, s.genuine.scored, s.impostor.scored)
  }

  /** On the scores of the same attempts, the third sweep has the points of the first. */
  lemma {:induction false} ReadoutIsTheSweep(lines: seq<Line>, s: Sweep, rows: seq<Attempt>)
    requires IsSweepOf(s, rows, HigherIsBetter)
    requires IsReadout(lines, ScoresFor(rows, Genuine), ScoresFor(rows, Impostor))
    ensures SameLines(lines, s)
  {
    var genuine, impostor := ScoresFor(rows, Genuine), ScoresFor(rows, Impostor);
    var cuts := Rank(HigherIsBetter, genuine + impostor);
    forall x ensures x in cuts <==> x in Rank(HigherIsBetter, ScoresIn(rows)) { EveryScoreIsForOne(rows, x); }
    RankedUnique(HigherIsBetter, cuts, Rank(HigherIsBetter, ScoresIn(rows)));
    forall k | 0 <= k < |lines| ensures SameLine(lines[k], s.points[k], s) {
      assert IsPoint(s.points[k], k, rows, HigherIsBetter);
      var b := if k == 0 then Boundary(0.0, AtLeast) else Cut(HigherIsBetter, cuts[k - 1]);
      HitsAreCounts(rows, Genuine, b);
      HitsAreCounts(rows, Impostor, b);
    }
  }

  // -------------------------------------------------------------- its rates

  predicate SameRate(x: Rate, y: Rate) { !Less(x, y) && !Less(y, x) }

  function Frr(s: Sweep, p: Point): Rate { Rate(Missing(s.genuine.planned, p.genuineAccepted), s.genuine.planned) }

  function Missing(planned: nat, accepted: nat): nat { if accepted <= planned then planned - accepted else 0 }

  /** All three rates of a line are the operational ones of the point. */
  predicate SameRates(line: Line, s: Sweep, p: Point) {
    SameRate(line.tar, Tar(s, p)) && SameRate(line.far, Far(s, p)) && SameRate(line.frr, Frr(s, p))
  }

  lemma {:induction false} FullOverMore(scored: nat, planned: nat)
    requires 0 < scored
    ensures SameRate(Rate(scored, scored), Rate(scored, planned)) <==> planned == scored
  {
    if SameRate(Rate(scored, scored), Rate(scored, planned)) { SameFactor(planned, scored, scored); }
  }

  lemma {:induction false} LastLine(lines: seq<Line>, s: Sweep, rows: seq<Attempt>)
    requires IsSweepOf(s, rows, HigherIsBetter) && SameLines(lines, s) && s.genuine.scored > 0 && s.impostor.scored > 0
    ensures var k := |s.points| - 1;
      && (SameRate(lines[k].tar, Tar(s, s.points[k])) <==> s.genuine.failed == 0)
      && (SameRate(lines[k].far, Far(s, s.points[k])) <==> s.impostor.failed == 0)
  {
    LastPointAcceptsTheScored(s, rows);
    HitsArePlanned(rows, Genuine, Boundary(0.0, AtLeast));
    HitsArePlanned(rows, Impostor, Boundary(0.0, AtLeast));
    assert SameLine(lines[|s.points| - 1], s.points[|s.points| - 1], s);
    FullOverMore(s.genuine.scored, s.genuine.planned);
    FullOverMore(s.impostor.scored, s.impostor.planned);
  }

  /** TAR agrees everywhere exactly when no genuine attempt failed, FAR exactly when no impostor attempt did. */
  lemma {:induction false} EachRateAgreesIffItsPopulationIsScored(lines: seq<Line>, s: Sweep, rows: seq<Attempt>)
    requires IsSweepOf(s, rows, HigherIsBetter) && SameLines(lines, s) && s.genuine.scored > 0 && s.impostor.scored > 0
    ensures (forall k :: 0 <= k < |lines| ==> SameRate(lines[k].tar, Tar(s, s.points[k]))) <==> s.genuine.failed == 0
    ensures (forall k :: 0 <= k < |lines| ==> SameRate(lines[k].far, Far(s, s.points[k]))) <==> s.impostor.failed == 0
  {
    LastLine(lines, s, rows);
    forall k | 0 <= k < |lines| ensures SameLine(lines[k], s.points[k], s) { }
  }

  /** All three rates agree at every point exactly when nothing failed in either population. */
  lemma {:induction false} RatesAgreeIffNothingFailed(lines: seq<Line>, s: Sweep, rows: seq<Attempt>)
    requires IsSweepOf(s, rows, HigherIsBetter) && SameLines(lines, s) && s.genuine.scored > 0 && s.impostor.scored > 0
    ensures (forall k :: 0 <= k < |lines| ==> SameRates(lines[k], s, s.points[k]))
      <==> s.genuine.failed == 0 && s.impostor.failed == 0
  {
    LastLine(lines, s, rows);
    if s.genuine.failed == 0 && s.impostor.failed == 0 {
      forall k | 0 <= k < |lines| ensures SameRates(lines[k], s, s.points[k]) {
        assert SameLine(lines[k], s.points[k], s);
      }
    }
  }
}
