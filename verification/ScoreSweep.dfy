/**
 The tie-atomic score sweep: an incremental walk over the distinct raw scores, best first,
 whose every point is a direct count over the attempts.
 */
module ScoreSweep {
  import opened Results
  import opened Rates
  import opened Scores

  datatype Population = Genuine | Impostor

  /** One planned attempt; a failure has no score. */
  datatype Attempt = Attempt(pair: string, release: string, population: Population, score: Option<real>)

  datatype Operational = Operational(planned: nat, scored: nat, failed: nat)

  /** No cut is the accept-none boundary. */
  datatype Point = Point(ordinal: nat, cut: Option<real>, genuineAccepted: nat, impostorAccepted: nat, acceptsAll: bool)

  datatype Sweep = Sweep(direction: Direction, genuine: Operational, impostor: Operational, points: seq<Point>)

  datatype SweepError =
    | EmptyPopulation | RepeatedPair | NoGenuine | NoImpostor
    | TarDecreased | FarDecreased | FrrIncreased | RatesDoNotSum
    | BadReleases | UnknownRelease | BadTarget | NoEligiblePoint

  // ------------------------------------------------------------ direct counts

  /** Attempts of a population that carry a score the boundary accepts. */
  function Hits(rows: seq<Attempt>, population: Population, b: Boundary): nat {
    if rows == [] then 0 else
      (if rows[0].population == population && rows[0].score.Some? && Decides(b, rows[0].score.value) then 1 else 0)
      + Hits(rows[1..], population, b)
  }

  function Planned(rows: seq<Attempt>, population: Population): nat {
    if rows == [] then 0 else (if rows[0].population == population then 1 else 0) + Planned(rows[1..], population)
  }

  function Scored(rows: seq<Attempt>, population: Population): nat {
    if rows == [] then 0 else
      (if rows[0].population == population && rows[0].score.Some? then 1 else 0) + Scored(rows[1..], population)
  }

  function ScoresIn(rows: seq<Attempt>): seq<real> {
    if rows == [] then [] else (if rows[0].score.Some? then [rows[0].score.value] else []) + ScoresIn(rows[1..])
  }

  function Cut(dir: Direction, score: real): Boundary { Boundary(score, Inclusive(dir)) }

  predicate DistinctPairs(rows: seq<Attempt>) {
    forall i, j :: 0 <= i < j < |rows| ==> rows[i].pair != rows[j].pair
  }

  predicate IsOperational(o: Operational, rows: seq<Attempt>, population: Population) {
    o.planned == Planned(rows, population) && o.scored == Scored(rows, population) && o.failed == o.planned - o.scored
  }

  /** The point at rank `k`: the number of distinct scores it accepts. */
  predicate IsPoint(p: Point, k: nat, rows: seq<Attempt>, dir: Direction) {
    var ranked := Rank(dir, ScoresIn(rows));
    && p.ordinal == k <= |ranked| && (p.acceptsAll <==> k == |ranked|)
    && (k == 0 ==> p.cut == None && p.genuineAccepted == 0 && p.impostorAccepted == 0)
    && (k > 0 ==> p.cut == Some(ranked[k - 1])
                  && p.genuineAccepted == Hits(rows, Genuine, Cut(dir, ranked[k - 1]))
                  && p.impostorAccepted == Hits(rows, Impostor, Cut(dir, ranked[k - 1])))
  }

  /** The sweep said without the walk: one point per distinct score, each a direct count. */
  predicate IsSweepOf(s: Sweep, rows: seq<Attempt>, dir: Direction) {
    && s.direction == dir
    && IsOperational(s.genuine, rows, Genuine) && IsOperational(s.impostor, rows, Impostor)
    && s.genuine.planned > 0 && s.impostor.planned > 0
    && |s.points| == |Rank(dir, ScoresIn(rows))| + 1
    && forall k :: 0 <= k < |s.points| ==> IsPoint(s.points[k], k, rows, dir)
  }

  // ------------------------------------------------------------ ties and groups

  /** `grouped[score]`: the attempts with exactly this score, in row order. */
  function WithScore(rows: seq<Attempt>, score: real): seq<Attempt> {
    if rows == [] then [] else
      (if rows[0].score == Some(score) then [rows[0]] else []) + WithScore(rows[1..], score)
  }

  lemma {:induction false} WithScoreAppend(rows: seq<Attempt>, a: Attempt, score: real)
    ensures WithScore(rows + [a], score) == WithScore(rows, score) + if a.score == Some(score) then [a] else []
  {
    var more := rows + [a];
    if rows == [] {
      assert more[1..] == [] && WithScore(more[1..], score) == [];
    } else {
      assert more[0] == rows[0] && more[1..] == rows[1..] + [a];
      WithScoreAppend(rows[1..], a, score);
      var first := if rows[0].score == Some(score) then [rows[0]] else [];
      var last := if a.score == Some(score) then [a] else [];
      assert WithScore(more, score) == first + (WithScore(rows[1..], score) + last);
    }
  }

  lemma {:induction false} ScoreOfRow(rows: seq<Attempt>, i: nat)
    requires i < |rows| && rows[i].score.Some?
    ensures rows[i].score.value in ScoresIn(rows)
  {
    if i > 0 { ScoreOfRow(rows[1..], i - 1); }
  }

  lemma {:induction false} RowOfScore(rows: seq<Attempt>, score: real)
    ensures score in ScoresIn(rows) <==> WithScore(rows, score) != []
  {
    if rows != [] { RowOfScore(rows[1..], score); }
  }

  /** Moving the cut to the next distinct score adds exactly the tied group. */
  lemma {:induction false} NextCut(rows: seq<Attempt>, population: Population, b: Boundary, c: Boundary, score: real)
    requires forall x :: x in ScoresIn(rows) ==> (Decides(c, x) <==> Decides(b, x) || x == score)
    requires !Decides(b, score)
    ensures Hits(rows, population, c) == Hits(rows, population, b) + Planned(WithScore(rows, score), population)
  {
    if rows != [] {
      ScoreTail(rows);
      NextCut(rows[1..], population, b, c, score);
      if rows[0].score.Some? { ScoreOfRow(rows, 0); }
      var tied := WithScore(rows[1..], score);
      assert ([rows[0]] + tied)[1..] == tied && [] + tied == tied;
    }
  }

  lemma {:induction false} ScoreTail(rows: seq<Attempt>)
    requires rows != []
    ensures forall x :: x in ScoresIn(rows[1..]) ==> x in ScoresIn(rows)
  {
  }

  /** Between two neighbours in rank order there is no other score. */
  lemma {:induction false} NeighbourCuts(dir: Direction, ranked: seq<real>, k: nat)
    requires Ranked(dir, ranked) && 0 < k < |ranked|
    ensures forall x :: x in ranked ==>
      (Decides(Cut(dir, ranked[k]), x) <==> Decides(Cut(dir, ranked[k - 1]), x) || x == ranked[k])
    ensures !Decides(Cut(dir, ranked[k - 1]), ranked[k])
  {
  }

  /** The boundary that accepts only the best score, against the one that accepts nothing. */
  lemma {:induction false} FirstCut(dir: Direction, ranked: seq<real>)
    requires Ranked(dir, ranked) && ranked != []
    ensures forall x :: x in ranked ==>
      (Decides(Cut(dir, ranked[0]), x) <==> Decides(Boundary(ranked[0], Strict(dir)), x) || x == ranked[0])
    ensures forall x :: x in ranked ==> !Decides(Boundary(ranked[0], Strict(dir)), x)
  {
  }

  lemma {:induction false} NothingHit(rows: seq<Attempt>, population: Population, b: Boundary)
    requires forall x :: x in ScoresIn(rows) ==> !Decides(b, x)
    ensures Hits(rows, population, b) == 0
  {
    if rows != [] {
      ScoreTail(rows);
      NothingHit(rows[1..], population, b);
      if rows[0].score.Some? { ScoreOfRow(rows, 0); }
    }
  }

  /** The accepted count grows by exactly the tied group from one point to the next. */
  lemma {:induction false} TieMovesTogether(rows: seq<Attempt>, population: Population, dir: Direction, k: nat)
    requires k < |Rank(dir, ScoresIn(rows))|
    ensures var ranked := Rank(dir, ScoresIn(rows));
      Hits(rows, population, Cut(dir, ranked[k])) ==
        (if k == 0 then 0 else Hits(rows, population, Cut(dir, ranked[k - 1])))
        + Planned(WithScore(rows, ranked[k]), population)
  {
    var ranked := Rank(dir, ScoresIn(rows));
    if k == 0 {
      var none := Boundary(ranked[0], Strict(dir));
      FirstCut(dir, ranked);
      NothingHit(rows, population, none);
      NextCut(rows, population, none, Cut(dir, ranked[0]), ranked[0]);
    } else {
      NeighbourCuts(dir, ranked, k);
      NextCut(rows, population, Cut(dir, ranked[k - 1]), Cut(dir, ranked[k]), ranked[k]);
    }
  }

  // -------------------------------------------------------------- the method

  /** `_operational`. */
  function Operate(rows: seq<Attempt>, population: Population): (o: Operational)
    ensures IsOperational(o, rows, population)
  {
    HitsArePlanned(rows, population, Boundary(0.0, AtLeast));
    var planned, scored := Planned(rows, population), Scored(rows, population);
    Operational(planned, scored, planned - scored)
  }

  ghost predicate Grouped(grouped: map<real, seq<Attempt>>, rows: seq<Attempt>) {
    && (forall s :: s in grouped <==> WithScore(rows, s) != [])
    && (forall s :: s in grouped ==> grouped[s] == WithScore(rows, s))
  }

  lemma {:induction false} GroupGrows(grouped: map<real, seq<Attempt>>, rows: seq<Attempt>, a: Attempt)
    requires Grouped(grouped, rows)
    ensures a.score.None? ==> Grouped(grouped, rows + [a])
    ensures a.score.Some? ==>
      var s := a.score.value;
      Grouped(grouped[s := (if s in grouped then grouped[s] else []) + [a]], rows + [a])
  {
    forall s: real ensures WithScore(rows + [a], s) == WithScore(rows, s) + if a.score == Some(s) then [a] else [] {
      WithScoreAppend(rows, a, s);
    }
  }

  /** The dictionary of tied attempts. */
  method Group(rows: seq<Attempt>) returns (grouped: map<real, seq<Attempt>>)
    ensures forall s :: s in grouped <==> s in ScoresIn(rows)
    ensures forall s :: s in grouped ==> grouped[s] == WithScore(rows, s)
  {
    grouped := map[];
    for i := 0 to |rows|
      invariant Grouped(grouped, rows[..i])
    {
      assert rows[..i + 1] == rows[..i] + [rows[i]];
      GroupGrows(grouped, rows[..i], rows[i]);
      if rows[i].score.Some? {
        var s := rows[i].score.value;
        grouped := grouped[s := (if s in grouped then grouped[s] else []) + [rows[i]]];
      }
    }
    assert rows[..|rows|] == rows;
    forall s: real ensures s in ScoresIn(rows) <==> WithScore(rows, s) != [] {
      RowOfScore(rows, s);
    }
  }

  /** What a body of attempts needs to be swept. */
  predicate Sweepable(rows: seq<Attempt>) {
    rows != [] && DistinctPairs(rows) && Planned(rows, Genuine) > 0 && Planned(rows, Impostor) > 0
  }

  /** `build_score_sweep`: walk every distinct score once, moving each tied group as one. */
  method BuildScoreSweep(rows: seq<Attempt>, dir: Direction) returns (r: Result<Sweep, SweepError>)
    ensures r.Ok? <==> Sweepable(rows)
    ensures r.Ok? ==> IsSweepOf(r.value, rows, dir)
  {
    if rows == [] { return Err(EmptyPopulation); }
    if !DistinctPairs(rows) { return Err(RepeatedPair); }
    var genuine := Operate(rows, Genuine);
    var impostor := Operate(rows, Impostor);
    if genuine.planned == 0 { return Err(NoGenuine); }
    if impostor.planned == 0 { return Err(NoImpostor); }
    var points := WalkScores(rows, dir);
    var sweep := Sweep(dir, genuine, impostor, points);
    var complaint := VerifyMonotonicity(sweep, rows);
    if complaint.Some? { assert false; }
    r := Ok(sweep);
  }

  /** The points up to rank `k`, and the counts the walk has reached. */
  predicate PointsSoFar(points: seq<Point>, k: nat, rows: seq<Attempt>, dir: Direction, genuine: nat, impostor: nat) {
    && |points| == k + 1
    && (forall i :: 0 <= i < |points| ==> IsPoint(points[i], i, rows, dir))
    && genuine == points[k].genuineAccepted && impostor == points[k].impostorAccepted
  }

  lemma {:induction false} PointAdded(points: seq<Point>, k: nat, rows: seq<Attempt>, dir: Direction,
                                      genuine: nat, impostor: nat)
    requires PointsSoFar(points, k, rows, dir, genuine, impostor) && k < |Rank(dir, ScoresIn(rows))|
    ensures var unique := Rank(dir, ScoresIn(rows));
      var tied := WithScore(rows, unique[k]);
      var g, m := genuine + Planned(tied, Genuine), impostor + Planned(tied, Impostor);
      PointsSoFar(points + [Point(k + 1, Some(unique[k]), g, m, k + 1 == |unique|)], k + 1, rows, dir, g, m)
  {
    assert IsPoint(points[k], k, rows, dir);
    TieMovesTogether(rows, Genuine, dir, k);
    TieMovesTogether(rows, Impostor, dir, k);
  }

  method WalkScores(rows: seq<Attempt>, dir: Direction) returns (points: seq<Point>)
    ensures |points| == |Rank(dir, ScoresIn(rows))| + 1
    ensures forall k :: 0 <= k < |points| ==> IsPoint(points[k], k, rows, dir)
  {
    var grouped := Group(rows);
    var unique := Rank(dir, ScoresIn(rows));
    points := [Point(0, None, 0, 0, unique == [])];
    var genuineAccepted: nat, impostorAccepted: nat := 0, 0;
    for k := 0 to |unique|
      invariant PointsSoFar(points, k, rows, dir, genuineAccepted, impostorAccepted)
    {
      assert unique[k] in unique;
      var tied := grouped[unique[k]];
      PointAdded(points, k, rows, dir, genuineAccepted, impostorAccepted);
      genuineAccepted := genuineAccepted + Planned(tied, Genuine);
      impostorAccepted := impostorAccepted + Planned(tied, Impostor);
      points := points + [Point(k + 1, Some(unique[k]), genuineAccepted, impostorAccepted, k + 1 == |unique|)];
    }
  }

  function Tar(s: Sweep, p: Point): Rate { Rate(p.genuineAccepted, s.genuine.planned) }

  function Far(s: Sweep, p: Point): Rate { Rate(p.impostorAccepted, s.impostor.planned) }

  /** Comparison of two exact fractions with positive denominators. */
  predicate Less(x: Rate, y: Rate) { x.numerator * y.denominator < y.numerator * x.denominator }

  lemma {:induction false} OverOneDenominator(a: nat, b: nat, d: nat)
    requires d > 0
    ensures Less(Rate(a, d), Rate(b, d)) <==> a < b
  {
  }

  /** `_verify_monotonicity`, which never finds anything to complain about. */
  method VerifyMonotonicity(s: Sweep, ghost rows: seq<Attempt>) returns (complaint: Option<SweepError>)
    requires IsSweepOf(s, rows, s.direction)
    ensures complaint == None
  {
    var previous := s.points[0];
    for k := 1 to |s.points|
      invariant previous == s.points[k - 1]
    {
      var current := s.points[k];
      PointsGrow(s, rows, k - 1, k);
      AcceptedArePlanned(s, rows, k);
      OverOneDenominator(current.genuineAccepted, previous.genuineAccepted, s.genuine.planned);
      OverOneDenominator(current.impostorAccepted, previous.impostorAccepted, s.impostor.planned);
      if Less(Tar(s, current), Tar(s, previous)) { return Some(TarDecreased); }
      if Less(Far(s, current), Far(s, previous)) { return Some(FarDecreased); }
      var planned := s.genuine.planned;
      var frr := Rate(planned - current.genuineAccepted, planned);
      var frrBefore := Rate(planned - PreviousAccepted(s, rows, k), planned);
      OverOneDenominator(frrBefore.numerator, frr.numerator, planned);
      if Less(frrBefore, frr) { return Some(FrrIncreased); }
      SumOfRates(current.genuineAccepted, planned);
      if current.genuineAccepted * planned + frr.numerator * planned != planned * planned {
        return Some(RatesDoNotSum);
      }
      previous := current;
    }
    complaint := None;
  }

  function PreviousAccepted(s: Sweep, ghost rows: seq<Attempt>, k: nat): (n: nat)
    requires IsSweepOf(s, rows, s.direction) && 0 < k < |s.points|
    ensures n == s.points[k - 1].genuineAccepted <= s.genuine.planned
  {
    AcceptedArePlanned(s, rows, k - 1);
    s.points[k - 1].genuineAccepted
  }

  lemma {:induction false} SumOfRates(a: nat, planned: nat)
    requires a <= planned
    ensures a * planned + (planned - a) * planned == planned * planned
  {
  }

  lemma {:induction false} HitsArePlanned(rows: seq<Attempt>, population: Population, b: Boundary)
    ensures Hits(rows, population, b) <= Scored(rows, population) <= Planned(rows, population)
  {
    if rows != [] { HitsArePlanned(rows[1..], population, b); }
  }

  lemma {:induction false} AcceptedArePlanned(s: Sweep, rows: seq<Attempt>, k: nat)
    requires IsSweepOf(s, rows, s.direction) && k < |s.points|
    ensures s.points[k].genuineAccepted <= s.genuine.scored <= s.genuine.planned
    ensures s.points[k].impostorAccepted <= s.impostor.scored <= s.impostor.planned
  {
    var ranked := Rank(s.direction, ScoresIn(rows));
    var b := if k == 0 then Boundary(0.0, AtLeast) else Cut(s.direction, ranked[k - 1]);
    HitsArePlanned(rows, Genuine, b);
    HitsArePlanned(rows, Impostor, b);
    assert IsPoint(s.points[k], k, rows, s.direction);
  }

  // ------------------------------------------------------- what the points are

  lemma {:induction false} GroupIsCounted(rows: seq<Attempt>)
    ensures Planned(rows, Genuine) + Planned(rows, Impostor) == |rows|
  {
    if rows != [] { GroupIsCounted(rows[1..]); }
  }

  lemma {:induction false} NextPointGrows(s: Sweep, rows: seq<Attempt>, k: nat)
    requires IsSweepOf(s, rows, s.direction) && k + 1 < |s.points|
    ensures s.points[k].genuineAccepted <= s.points[k + 1].genuineAccepted
    ensures s.points[k].impostorAccepted <= s.points[k + 1].impostorAccepted
    ensures s.points[k].genuineAccepted + s.points[k].impostorAccepted
      < s.points[k + 1].genuineAccepted + s.points[k + 1].impostorAccepted
  {
    var ranked := Rank(s.direction, ScoresIn(rows));
    var tied := WithScore(rows, ranked[k]);
    assert IsPoint(s.points[k + 1], k + 1, rows, s.direction) && IsPoint(s.points[k], k, rows, s.direction);
    TieMovesTogether(rows, Genuine, s.direction, k);
    TieMovesTogether(rows, Impostor, s.direction, k);
    assert ranked[k] in ranked;
    RowOfScore(rows, ranked[k]);
    GroupIsCounted(tied);
  }

  /** Later points accept at least as much of each population, and strictly more in total. */
  lemma {:induction false} PointsGrow(s: Sweep, rows: seq<Attempt>, i: nat, j: nat)
    requires IsSweepOf(s, rows, s.direction) && i < j < |s.points|
    ensures s.points[i].genuineAccepted <= s.points[j].genuineAccepted
    ensures s.points[i].impostorAccepted <= s.points[j].impostorAccepted
    ensures s.points[i].genuineAccepted + s.points[i].impostorAccepted
      < s.points[j].genuineAccepted + s.points[j].impostorAccepted
    decreases j
  {
    NextPointGrows(s, rows, j - 1);
    if i < j - 1 {
      PointsGrow(s, rows, i, j - 1);
    }
  }

  lemma {:induction false} EveryScoreHit(rows: seq<Attempt>, population: Population, b: Boundary)
    requires forall x :: x in ScoresIn(rows) ==> Decides(b, x)
    ensures Hits(rows, population, b) == Scored(rows, population)
  {
    if rows != [] {
      ScoreTail(rows);
      EveryScoreHit(rows[1..], population, b);
      if rows[0].score.Some? { ScoreOfRow(rows, 0); }
    }
  }

  /** The last point accepts exactly the score-bearing attempts: failures stay in the denominators only. */
  lemma {:induction false} LastPointAcceptsTheScored(s: Sweep, rows: seq<Attempt>)
    requires IsSweepOf(s, rows, s.direction)
    ensures var last := s.points[|s.points| - 1];
      last.acceptsAll && last.genuineAccepted == s.genuine.scored && last.impostorAccepted == s.impostor.scored
  {
    var ranked := Rank(s.direction, ScoresIn(rows));
    var k := |ranked|;
    assert IsPoint(s.points[k], k, rows, s.direction);
    var b := if k == 0 then Boundary(0.0, AtLeast) else Cut(s.direction, ranked[k - 1]);
    assert forall i :: 0 <= i < k - 1 ==> Beats(s.direction, ranked[i], ranked[k - 1]);
    forall x | x in ScoresIn(rows) ensures Decides(b, x) {
      assert x in ranked;
    }
    EveryScoreHit(rows, Genuine, b);
    EveryScoreHit(rows, Impostor, b);
    if k == 0 {
      assert forall x :: x in ScoresIn(rows) ==> x in ranked;
      NothingHit(rows, Genuine, b);
      NothingHit(rows, Impostor, b);
    }
  }
}
