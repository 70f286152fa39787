/**
 The observed point reported at a FAR target, and the per-release scopes beside the pooled one.
 */
module FarTarget {
  import opened Results
  import opened Rates
  import opened Scores
  import opened SelectionTheorems
  import opened ScoreSweep

  // ------------------------------------------------------------- selection

  predicate Within(s: Sweep, p: Point, target: Rate) {
    RateAtMost(p.impostorAccepted, s.impostor.planned, target.numerator, target.denominator) == Some(true)
  }

  /** `[point for point in sweep.points if point.far.fraction <= requested]` */
  function Eligible(s: Sweep, points: seq<Point>, target: Rate): (r: seq<Point>)
    ensures forall p :: p in r <==> p in points && Within(s, p, target)
  {
    if points == [] then [] else
      (if Within(s, points[0], target) then [points[0]] else []) + Eligible(s, points[1..], target)
  }

  /** The four-part key: TAR, then lower FAR, then fewer accepted, then the earlier point. */
  predicate KeyLess(s: Sweep, p: Point, q: Point) {
    var pa, qa := p.genuineAccepted + p.impostorAccepted, q.genuineAccepted + q.impostorAccepted;
    Less(Tar(s, p), Tar(s, q)) ||
    (!Less(Tar(s, q), Tar(s, p)) &&
     (Less(Far(s, q), Far(s, p)) ||
      (!Less(Far(s, p), Far(s, q)) && (qa < pa || (qa == pa && q.ordinal < p.ordinal)))))
  }

  /** `max(points, key=...)`: the first of the greatest. */
  function Best(s: Sweep, points: seq<Point>): (r: Point)
    requires points != []
    ensures r in points
  {
    if |points| == 1 then points[0] else
      var r := Best(s, points[..|points| - 1]);
      if KeyLess(s, r, points[|points| - 1]) then points[|points| - 1] else r
  }

  /** `select_far_target_point`; the target is a fraction in [0, 1] or refused. */
  function SelectFarTargetPoint(s: Sweep, target: Rate): Result<Point, SweepError> {
    if target.denominator == 0 || target.numerator > target.denominator then Err(BadTarget) else
      var eligible := Eligible(s, s.points, target);
      if eligible == [] then Err(NoEligiblePoint) else Ok(Best(s, eligible))
  }

  // -------------------------------------------------------------- its properties

  /** The order of the key over one sweep: only the two counts, while they differ. */
  predicate Worse(p: Point, q: Point) {
    || p.genuineAccepted < q.genuineAccepted
    || (p.genuineAccepted == q.genuineAccepted && p.impostorAccepted > q.impostorAccepted)
  }

  lemma {:induction false} KeyIsTarThenFar(s: Sweep, p: Point, q: Point)
    requires s.genuine.planned > 0 && s.impostor.planned > 0
    ensures KeyLess(s, p, q) <==>
      || Worse(p, q)
      || (p.genuineAccepted == q.genuineAccepted && p.impostorAccepted == q.impostorAccepted && q.ordinal < p.ordinal)
  {
  }

  lemma {:induction false} BestIsGreatest(s: Sweep, points: seq<Point>)
    requires points != [] && s.genuine.planned > 0 && s.impostor.planned > 0
    ensures forall p :: p in points ==> !Worse(Best(s, points), p)
    decreases |points|
  {
    if |points| > 1 {
      var front, last := points[..|points| - 1], points[|points| - 1];
      assert points == front + [last];
      BestIsGreatest(s, front);
      KeyIsTarThenFar(s, Best(s, front), last);
    }
  }

  /** TAR and FAR already tell two points of a sweep apart, so the last two parts of the key never decide. */
  lemma {:induction false} TarAndFarIdentifyThePoint(s: Sweep, rows: seq<Attempt>, i: nat, j: nat)
    requires IsSweepOf(s, rows, s.direction) && i < |s.points| && j < |s.points| && i != j
    ensures Worse(s.points[i], s.points[j]) || Worse(s.points[j], s.points[i])
    ensures KeyLess(s, s.points[i], s.points[j]) <==> Worse(s.points[i], s.points[j])
  {
    if i < j { PointsGrow(s, rows, i, j); } else { PointsGrow(s, rows, j, i); }
    KeyIsTarThenFar(s, s.points[i], s.points[j]);
  }

  /** Eligible points are a prefix of the sweep. */
  lemma {:induction false} EligibleIsAPrefix(s: Sweep, rows: seq<Attempt>, target: Rate, i: nat, j: nat)
    requires IsSweepOf(s, rows, s.direction) && i < j < |s.points| && target.denominator > 0
    requires Within(s, s.points[j], target)
    ensures Within(s, s.points[i], target)
  {
    PointsGrow(s, rows, i, j);
    assert (s.points[j].impostorAccepted - s.points[i].impostorAccepted) * target.denominator >= 0;
  }

  lemma {:induction false} HitsAgree(rows: seq<Attempt>, population: Population, b: Boundary, c: Boundary)
    requires forall x :: x in ScoresIn(rows) ==> (Decides(b, x) <==> Decides(c, x))
    ensures Hits(rows, population, b) == Hits(rows, population, c)
  {
    if rows != [] {
      ScoreTail(rows);
      HitsAgree(rows[1..], population, b, c);
      if rows[0].score.Some? { ScoreOfRow(rows, 0); }
    }
  }

  /** Any threshold at all, with either comparator, has the counts of some point. */
  lemma {:induction false} PointForBoundary(s: Sweep, rows: seq<Attempt>, b: Boundary) returns (k: nat)
    requires IsSweepOf(s, rows, s.direction) && Admits(s.direction, b.comparator)
    ensures k < |s.points|
    ensures s.points[k].genuineAccepted == Hits(rows, Genuine, b)
    ensures s.points[k].impostorAccepted == Hits(rows, Impostor, b)
  {
    var scores := ScoresIn(rows);
    var ranked := Rank(s.direction, scores);
    k := Prefix(b, ranked);
    assert IsPoint(s.points[k], k, rows, s.direction);
    if k == 0 {
      PrefixAccepted(s.direction, b, ranked);
      forall x | x in scores ensures !Decides(b, x) {
        assert x in ranked;
      }
      NothingHit(rows, Genuine, b);
      NothingHit(rows, Impostor, b);
    } else {
      assert ranked[0] in ranked;
      CanonicalDecides(s.direction, b, scores);
      HitsAgree(rows, Genuine, b, Cut(s.direction, ranked[k - 1]));
      HitsAgree(rows, Impostor, b, Cut(s.direction, ranked[k - 1]));
    }
  }

  /** The selection always succeeds, and what it returns is a point of the sweep within the target. */
  lemma {:induction false} SelectionSucceeds(s: Sweep, rows: seq<Attempt>, target: Rate)
    requires IsSweepOf(s, rows, s.direction) && 0 < target.denominator && target.numerator <= target.denominator
    ensures SelectFarTargetPoint(s, target).Ok?
    ensures SelectFarTargetPoint(s, target).value in s.points
    ensures Within(s, SelectFarTargetPoint(s, target).value, target)
    ensures SelectFarTargetPoint(s, target).value.impostorAccepted as real / s.impostor.planned as real
      <= target.numerator as real / target.denominator as real
  {
    var p := SelectFarTargetPoint(s, target).value;
    AtMostIsExact(p.impostorAccepted, s.impostor.planned, target.numerator, target.denominator);
  }

  /**
   Over all real thresholds with either comparator, none inside the target has a higher TAR, and
   none with the same TAR has a lower FAR.
   */
  lemma {:induction false} SelectionIsOptimal(s: Sweep, rows: seq<Attempt>, target: Rate, b: Boundary)
    requires IsSweepOf(s, rows, s.direction) && 0 < target.denominator && target.numerator <= target.denominator
    requires Admits(s.direction, b.comparator)
    requires Hits(rows, Impostor, b) as real / s.impostor.planned as real
      <= target.numerator as real / target.denominator as real
    ensures var p := SelectFarTargetPoint(s, target);
      && p.Ok?
      && Hits(rows, Genuine, b) <= p.value.genuineAccepted
      && (Hits(rows, Genuine, b) == p.value.genuineAccepted ==> p.value.impostorAccepted <= Hits(rows, Impostor, b))
  {
    SelectionSucceeds(s, rows, target);
    var k := PointForBoundary(s, rows, b);
    AtMostIsExact(Hits(rows, Impostor, b), s.impostor.planned, target.numerator, target.denominator);
    assert s.points[k] in Eligible(s, s.points, target);
    BestIsGreatest(s, Eligible(s, s.points, target));
  }

  /** A laxer target never lowers the TAR. */
  lemma {:induction false} LaxerTarget(s: Sweep, rows: seq<Attempt>, tight: Rate, lax: Rate)
    requires IsSweepOf(s, rows, s.direction)
    requires 0 < tight.denominator && tight.numerator <= tight.denominator
    requires 0 < lax.denominator && lax.numerator <= lax.denominator
    requires RateAtMost(tight.numerator, tight.denominator, lax.numerator, lax.denominator) == Some(true)
    ensures SelectFarTargetPoint(s, tight).Ok? && SelectFarTargetPoint(s, lax).Ok?
    ensures SelectFarTargetPoint(s, tight).value.genuineAccepted <= SelectFarTargetPoint(s, lax).value.genuineAccepted
  {
    SelectionSucceeds(s, rows, tight);
    SelectionSucceeds(s, rows, lax);
    var p := SelectFarTargetPoint(s, tight).value;
    AtMostTransitive(p.impostorAccepted, s.impostor.planned, tight, lax);
    assert p in Eligible(s, s.points, lax);
    BestIsGreatest(s, Eligible(s, s.points, lax));
  }

  lemma {:induction false} AtMostTransitive(a: nat, b: nat, x: Rate, y: Rate)
    requires b > 0 && x.denominator > 0 && y.denominator > 0
    requires RateAtMost(a, b, x.numerator, x.denominator) == Some(true)
    requires RateAtMost(x.numerator, x.denominator, y.numerator, y.denominator) == Some(true)
    ensures RateAtMost(a, b, y.numerator, y.denominator) == Some(true)
  {
  }

  // -------------------------------------------------------------------- scopes

  function RowsOf(rows: seq<Attempt>, release: string): seq<Attempt> {
    if rows == [] then [] else (if rows[0].release == release then [rows[0]] else []) + RowsOf(rows[1..], release)
  }

  function SumHits(rows: seq<Attempt>, releases: seq<string>, population: Population, b: Boundary): nat {
    if releases == [] then 0
    else Hits(RowsOf(rows, releases[0]), population, b) + SumHits(rows, releases[1..], population, b)
  }

  function SumPlanned(rows: seq<Attempt>, releases: seq<string>, population: Population): nat {
    if releases == [] then 0
    else Planned(RowsOf(rows, releases[0]), population) + SumPlanned(rows, releases[1..], population)
  }

  predicate DistinctReleases(releases: seq<string>) {
    forall i, j :: 0 <= i < j < |releases| ==> releases[i] != releases[j]
  }

  /** One attempt more adds to the sum exactly when its release is listed. */
  lemma {:induction false} SumTail(rows: seq<Attempt>, releases: seq<string>, population: Population, b: Boundary)
    requires rows != [] && DistinctReleases(releases)
    ensures SumHits(rows, releases, population, b) == SumHits(rows[1..], releases, population, b)
      + if rows[0].release in releases then Hits([rows[0]], population, b) else 0
    ensures SumPlanned(rows, releases, population) == SumPlanned(rows[1..], releases, population)
      + if rows[0].release in releases then Planned([rows[0]], population) else 0
  {
    if releases != [] {
      SumTail(rows, releases[1..], population, b);
      var tail := RowsOf(rows[1..], releases[0]);
      assert ([rows[0]] + tail)[1..] == tail && [] + tail == tail;
      assert [rows[0]][1..] == [];
      assert rows[0].release == releases[0] ==> rows[0].release !in releases[1..];
    }
  }

  /** Pooled counts at any cut are the sums of the releases' counts there, and so are the denominators. */
  lemma {:induction false} PooledIsTheSum(rows: seq<Attempt>, releases: seq<string>, population: Population,
                                          b: Boundary)
    requires DistinctReleases(releases) && forall i :: 0 <= i < |rows| ==> rows[i].release in releases
    ensures Hits(rows, population, b) == SumHits(rows, releases, population, b)
    ensures Planned(rows, population) == SumPlanned(rows, releases, population)
  {
    if rows == [] {
      NothingToSum(releases, population, b);
    } else {
      PooledIsTheSum(rows[1..], releases, population, b);
      SumTail(rows, releases, population, b);
      assert [rows[0]][1..] == [];
      assert rows[0].release in releases;
    }
  }

  lemma {:induction false} NothingToSum(releases: seq<string>, population: Population, b: Boundary)
    ensures SumHits([], releases, population, b) == 0 && SumPlanned([], releases, population) == 0
  {
    if releases != [] { NothingToSum(releases[1..], population, b); }
  }

  /** `IsSweepOf` the rows of one release, with the rows and the direction fixed. */
  ghost function Sweeping(rows: seq<Attempt>, dir: Direction): (string, Sweep) -> bool {
    (release, sweep) => IsSweepOf(sweep, RowsOf(rows, release), dir)
  }

  /** A release's own rows are some of all of them, or all of them when there is no other release. */
  lemma {:induction false} OnlyRelease(rows: seq<Attempt>, release: string)
    requires forall i :: 0 <= i < |rows| ==> rows[i].release == release
    ensures RowsOf(rows, release) == rows
  {
    if rows != [] { OnlyRelease(rows[1..], release); }
  }

  lemma {:induction false} SumHoldsOne(rows: seq<Attempt>, releases: seq<string>, population: Population, i: nat)
    requires i < |releases|
    ensures SumPlanned(rows, releases, population) >= Planned(RowsOf(rows, releases[i]), population)
  {
    if i > 0 { SumHoldsOne(rows, releases[1..], population, i - 1); }
  }

  lemma {:induction false} SumHoldsTwo(rows: seq<Attempt>, releases: seq<string>, population: Population, i: nat,
                                       j: nat)
    requires i < j < |releases|
    ensures SumPlanned(rows, releases, population) >=
      Planned(RowsOf(rows, releases[i]), population) + Planned(RowsOf(rows, releases[j]), population)
  {
    if i == 0 {
      SumHoldsOne(rows, releases[1..], population, j - 1);
    } else {
      SumHoldsTwo(rows, releases[1..], population, i - 1, j - 1);
    }
  }

  /** Beside another release with genuine attempts, no release has the pooled denominator. */
  lemma {:induction false} PooledIsLarger(rows: seq<Attempt>, releases: seq<string>, i: nat, j: nat)
    requires DistinctReleases(releases) && forall k :: 0 <= k < |rows| ==> rows[k].release in releases
    requires i < |releases| && j < |releases| && i != j && Planned(RowsOf(rows, releases[j]), Genuine) > 0
    ensures Planned(rows, Genuine) > Planned(RowsOf(rows, releases[i]), Genuine)
  {
    PooledIsTheSum(rows, releases, Genuine, Boundary(0.0, AtLeast));
    if i < j { SumHoldsTwo(rows, releases, Genuine, i, j); } else { SumHoldsTwo(rows, releases, Genuine, j, i); }
  }

  /** What every release finds under its own name, once the pooled sweep is stored under "pooled". */
  ghost predicate EachHasItsOwn(rows: seq<Attempt>, dir: Direction, releases: seq<string>, sweeps: map<string, Sweep>) {
    forall i :: 0 <= i < |releases| ==> releases[i] in sweeps && Sweeping(rows, dir)(releases[i], sweeps[releases[i]])
  }

  lemma {:induction false} PooledReplacesAnother(rows: seq<Attempt>, dir: Direction, releases: seq<string>,
                                                 pooled: Sweep)
    requires DistinctReleases(releases) && "pooled" in releases && IsSweepOf(pooled, rows, dir)
    requires forall k :: 0 <= k < |rows| ==> rows[k].release in releases
    requires forall k :: 0 <= k < |releases| ==> Sweepable(RowsOf(rows, releases[k]))
    ensures Sweeping(rows, dir)("pooled", pooled) <==> |releases| == 1
  {
    var i :| 0 <= i < |releases| && releases[i] == "pooled";
    if |releases| == 1 {
      OnlyRelease(rows, "pooled");
    } else {
      var j := if i == 0 then 1 else 0;
      PooledIsLarger(rows, releases, i, j);
    }
  }

  ghost predicate OthersHaveTheirOwn(rows: seq<Attempt>, dir: Direction, releases: seq<string>,
                                     sweeps: map<string, Sweep>)
  {
    forall i :: 0 <= i < |releases| && releases[i] != "pooled" ==>
      releases[i] in sweeps && Sweeping(rows, dir)(releases[i], sweeps[releases[i]])
  }

  lemma {:induction false} PooledStoredLast(rows: seq<Attempt>, dir: Direction, releases: seq<string>,
                                            sweeps: map<string, Sweep>, pooled: Sweep)
    requires releases != [] && DistinctReleases(releases) && EachHasItsOwn(rows, dir, releases, sweeps)
    requires forall k :: 0 <= k < |rows| ==> rows[k].release in releases
    requires forall k :: 0 <= k < |releases| ==> Sweepable(RowsOf(rows, releases[k]))
    requires IsSweepOf(pooled, rows, dir)
    ensures OthersHaveTheirOwn(rows, dir, releases, sweeps["pooled" := pooled])
    ensures EachHasItsOwn(rows, dir, releases, sweeps["pooled" := pooled]) <==> "pooled" !in releases || |releases| == 1
  {
    if "pooled" in releases { PooledReplacesAnother(rows, dir, releases, pooled); }
  }

  /**
   `build_scope_sweeps`: one sweep per release and one over everything. The pooled sweep is stored
   last, so a release of that name loses its own exactly when there is another release.
   */
  method BuildScopeSweeps(rows: seq<Attempt>, dir: Direction, releases: seq<string>)
    returns (r: Result<map<string, Sweep>, SweepError>)
    ensures r.Ok? <==>
      && releases != [] && DistinctReleases(releases)
      && (forall i :: 0 <= i < |rows| ==> rows[i].release in releases)
      && (forall i :: 0 <= i < |releases| ==> Sweepable(RowsOf(rows, releases[i])))
      && Sweepable(rows)
    ensures r.Ok? ==> r.value.Keys == (set i | 0 <= i < |releases| :: releases[i]) + {"pooled"}
    ensures r.Ok? ==> IsSweepOf(r.value["pooled"], rows, dir)
    ensures r.Ok? ==> OthersHaveTheirOwn(rows, dir, releases, r.value)
    ensures r.Ok? ==> (EachHasItsOwn(rows, dir, releases, r.value) <==> "pooled" !in releases || |releases| == 1)
  {
    if releases == [] || !DistinctReleases(releases) { return Err(BadReleases); }
    if !(forall i :: 0 <= i < |rows| ==> rows[i].release in releases) { return Err(UnknownRelease); }
    var each := BuildReleaseSweeps(rows, dir, releases);
    if each.Err? { return each; }
    var pooled := BuildScoreSweep(rows, dir);
    if pooled.Err? { return Err(pooled.error); }
    PooledStoredLast(rows, dir, releases, each.value, pooled.value);
    r := Ok(each.value["pooled" := pooled.value]);
  }

  /** The loop over the releases. */
  method BuildReleaseSweeps(rows: seq<Attempt>, dir: Direction, releases: seq<string>)
    returns (r: Result<map<string, Sweep>, SweepError>)
    ensures r.Ok? <==> forall i :: 0 <= i < |releases| ==> Sweepable(RowsOf(rows, releases[i]))
    ensures r.Ok? ==> r.value.Keys == (set i | 0 <= i < |releases| :: releases[i])
    ensures r.Ok? ==> EachHasItsOwn(rows, dir, releases, r.value)
  {
    ghost var isSweep := Sweeping(rows, dir);
    var sweeps: map<string, Sweep> := map[];
    for k := 0 to |releases|
      invariant sweeps.Keys == set i | 0 <= i < k :: releases[i]
      invariant forall i :: 0 <= i < k ==> Sweepable(RowsOf(rows, releases[i]))
      invariant forall i :: 0 <= i < k ==> isSweep(releases[i], sweeps[releases[i]])
    {
      var one := BuildScoreSweep(RowsOf(rows, releases[k]), dir);
      if one.Err? { return Err(one.error); }
      sweeps := sweeps[releases[k] := one.value];
    }
    r := Ok(sweeps);
  }

  /** Two releases, one of them named "pooled": the sweeps are built, and that one does not find its own. */
  method PooledLosesItsOwn(other: string, dir: Direction) returns (sweeps: map<string, Sweep>, rows: seq<Attempt>)
    requires other != "pooled"
    ensures forall i :: 0 <= i < |rows| ==> rows[i].release in [other, "pooled"]
    ensures OthersHaveTheirOwn(rows, dir, [other, "pooled"], sweeps)
    ensures !EachHasItsOwn(rows, dir, [other, "pooled"], sweeps)
  {
    rows := OneOfEach(other, "", "a") + OneOfEach("pooled", "aa", "aaa");
    TwoReleases(other, "pooled", "", "a", "aa", "aaa");
    var r := BuildScopeSweeps(rows, dir, [other, "pooled"]);
    sweeps := r.value;
  }

  lemma {:induction false} TwoReleases(one: string, two: string, p: string, q: string, r: string, s: string)
    requires one != two && p != q && p != r && p != s && q != r && q != s && r != s
    ensures DistinctReleases([one, two])
    ensures Sweepable(OneOfEach(one, p, q) + OneOfEach(two, r, s))
    ensures RowsOf(OneOfEach(one, p, q) + OneOfEach(two, r, s), one) == OneOfEach(one, p, q)
    ensures RowsOf(OneOfEach(one, p, q) + OneOfEach(two, r, s), two) == OneOfEach(two, r, s)
    ensures Sweepable(OneOfEach(one, p, q)) && Sweepable(OneOfEach(two, r, s))
  {
    var a, b := OneOfEach(one, p, q), OneOfEach(two, r, s);
    OnlyItsRelease(one, p, q, two);
    OnlyItsRelease(two, r, s, one);
    RowsOfConcat(a, b, one);
    RowsOfConcat(a, b, two);
    JoinedSweepable(a, b);
  }

  lemma {:induction false} JoinedSweepable(a: seq<Attempt>, b: seq<Attempt>)
    requires Sweepable(a) && Sweepable(b)
    requires forall i, j :: 0 <= i < |a| && 0 <= j < |b| ==> a[i].pair != b[j].pair
    ensures Sweepable(a + b)
  {
    PlannedConcat(a, b, Genuine);
    PlannedConcat(a, b, Impostor);
  }

  /** A failed genuine and a failed impostor attempt of one release. */
  function OneOfEach(release: string, genuine: string, impostor: string): seq<Attempt> {
    [Attempt(genuine, release, Genuine, None), Attempt(impostor, release, Impostor, None)]
  }

  lemma {:induction false} OnlyItsRelease(release: string, genuine: string, impostor: string, another: string)
    requires release != another && genuine != impostor
    ensures var rows := OneOfEach(release, genuine, impostor);
      RowsOf(rows, release) == rows && RowsOf(rows, another) == [] && Sweepable(rows)
  {
    var rows := OneOfEach(release, genuine, impostor);
    OnlyRelease(rows, release);
    assert rows[1..] == [rows[1]] && rows[1..][1..] == [];
    assert RowsOf(rows[1..], another) == [];
    assert Planned(rows[1..][1..], Impostor) == 0 && Planned(rows[1..], Impostor) == 1;
  }

  lemma {:induction false} RowsOfConcat(a: seq<Attempt>, b: seq<Attempt>, release: string)
    ensures RowsOf(a + b, release) == RowsOf(a, release) + RowsOf(b, release)
  {
    if a == [] {
      assert a + b == b;
    } else {
      var all, first := a + b, if a[0].release == release then [a[0]] else [];
      assert all[0] == a[0] && all[1..] == a[1..] + b;
      RowsOfConcat(a[1..], b, release);
      assert RowsOf(all, release) == first + (RowsOf(a[1..], release) + RowsOf(b, release));
    }
  }

  lemma {:induction false} PlannedConcat(a: seq<Attempt>, b: seq<Attempt>, population: Population)
    ensures Planned(a + b, population) == Planned(a, population) + Planned(b, population)
  {
    if a == [] {
      assert a + b == b;
    } else {
      assert (a + b)[1..] == a[1..] + b;
      PlannedConcat(a[1..], b, population);
    }
  }
}
