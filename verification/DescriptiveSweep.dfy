/** A second sweep of the same scores, written independently: `descriptive_points`, over the 250 development pairs. */
module DescriptiveSweep {
  import opened Results
  import opened Rates
  import opened Scores
  import opened ScoreSweep
  import opened FarTarget

  /** A cut and what it accepts; no cut is the accept-none point. */
  datatype Candidate = Candidate(cut: Option<real>, ta: nat, fa: nat)

  /** The candidates of a sweep point by point. */
  predicate SamePoints(cs: seq<Candidate>, s: Sweep) {
    && |cs| == |s.points|
    && forall k :: 0 <= k < |cs| ==>
         cs[k] == Candidate(s.points[k].cut, s.points[k].genuineAccepted, s.points[k].impostorAccepted)
  }

  /** The first points of any sweep of these rows, as candidates. */
  predicate Walked(cs: seq<Candidate>, n: nat, rows: seq<Attempt>, dir: Direction) {
    var ranked := Rank(dir, ScoresIn(rows));
    && n <= |ranked| && |cs| == n + 1 && cs[0] == Candidate(None, 0, 0)
    && forall k :: 0 < k <= n ==> cs[k] == Candidate(Some(ranked[k - 1]),
         Hits(rows, Genuine, Cut(dir, ranked[k - 1])), Hits(rows, Impostor, Cut(dir, ranked[k - 1])))
  }

  lemma {:induction false} WalkedIsSwept(cs: seq<Candidate>, s: Sweep, rows: seq<Attempt>)
    requires IsSweepOf(s, rows, s.direction) && Walked(cs, |Rank(s.direction, ScoresIn(rows))|, rows, s.direction)
    ensures SamePoints(cs, s)
  {
  }

  lemma {:induction false} WalkOn(cs: seq<Candidate>, n: nat, rows: seq<Attempt>, dir: Direction, c: Candidate)
    requires Walked(cs, n, rows, dir) && n < |Rank(dir, ScoresIn(rows))|
    requires c.cut == Some(Rank(dir, ScoresIn(rows))[n])
    requires c.ta == cs[n].ta + Planned(WithScore(rows, c.cut.value), Genuine)
    requires c.fa == cs[n].fa + Planned(WithScore(rows, c.cut.value), Impostor)
    ensures Walked(cs + [c], n + 1, rows, dir)
  {
    TieMovesTogether(rows, Genuine, dir, n);
    TieMovesTogether(rows, Impostor, dir, n);
  }

  // ------------------------------------------------------- descriptive_points

  lemma {:induction false} PlannedAppend(rows: seq<Attempt>, a: Attempt, population: Population)
    ensures Planned(rows + [a], population) == Planned(rows, population) + if a.population == population then 1 else 0
  {
    if rows == [] {
      assert ([] + [a])[1..] == [];
    } else {
      assert (rows + [a])[1..] == rows[1..] + [a];
      PlannedAppend(rows[1..], a, population);
    }
  }

  /** `groups`: how many of each kind every score has. */
  method Tally(rows: seq<Attempt>) returns (groups: map<real, (nat, nat)>)
    ensures forall s :: s in groups <==> s in ScoresIn(rows)
    ensures forall s: real :: Tallied(groups, rows, s)
  {
    groups := map[];
    for i := 0 to |rows|
      invariant forall s: real :: TalliedUpTo(groups, rows[..i], s)
    {
      assert rows[..i + 1] == rows[..i] + [rows[i]];
      forall s: real ensures TalliedUpTo(Counted(groups, rows[i]), rows[..i] + [rows[i]], s) {
        assert TalliedUpTo(groups, rows[..i], s);
        CountedTallies(groups, rows[..i], rows[i], s);
      }
      groups := Counted(groups, rows[i]);
    }
    assert rows[..|rows|] == rows;
    forall s: real ensures (s in groups <==> s in ScoresIn(rows)) && Tallied(groups, rows, s) {
      assert TalliedUpTo(groups, rows, s);
      RowOfScore(rows, s);
    }
  }

  /** `groups.setdefault(score, Counter())[row["kind"]] += 1`, for a row that has a score. */
  function Counted(groups: map<real, (nat, nat)>, row: Attempt): map<real, (nat, nat)> {
    if row.score.None? then groups else
      var s := row.score.value;
      var (g, m) := if s in groups then groups[s] else (0, 0);
      groups[s := if row.population == Genuine then (g + 1, m) else (g, m + 1)]
  }

  /** The entry of one score, or its absence. */
  predicate TalliedUpTo(groups: map<real, (nat, nat)>, rows: seq<Attempt>, s: real) {
    (s in groups <==> WithScore(rows, s) != []) && Tallied(groups, rows, s)
  }

  lemma {:induction false} CountedTallies(groups: map<real, (nat, nat)>, rows: seq<Attempt>, row: Attempt, s: real)
    requires TalliedUpTo(groups, rows, s)
    ensures TalliedUpTo(Counted(groups, row), rows + [row], s)
  {
    WithScoreAppend(rows, row, s);
    assert WithScore(rows, s) + [] == WithScore(rows, s);
    PlannedAppend(WithScore(rows, s), row, Genuine);
    PlannedAppend(WithScore(rows, s), row, Impostor);
  }

  predicate Tallied(groups: map<real, (nat, nat)>, rows: seq<Attempt>, s: real) {
    s in groups ==> groups[s] == (Planned(WithScore(rows, s), Genuine), Planned(WithScore(rows, s), Impostor))
  }

  /** `>=` cuts over the tallied groups, starting from accept-none. */
  method WalkTally(rows: seq<Attempt>) returns (cs: seq<Candidate>)
    ensures Walked(cs, |Rank(HigherIsBetter, ScoresIn(rows))|, rows, HigherIsBetter)
  {
    var groups := Tally(rows);
    var cuts := Rank(HigherIsBetter, ScoresIn(rows));
    cs := [Candidate(None, 0, 0)];
    var ta, fa := 0, 0;
    for n := 0 to |cuts|
      invariant Walked(cs, n, rows, HigherIsBetter) && ta == cs[n].ta && fa == cs[n].fa
    {
      assert cuts[n] in cuts && Tallied(groups, rows, cuts[n]);
      ta := ta + groups[cuts[n]].0;
      fa := fa + groups[cuts[n]].1;
      WalkOn(cs, n, rows, HigherIsBetter, Candidate(Some(cuts[n]), ta, fa));
      cs := cs + [Candidate(Some(cuts[n]), ta, fa)];
    }
  }

  const GENUINE_PAIRS: nat := 50
  const IMPOSTOR_PAIRS: nat := 200

  function Allowed(cs: seq<Candidate>, target: Rate): (r: seq<Candidate>)
    ensures forall c :: c in r <==>
      c in cs && RateAtMost(c.fa, IMPOSTOR_PAIRS, target.numerator, target.denominator) == Some(true)
  {
    if cs == [] then [] else
      (if RateAtMost(cs[0].fa, IMPOSTOR_PAIRS, target.numerator, target.denominator) == Some(true) then [cs[0]] else [])
      + Allowed(cs[1..], target)
  }

  /** The key (TA, -FA, cut), accept-none counting as an infinite cut. */
  predicate CandidateLess(p: Candidate, q: Candidate) {
    || p.ta < q.ta
    || (p.ta == q.ta && p.fa > q.fa)
    || (p.ta == q.ta && p.fa == q.fa && p.cut.Some? && (q.cut.None? || p.cut.value < q.cut.value))
  }

  function BestCandidate(cs: seq<Candidate>): (r: Candidate)
    requires cs != []
    ensures r in cs
  {
    if |cs| == 1 then cs[0] else
      var r := BestCandidate(cs[..|cs| - 1]);
      if CandidateLess(r, cs[|cs| - 1]) then cs[|cs| - 1] else r
  }

  lemma {:induction false} BestCandidateIsGreatest(cs: seq<Candidate>)
    requires cs != []
    ensures forall c :: c in cs ==> !CandidateLess(BestCandidate(cs), c)
    decreases |cs|
  {
    if |cs| > 1 {
      assert cs == cs[..|cs| - 1] + [cs[|cs| - 1]];
      BestCandidateIsGreatest(cs[..|cs| - 1]);
    }
  }

  /** `validate_pairs` */
  predicate ValidPairs(rows: seq<Attempt>) {
    && |rows| == 250 && DistinctPairs(rows)
    && Planned(rows, Genuine) == GENUINE_PAIRS && Planned(rows, Impostor) == IMPOSTOR_PAIRS
  }

  /** `descriptive_points` for one target; `None` is its "unsupported" answer. */
  method DescriptivePoint(rows: seq<Attempt>, target: Rate) returns (r: Result<Option<Candidate>, SweepError>)
    requires 0 < target.denominator
    ensures r.Ok? <==>
      |rows| == 250 && DistinctPairs(rows) && Planned(rows, Genuine) == 50 && Planned(rows, Impostor) == 200
    ensures r.Ok? ==> (r.value.Some? <==> Scored(rows, Genuine) > 0 && Scored(rows, Impostor) > 0)
    ensures r.Ok? && r.value.Some? ==>
      forall s: Sweep :: IsSweepOf(s, rows, HigherIsBetter) && target.numerator <= target.denominator ==>
        Agrees(r.value.value, SelectFarTargetPoint(s, target))
  {
    if |rows| != 250 || !DistinctPairs(rows) { return Err(RepeatedPair); }
    if !ValidPairs(rows) { return Err(NoGenuine); }
    if Scored(rows, Genuine) == 0 || Scored(rows, Impostor) == 0 { return Ok(None); }
    var candidates := WalkTally(rows);
    assert candidates[0] in candidates;
    var best := BestCandidate(Allowed(candidates, target));
    r := Ok(Some(best));
    forall s: Sweep | IsSweepOf(s, rows, HigherIsBetter) && target.numerator <= target.denominator
      ensures Agrees(best, SelectFarTargetPoint(s, target))
    {
      SameChoice(candidates, s, rows, target);
    }
  }

  /** The same cut and the same counts. */
  predicate Agrees(c: Candidate, p: Result<Point, SweepError>) {
    p.Ok? && c == Candidate(p.value.cut, p.value.genuineAccepted, p.value.impostorAccepted)
  }

  /** Two different keys, one choice: the counts already decide it. */
  lemma {:induction false} SameChoice(cs: seq<Candidate>, s: Sweep, rows: seq<Attempt>, target: Rate)
    requires IsSweepOf(s, rows, HigherIsBetter) && s.impostor.planned == IMPOSTOR_PAIRS
    requires Walked(cs, |Rank(HigherIsBetter, ScoresIn(rows))|, rows, HigherIsBetter)
    requires 0 < target.denominator && target.numerator <= target.denominator
    requires Allowed(cs, target) != []
    ensures Agrees(BestCandidate(Allowed(cs, target)), SelectFarTargetPoint(s, target))
  {
    WalkedIsSwept(cs, s, rows);
    SelectionSucceeds(s, rows, target);
    var i := ChosenCandidate(cs, s, target);
    var j := ChosenPoint(cs, s, target);
    if i != j {
      TarAndFarIdentifyThePoint(s, rows, i, j);
    }
  }

  lemma {:induction false} ChosenCandidate(cs: seq<Candidate>, s: Sweep, target: Rate) returns (i: nat)
    requires SamePoints(cs, s) && s.impostor.planned == IMPOSTOR_PAIRS && Allowed(cs, target) != []
    ensures i < |cs| && cs[i] == BestCandidate(Allowed(cs, target)) && Within(s, s.points[i], target)
    ensures forall k :: 0 <= k < |cs| && Within(s, s.points[k], target) ==> !Worse(s.points[i], s.points[k])
  {
    var c := BestCandidate(Allowed(cs, target));
    BestCandidateIsGreatest(Allowed(cs, target));
    i :| 0 <= i < |cs| && cs[i] == c;
    forall k | 0 <= k < |cs| && Within(s, s.points[k], target) ensures !Worse(s.points[i], s.points[k]) {
      assert cs[k] in Allowed(cs, target);
    }
  }

  lemma {:induction false} ChosenPoint(cs: seq<Candidate>, s: Sweep, target: Rate) returns (j: nat)
    requires SamePoints(cs, s) && s.genuine.planned > 0 && s.impostor.planned > 0
    requires SelectFarTargetPoint(s, target).Ok?
    ensures j < |s.points| && s.points[j] == SelectFarTargetPoint(s, target).value && Within(s, s.points[j], target)
    ensures forall k :: 0 <= k < |cs| && Within(s, s.points[k], target) ==> !Worse(s.points[j], s.points[k])
  {
    var p := SelectFarTargetPoint(s, target).value;
    BestIsGreatest(s, Eligible(s, s.points, target));
    j :| 0 <= j < |s.points| && s.points[j] == p;
    forall k | 0 <= k < |cs| && Within(s, s.points[k], target) ensures !Worse(s.points[j], s.points[k]) {
      assert s.points[k] in Eligible(s, s.points, target);
    }
  }
}
