/**
 Choosing one boundary from labelled development scores: of the observed boundaries whose
 impostor match rate is inside the ceiling, the one that accepts the most.
 */
module Calibration {
  import opened Results
  import opened Rates
  import opened Scores

  datatype Truth = Mated | Impostor

  /** A success carries a score, a failure a code; there is no third shape. */
  datatype Attempt = Scored(score: real) | Failed(code: string)

  /** One labelled comparison. `pair` is the rank of the pair id in lexical order. */
  datatype Row = Row(pair: nat, truth: Truth, attempt: Attempt)

  datatype Outcome = Outcome(
    boundary: Boundary,
    accepted: set<real>,     // distinct impostor scores it calls a match
    impostorMatches: nat, impostorScored: nat,
    matedMatches: nat, matedScored: nat)

  datatype SelectionError = NoScoredImpostor | NothingAdmissible | TiesSplit

  /** `scored_of`: the scores of one population, in row order. */
  function ScoresOf(rows: seq<Row>, truth: Truth): seq<real> {
    if rows == [] then [] else
      (if rows[0].truth == truth && rows[0].attempt.Scored? then [rows[0].attempt.score] else [])
      + ScoresOf(rows[1..], truth)
  }

  /** `distinct_scores_of`: ascending, whatever the direction. */
  function DistinctOf(rows: seq<Row>, truth: Truth): seq<real> {
    Rank(LowerIsBetter, ScoresOf(rows, truth))
  }

  function BoundariesAt(dir: Direction, scores: seq<real>): seq<Boundary> {
    if scores == [] then []
    else [Boundary(scores[0], Inclusive(dir)), Boundary(scores[0], Strict(dir))] + BoundariesAt(dir, scores[1..])
  }

  /** `candidate_boundaries`: both comparators at every distinct impostor score. */
  function Candidates(dir: Direction, rows: seq<Row>): seq<Boundary> {
    BoundariesAt(dir, DistinctOf(rows, Impostor))
  }

  /** `evaluate_boundary`: counts over scored comparisons only. */
  function Evaluate(b: Boundary, rows: seq<Row>): Outcome {
    var impostor, mated := ScoresOf(rows, Impostor), ScoresOf(rows, Mated);
    Outcome(b, Accepted(b, DistinctOf(rows, Impostor)),
            Count(b, impostor), |impostor|, Count(b, mated), |mated|)
  }

  function EvaluateAll(bs: seq<Boundary>, rows: seq<Row>): (r: seq<Outcome>)
    ensures |r| == |bs| && forall i :: 0 <= i < |bs| ==> r[i] == Evaluate(bs[i], rows)
  {
    seq(|bs|, i requires 0 <= i < |bs| => Evaluate(bs[i], rows))
  }

  predicate Admissible(rate: Rate, o: Outcome) { Permits(rate, o.impostorMatches, o.impostorScored) }

  function KeepAdmissible(rate: Rate, os: seq<Outcome>): (r: seq<Outcome>)
    ensures forall o :: o in r <==> o in os && Admissible(rate, o)
  {
    if os == [] then [] else (if Admissible(rate, os[0]) then [os[0]] else []) + KeepAdmissible(rate, os[1..])
  }

  function Most(os: seq<Outcome>): (m: nat)
    requires os != []
    ensures exists o :: o in os && |o.accepted| == m
    ensures forall o :: o in os ==> |o.accepted| <= m
  {
    if |os| == 1 then |os[0].accepted| else
      var m := Most(os[1..]);
      if |os[0].accepted| > m then |os[0].accepted| else m
  }

  function KeepMost(os: seq<Outcome>, m: nat): (r: seq<Outcome>)
    ensures forall o :: o in r <==> o in os && |o.accepted| == m
  {
    if os == [] then [] else (if |os[0].accepted| == m then [os[0]] else []) + KeepMost(os[1..], m)
  }

  /** The tie-break key: inclusive first, then the threshold. */
  predicate KeyAtMost(b: Boundary, c: Boundary) {
    (!IsStrict(b.comparator) && IsStrict(c.comparator))
    || (IsStrict(b.comparator) == IsStrict(c.comparator) && b.threshold <= c.threshold)
  }

  /** `sorted(tied, key=...)[0]` */
  function First(os: seq<Outcome>): (r: Outcome)
    requires os != []
    ensures r in os && forall o :: o in os ==> KeyAtMost(r.boundary, o.boundary)
  {
    if |os| == 1 then os[0] else
      var r := First(os[1..]);
      if KeyAtMost(os[0].boundary, r.boundary) then os[0] else r
  }

  /** `select_boundary` up to the tie assertion. */
  function Select(rate: Rate, dir: Direction, rows: seq<Row>): Result<Outcome, SelectionError> {
    if ScoresOf(rows, Impostor) == [] then Err(NoScoredImpostor) else
      var admissible := KeepAdmissible(rate, EvaluateAll(Candidates(dir, rows), rows));
      if admissible == [] then Err(NothingAdmissible) else
        Ok(First(KeepMost(admissible, Most(admissible))))
  }

  /** `require_ties_are_atomic`: group the scored rows by score and look for a split group. */
  method TiesAreAtomic(b: Boundary, rows: seq<Row>) returns (split: set<real>)
    ensures split == {}
  {
    var byScore: map<real, set<bool>> := map[];
    for i := 0 to |rows|
      invariant forall s :: s in byScore ==> byScore[s] == {Decides(b, s)}
    {
      if rows[i].attempt.Scored? {
        var s := rows[i].attempt.score;
        var calls := if s in byScore then byScore[s] else {};
        byScore := byScore[s := calls + {Decides(b, s)}];
      }
    }
    assert forall s :: s in byScore ==> |byScore[s]| == 1;
    split := set s | s in byScore && |byScore[s]| > 1;
  }

  /** `select_boundary`. */
  method SelectBoundary(rate: Rate, dir: Direction, rows: seq<Row>) returns (r: Result<Outcome, SelectionError>)
    ensures r == Select(rate, dir, rows)
  {
    r := Select(rate, dir, rows);
    if r.Ok? {
      var split := TiesAreAtomic(r.value.boundary, rows);
      if split != {} { return Err(TiesSplit); }
    }
  }
}
