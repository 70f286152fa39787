/**
 What the selected boundary is: optimal over every threshold there is, not only the observed
 ones; unique; and a function of the scored impostor comparisons alone.
 */
module SelectionTheorems {
  import opened Results
  import opened Rates
  import opened Scores
  import opened Calibration

  // -------------------------------------------- a boundary's canonical spelling

  /** How many of the ranked scores a boundary accepts: always a prefix. */
  function Prefix(b: Boundary, ranked: seq<real>): (k: nat)
    ensures k <= |ranked|
  {
    if ranked == [] || !Decides(b, ranked[0]) then 0 else 1 + Prefix(b, ranked[1..])
  }

  lemma {:induction false} PrefixAccepted(dir: Direction, b: Boundary, ranked: seq<real>)
    requires Ranked(dir, ranked) && Admits(dir, b.comparator)
    ensures forall i :: 0 <= i < |ranked| ==> (Decides(b, ranked[i]) <==> i < Prefix(b, ranked))
  {
    if ranked != [] {
      PrefixAccepted(dir, b, ranked[1..]);
      forall i | 0 <= i < |ranked| ensures Decides(b, ranked[i]) <==> i < Prefix(b, ranked) {
        if i > 0 {
          assert ranked[i] == ranked[1..][i - 1];
          assert Beats(dir, ranked[0], ranked[i]);
        }
      }
    }
  }

  /**
   The spelling the selection publishes: strict at the best score when nothing is accepted,
   otherwise inclusive at the worst accepted score.
   */
  function Canonical(dir: Direction, b: Boundary, scores: seq<real>): Boundary
    requires scores != []
  {
    var ranked := Rank(dir, scores);
    assert scores[0] in ranked;
    var k := Prefix(b, ranked);
    if k == 0 then Boundary(ranked[0], Strict(dir)) else Boundary(ranked[k - 1], Inclusive(dir))
  }

  lemma {:induction false} CanonicalDecides(dir: Direction, b: Boundary, scores: seq<real>)
    requires scores != [] && Admits(dir, b.comparator)
    ensures var c := Canonical(dir, b, scores);
      Admits(dir, c.comparator) && c.threshold in scores
      && (forall x :: x in scores ==> (Decides(c, x) <==> Decides(b, x)))
  {
    var ranked := Rank(dir, scores);
    assert scores[0] in ranked;
    var c, k := Canonical(dir, b, scores), Prefix(b, ranked);
    PrefixAccepted(dir, b, ranked);
    assert c.threshold in ranked;
    forall x | x in scores ensures Decides(c, x) <==> Decides(b, x) {
      assert x in ranked;
      var i :| 0 <= i < |ranked| && ranked[i] == x;
      if k > 0 {
        assert i < k - 1 ==> Beats(dir, ranked[i], ranked[k - 1]);
        assert i > k - 1 ==> Beats(dir, ranked[k - 1], ranked[i]);
      } else {
        assert i > 0 ==> Beats(dir, ranked[0], ranked[i]);
      }
    }
  }

  /** A boundary at an observed score is canonical when it is inclusive, or accepts nothing. */
  lemma {:induction false} SpelledOnce(dir: Direction, b: Boundary, scores: seq<real>)
    requires b.threshold in scores && Admits(dir, b.comparator)
    requires !IsStrict(b.comparator) || Accepted(b, scores) == {}
    ensures b == Canonical(dir, b, scores)
  {
    var ranked := Rank(dir, scores);
    assert scores != [] && b.threshold in ranked;
    var i :| 0 <= i < |ranked| && ranked[i] == b.threshold;
    if IsStrict(b.comparator) {
      forall j | 0 <= j < |ranked| ensures !Decides(b, ranked[j]) {
        assert ranked[j] in ranked && ranked[j] !in Accepted(b, scores);
      }
      StrictPrefix(dir, b, ranked, i);
    } else {
      InclusivePrefix(dir, b, ranked, i);
    }
  }

  lemma {:induction false} StrictPrefix(dir: Direction, b: Boundary, ranked: seq<real>, i: nat)
    requires Ranked(dir, ranked) && i < |ranked| && ranked[i] == b.threshold && b.comparator == Strict(dir)
    requires forall j :: 0 <= j < |ranked| ==> !Decides(b, ranked[j])
    ensures i == 0 && Prefix(b, ranked) == 0
  {
    PrefixAccepted(dir, b, ranked);
    assert i > 0 ==> Beats(dir, ranked[0], ranked[i]);
  }

  lemma {:induction false} InclusivePrefix(dir: Direction, b: Boundary, ranked: seq<real>, i: nat)
    requires Ranked(dir, ranked) && i < |ranked| && ranked[i] == b.threshold && b.comparator == Inclusive(dir)
    ensures Prefix(b, ranked) == i + 1
  {
    PrefixAccepted(dir, b, ranked);
    assert Decides(b, ranked[i]);
    assert i + 1 < |ranked| ==> Beats(dir, ranked[i], ranked[i + 1]) && !Decides(b, ranked[i + 1]);
  }

  /** The canonical spelling depends only on which scores are there and which are accepted. */
  lemma {:induction false} CanonicalAgrees(dir: Direction, b: Boundary, c: Boundary, scores: seq<real>)
    requires scores != [] && Admits(dir, b.comparator) && Admits(dir, c.comparator)
    requires forall x :: x in scores ==> (Decides(b, x) <==> Decides(c, x))
    ensures Canonical(dir, b, scores) == Canonical(dir, c, scores)
  {
    PrefixAgrees(b, c, Rank(dir, scores));
  }

  lemma {:induction false} PrefixAgrees(b: Boundary, c: Boundary, ranked: seq<real>)
    requires forall x :: x in ranked ==> (Decides(b, x) <==> Decides(c, x))
    ensures Prefix(b, ranked) == Prefix(c, ranked)
  {
    if ranked != [] {
      assert ranked[0] in ranked && forall x :: x in ranked[1..] ==> x in ranked;
      PrefixAgrees(b, c, ranked[1..]);
    }
  }

  // ------------------------------------------------------ the candidate family

  lemma {:induction false} BoundariesComplete(dir: Direction, scores: seq<real>, b: Boundary)
    ensures b in BoundariesAt(dir, scores) <==> b.threshold in scores && Admits(dir, b.comparator)
  {
    if scores != [] {
      BoundariesComplete(dir, scores[1..], b);
    }
  }

  lemma {:induction false} CandidatesComplete(dir: Direction, rows: seq<Row>, b: Boundary)
    ensures b in Candidates(dir, rows) <==> b.threshold in ScoresOf(rows, Impostor) && Admits(dir, b.comparator)
  {
    BoundariesComplete(dir, DistinctOf(rows, Impostor), b);
  }

  ghost predicate DecideAlike(b: Boundary, c: Boundary, scores: seq<real>) {
    forall x :: x in scores ==> (Decides(b, x) <==> Decides(c, x))
  }

  /** Any threshold at all, observed or not, decides the impostors like some candidate. */
  lemma {:induction false} ObservedFamilyIsComplete(dir: Direction, rows: seq<Row>, b: Boundary)
    requires ScoresOf(rows, Impostor) != [] && Admits(dir, b.comparator)
    ensures exists c :: c in Candidates(dir, rows) && DecideAlike(c, b, ScoresOf(rows, Impostor))
  {
    var scores := ScoresOf(rows, Impostor);
    CanonicalDecides(dir, b, scores);
    CandidatesComplete(dir, rows, Canonical(dir, b, scores));
    assert DecideAlike(Canonical(dir, b, scores), b, scores);
  }

  // ---------------------------------------------------------- the selection

  /** Nothing admissible of this direction accepts an impostor score that `b` refuses. */
  ghost predicate IsOptimal(rate: Rate, dir: Direction, scores: seq<real>, b: Boundary) {
    && Admits(dir, b.comparator)
    && Permits(rate, Count(b, scores), |scores|)
    && forall c: Boundary :: Admits(dir, c.comparator) && Permits(rate, Count(c, scores), |scores|) ==>
         Accepted(c, scores) <= Accepted(b, scores) && Count(c, scores) <= Count(b, scores)
  }

  lemma {:induction false} AcceptedOfDistinct(b: Boundary, rows: seq<Row>)
    ensures Accepted(b, DistinctOf(rows, Impostor)) == Accepted(b, ScoresOf(rows, Impostor))
  {
  }

  /** Every admissible boundary, observed or not, has an admissible candidate that decides alike. */
  lemma {:induction false} CandidateFor(rate: Rate, dir: Direction, rows: seq<Row>, b: Boundary) returns (o: Outcome)
    requires ScoresOf(rows, Impostor) != [] && Admits(dir, b.comparator)
    requires Permits(rate, Count(b, ScoresOf(rows, Impostor)), |ScoresOf(rows, Impostor)|)
    ensures o in KeepAdmissible(rate, EvaluateAll(Candidates(dir, rows), rows))
    ensures o == Evaluate(Canonical(dir, b, ScoresOf(rows, Impostor)), rows)
    ensures o.accepted == Accepted(b, ScoresOf(rows, Impostor))
  {
    var scores := ScoresOf(rows, Impostor);
    var c := Canonical(dir, b, scores);
    CanonicalDecides(dir, b, scores);
    CandidatesComplete(dir, rows, c);
    assert Accepted(c, scores) == Accepted(b, scores);
    CountMonotone(c, b, scores);
    AcceptedOfDistinct(c, rows);
    o := Evaluate(c, rows);
    var bs := Candidates(dir, rows);
    var i :| 0 <= i < |bs| && bs[i] == c;
    assert EvaluateAll(bs, rows)[i] == o;
  }

  lemma {:induction false} EvaluatedCandidate(dir: Direction, rows: seq<Row>, o: Outcome)
    requires o in EvaluateAll(Candidates(dir, rows), rows)
    ensures o == Evaluate(o.boundary, rows)
    ensures o.boundary.threshold in ScoresOf(rows, Impostor) && Admits(dir, o.boundary.comparator)
    ensures o.accepted == Accepted(o.boundary, ScoresOf(rows, Impostor))
  {
    var bs := Candidates(dir, rows);
    var i :| 0 <= i < |bs| && EvaluateAll(bs, rows)[i] == o;
    CandidatesComplete(dir, rows, bs[i]);
    AcceptedOfDistinct(bs[i], rows);
  }

  /** The candidate that accepts nothing is inside every ceiling. */
  lemma {:induction false} SomethingIsAdmissible(rate: Rate, dir: Direction, rows: seq<Row>)
    requires ScoresOf(rows, Impostor) != [] && rate.denominator > 0
    ensures KeepAdmissible(rate, EvaluateAll(Candidates(dir, rows), rows)) != []
  {
    var scores := ScoresOf(rows, Impostor);
    var none := AcceptsNothing(dir, scores);
    NoneCounted(none, scores);
    var o := CandidateFor(rate, dir, rows, none);
  }

  lemma {:induction false} AcceptsNothing(dir: Direction, scores: seq<real>) returns (none: Boundary)
    requires scores != []
    ensures none.threshold in scores && none.comparator == Strict(dir)
    ensures forall x :: x in scores ==> !Decides(none, x)
  {
    var ranked := Rank(dir, scores);
    assert scores[0] in ranked;
    none := Boundary(ranked[0], Strict(dir));
    forall x | x in scores ensures !Decides(none, x) {
      assert x in ranked;
      var i :| 0 <= i < |ranked| && ranked[i] == x;
      assert i > 0 ==> Beats(dir, ranked[0], ranked[i]);
    }
  }

  /** With a scored impostor the selection never refuses, and what it returns is optimal and canonically spelled. */
  lemma {:induction false} SelectionIsOptimal(rate: Rate, dir: Direction, rows: seq<Row>)
    requires rate.denominator > 0
    ensures Select(rate, dir, rows).Ok? <==> ScoresOf(rows, Impostor) != []
    ensures Select(rate, dir, rows).Ok? ==>
      var o := Select(rate, dir, rows).value;
      && o == Evaluate(o.boundary, rows)
      && IsOptimal(rate, dir, ScoresOf(rows, Impostor), o.boundary)
      && o.boundary == Canonical(dir, o.boundary, ScoresOf(rows, Impostor))
  {
    var scores := ScoresOf(rows, Impostor);
    if scores != [] {
      SomethingIsAdmissible(rate, dir, rows);
      var all := EvaluateAll(Candidates(dir, rows), rows);
      var admissible := KeepAdmissible(rate, all);
      var most := Most(admissible);
      var tied := KeepMost(admissible, most);
      var o := First(tied);
      EvaluatedCandidate(dir, rows, o);
      ChosenIsOptimal(rate, dir, rows, o);
      ChosenIsCanonical(rate, dir, rows, o);
    }
  }

  lemma {:induction false} ChosenIsOptimal(rate: Rate, dir: Direction, rows: seq<Row>, o: Outcome)
    requires ScoresOf(rows, Impostor) != []
    requires var admissible := KeepAdmissible(rate, EvaluateAll(Candidates(dir, rows), rows));
      admissible != [] && o in KeepMost(admissible, Most(admissible))
    ensures IsOptimal(rate, dir, ScoresOf(rows, Impostor), o.boundary)
  {
    var scores := ScoresOf(rows, Impostor);
    EvaluatedCandidate(dir, rows, o);
    forall c: Boundary | Admits(dir, c.comparator) && Permits(rate, Count(c, scores), |scores|)
      ensures Accepted(c, scores) <= Accepted(o.boundary, scores) && Count(c, scores) <= Count(o.boundary, scores)
    {
      var better := CandidateFor(rate, dir, rows, c);
      CountingIsFaithful(dir, c, o.boundary, scores);
      assert forall x :: x in scores && Decides(c, x) ==> x in Accepted(c, scores);
      CountMonotone(c, o.boundary, scores);
    }
  }

  lemma {:induction false} ChosenIsCanonical(rate: Rate, dir: Direction, rows: seq<Row>, o: Outcome)
    requires ScoresOf(rows, Impostor) != []
    requires var admissible := KeepAdmissible(rate, EvaluateAll(Candidates(dir, rows), rows));
      admissible != [] && o == First(KeepMost(admissible, Most(admissible)))
    ensures o.boundary == Canonical(dir, o.boundary, ScoresOf(rows, Impostor))
  {
    var scores := ScoresOf(rows, Impostor);
    var admissible := KeepAdmissible(rate, EvaluateAll(Candidates(dir, rows), rows));
    EvaluatedCandidate(dir, rows, o);
    var twin := CandidateFor(rate, dir, rows, o.boundary);
    assert twin in KeepMost(admissible, Most(admissible));
    assert KeyAtMost(o.boundary, twin.boundary);
    if IsStrict(o.boundary.comparator) {
      assert IsStrict(twin.boundary.comparator);
      var ranked := Rank(dir, scores);
      PrefixAccepted(dir, o.boundary, ranked);
      assert forall x :: x in scores ==> !Decides(o.boundary, x) by {
        forall x | x in scores ensures !Decides(o.boundary, x) {
          assert x in ranked;
        }
      }
    }
    SpelledOnce(dir, o.boundary, scores);
  }

  /** Optimal and canonically spelled: at most one boundary is. */
  lemma {:induction false} OptimalIsUnique(rate: Rate, dir: Direction, scores: seq<real>, b: Boundary, c: Boundary)
    requires scores != []
    requires IsOptimal(rate, dir, scores, b) && b == Canonical(dir, b, scores)
    requires IsOptimal(rate, dir, scores, c) && c == Canonical(dir, c, scores)
    ensures b == c
  {
    forall x | x in scores ensures Decides(b, x) <==> Decides(c, x) {
      assert x in Accepted(b, scores) <==> x in Accepted(c, scores);
    }
    CanonicalAgrees(dir, b, c, scores);
  }

  // ----------------------------------- the same, by the rows and the two rates

  /** The places of one population's scored rows. */
  ghost function ScoredIn(rows: seq<Row>, truth: Truth): set<nat> {
    set i: nat | i < |rows| && rows[i].truth == truth && rows[i].attempt.Scored?
  }

  /** The places of one population's rows that a boundary calls a match. */
  ghost function MatchedIn(b: Boundary, rows: seq<Row>, truth: Truth): set<nat> {
    set i: nat | i < |rows| && rows[i].truth == truth && rows[i].attempt.Scored? && Decides(b, rows[i].attempt.score)
  }

  lemma {:induction false} CountOfConcat(b: Boundary, v: seq<real>, w: seq<real>)
    ensures Count(b, v + w) == Count(b, v) + Count(b, w)
  {
    if v == [] {
      assert v + w == w;
    } else {
      assert (v + w)[1..] == v[1..] + w;
      CountOfConcat(b, v[1..], w);
    }
  }

  lemma {:induction false} OneMorePlace(less: set<nat>, more: set<nat>, n: nat)
    requires n !in less && forall i :: i in more <==> i in less || (i == n && n in more)
    ensures |more| == |less| + if n in more then 1 else 0
  {
    assert more == if n in more then less + {n} else less;
  }

  lemma {:induction false} OneMoreMatched(b: Boundary, before: seq<Row>, row: Row, truth: Truth)
    ensures |MatchedIn(b, before + [row], truth)| ==
      |MatchedIn(b, before, truth)| + Count(b, ScoresOf([row], truth))
  {
    assert [row][1..] == [] && forall i :: 0 <= i < |before| ==> (before + [row])[i] == before[i];
    OneMorePlace(MatchedIn(b, before, truth), MatchedIn(b, before + [row], truth), |before|);
  }

  lemma {:induction false} OneMoreScored(before: seq<Row>, row: Row, truth: Truth)
    ensures |ScoredIn(before + [row], truth)| == |ScoredIn(before, truth)| + |ScoresOf([row], truth)|
  {
    assert [row][1..] == [] && forall i :: 0 <= i < |before| ==> (before + [row])[i] == before[i];
    OneMorePlace(ScoredIn(before, truth), ScoredIn(before + [row], truth), |before|);
  }

  /** The counts of the selection are numbers of rows. */
  lemma {:induction false} CountsAreRows(b: Boundary, rows: seq<Row>, truth: Truth)
    ensures Count(b, ScoresOf(rows, truth)) == |MatchedIn(b, rows, truth)|
    ensures |ScoresOf(rows, truth)| == |ScoredIn(rows, truth)|
  {
    if rows != [] {
      var before, row := rows[..|rows| - 1], rows[|rows| - 1];
      assert rows == before + [row];
      CountsAreRows(b, before, truth);
      OneMoreMatched(b, before, row, truth);
      OneMoreScored(before, row, truth);
      ScoresOfConcat(before, [row], truth);
      CountOfConcat(b, ScoresOf(before, truth), ScoresOf([row], truth));
    }
  }

  lemma {:induction false} ScoreThere(rows: seq<Row>, truth: Truth, i: nat)
    requires i in ScoredIn(rows, truth)
    ensures rows[i].attempt.score in ScoresOf(rows, truth)
  {
    if i > 0 { ScoreThere(rows[1..], truth, i - 1); }
  }

  /** The rate a boundary is held to: impostor rows it matches over scored impostor rows. */
  ghost function ObservedRate(b: Boundary, rows: seq<Row>): real
    requires ScoredIn(rows, Impostor) != {}
  {
    |MatchedIn(b, rows, Impostor)| as real / |ScoredIn(rows, Impostor)| as real
  }

  /**
   A boundary whose observed rate is within the ceiling, and any other of its direction, observed or not, whose
   rate is within the ceiling matches no impostor row that this one does not.
   */
  ghost predicate MostPermissive(ceiling: real, dir: Direction, rows: seq<Row>, b: Boundary) {
    && ScoredIn(rows, Impostor) != {} && Admits(dir, b.comparator)
    && ObservedRate(b, rows) <= ceiling
    && (forall c: Boundary :: Admits(dir, c.comparator) && ObservedRate(c, rows) <= ceiling ==>
          MatchedIn(c, rows, Impostor) <= MatchedIn(b, rows, Impostor))
  }

  /** The published counts, by counting rows. */
  ghost predicate CountsRows(o: Outcome, rows: seq<Row>) {
    && o.impostorMatches == |MatchedIn(o.boundary, rows, Impostor)| && o.impostorScored == |ScoredIn(rows, Impostor)|
    && o.matedMatches == |MatchedIn(o.boundary, rows, Mated)| && o.matedScored == |ScoredIn(rows, Mated)|
  }

  lemma {:induction false} PermittedByRows(rate: Rate, b: Boundary, rows: seq<Row>)
    requires rate.denominator > 0 && ScoredIn(rows, Impostor) != {}
    ensures var scores := ScoresOf(rows, Impostor);
      Permits(rate, Count(b, scores), |scores|) <==>
      ObservedRate(b, rows) <= rate.numerator as real / rate.denominator as real
  {
    CountsAreRows(b, rows, Impostor);
    PermitsIsExact(rate, |MatchedIn(b, rows, Impostor)|, |ScoredIn(rows, Impostor)|);
  }

  /** Whatever the ceiling, `select_boundary` answers when an impostor row has a score, and with the most permissive. */
  lemma {:induction false} SelectionIsMostPermissive(rate: Rate, dir: Direction, rows: seq<Row>)
    requires rate.denominator > 0
    ensures Select(rate, dir, rows).Ok? <==> ScoredIn(rows, Impostor) != {}
    ensures Select(rate, dir, rows).Ok? ==>
      var o, ceiling := Select(rate, dir, rows).value, rate.numerator as real / rate.denominator as real;
      MostPermissive(ceiling, dir, rows, o.boundary) && CountsRows(o, rows)
  {
    var scores := ScoresOf(rows, Impostor);
    SelectionIsOptimal(rate, dir, rows);
    CountsAreRows(Boundary(0.0, Inclusive(dir)), rows, Impostor);
    if scores != [] {
      var o := Select(rate, dir, rows).value;
      var b := o.boundary;
      CountsAreRows(b, rows, Impostor);
      CountsAreRows(b, rows, Mated);
      PermittedByRows(rate, b, rows);
      forall c: Boundary | Admits(dir, c.comparator)
        && ObservedRate(c, rows) <= rate.numerator as real / rate.denominator as real
        ensures MatchedIn(c, rows, Impostor) <= MatchedIn(b, rows, Impostor)
      {
        PermittedByRows(rate, c, rows);
        AcceptedMatches(c, b, rows);
      }
    }
  }

  lemma {:induction false} AcceptedMatches(c: Boundary, b: Boundary, rows: seq<Row>)
    requires Accepted(c, ScoresOf(rows, Impostor)) <= Accepted(b, ScoresOf(rows, Impostor))
    ensures MatchedIn(c, rows, Impostor) <= MatchedIn(b, rows, Impostor)
  {
    forall i | i in MatchedIn(c, rows, Impostor) ensures i in MatchedIn(b, rows, Impostor) {
      ScoreThere(rows, Impostor, i);
      assert rows[i].attempt.score in Accepted(c, ScoresOf(rows, Impostor));
    }
  }

  // ----------------------------------------- what the choice does not depend on

  lemma {:induction false} CountRemoved(b: Boundary, scores: seq<real>, i: nat)
    requires i < |scores|
    ensures Count(b, scores) == Count(b, scores[..i] + scores[i + 1..]) + if Decides(b, scores[i]) then 1 else 0
  {
    if i == 0 {
      assert scores[..0] + scores[1..] == scores[1..];
    } else {
      CountRemoved(b, scores[1..], i - 1);
      assert (scores[..i] + scores[i + 1..])[1..] == scores[1..][..i - 1] + scores[1..][i..];
    }
  }

  lemma {:induction false} RestPermuted<T>(v: seq<T>, w: seq<T>, i: nat)
    requires multiset(v) == multiset(w) && v != [] && i < |w| && w[i] == v[0]
    ensures multiset(v[1..]) == multiset(w[..i] + w[i + 1..])
  {
    assert v == [v[0]] + v[1..];
    assert w == w[..i] + [w[i]] + w[i + 1..];
    assert multiset(w[..i] + w[i + 1..]) == multiset(w) - multiset{w[i]};
  }

  lemma {:induction false} CountPermuted(b: Boundary, v: seq<real>, w: seq<real>)
    requires multiset(v) == multiset(w)
    ensures Count(b, v) == Count(b, w)
  {
    assert |v| == |multiset(v)| == |multiset(w)| == |w|;
    if v != [] {
      assert v[0] in multiset(v) && v[0] in multiset(w);
      var i :| 0 <= i < |w| && w[i] == v[0];
      var rest := w[..i] + w[i + 1..];
      RestPermuted(v, w, i);
      CountRemoved(b, w, i);
      CountPermuted(b, v[1..], rest);
    }
  }

  /** The boundary is a function of the scores of the impostor comparisons alone, whatever their order. */
  lemma {:induction false} OnlyImpostorsDecide(rate: Rate, dir: Direction, rows: seq<Row>, others: seq<Row>)
    requires rate.denominator > 0
    requires multiset(ScoresOf(rows, Impostor)) == multiset(ScoresOf(others, Impostor))
    ensures Select(rate, dir, rows).Ok? == Select(rate, dir, others).Ok?
    ensures Select(rate, dir, rows).Ok? ==>
      Select(rate, dir, rows).value.boundary == Select(rate, dir, others).value.boundary
  {
    var v, w := ScoresOf(rows, Impostor), ScoresOf(others, Impostor);
    SelectionIsOptimal(rate, dir, rows);
    SelectionIsOptimal(rate, dir, others);
    assert |v| == |multiset(v)| == |multiset(w)| == |w|;
    if v != [] {
      assert w != [];
      var b, c := Select(rate, dir, rows).value.boundary, Select(rate, dir, others).value.boundary;
      SameScores(rate, dir, v, w, b);
      OptimalIsUnique(rate, dir, w, b, c);
    }
  }

  lemma {:induction false} SameScores(rate: Rate, dir: Direction, v: seq<real>, w: seq<real>, b: Boundary)
    requires multiset(v) == multiset(w) && v != []
    requires IsOptimal(rate, dir, v, b) && b == Canonical(dir, b, v)
    ensures w != [] && IsOptimal(rate, dir, w, b) && b == Canonical(dir, b, w)
  {
    assert |v| == |multiset(v)| == |multiset(w)| == |w|;
    forall x ensures x in v <==> x in w {
      assert x in v <==> x in multiset(v);
      assert x in w <==> x in multiset(w);
    }
    forall c: Boundary ensures Count(c, v) == Count(c, w) && Accepted(c, v) == Accepted(c, w) {
      CountPermuted(c, v, w);
    }
    RankedUnique(dir, Rank(dir, v), Rank(dir, w));
  }

  // ---------------------------------------------------- changes to the rows

  /** Rows that are no scored impostor comparison: mated ones, and failures of either kind. */
  predicate Silent(rows: seq<Row>) {
    forall r :: r in rows ==> r.truth == Mated || r.attempt.Failed?
  }

  lemma {:induction false} SilentScoresNothing(rows: seq<Row>)
    requires Silent(rows)
    ensures ScoresOf(rows, Impostor) == []
  {
    if rows != [] {
      assert rows[0] in rows && forall r :: r in rows[1..] ==> r in rows;
      SilentScoresNothing(rows[1..]);
    }
  }

  lemma {:induction false} ScoresOfConcat(a: seq<Row>, b: seq<Row>, truth: Truth)
    ensures ScoresOf(a + b, truth) == ScoresOf(a, truth) + ScoresOf(b, truth)
  {
    if a == [] {
      assert a + b == b;
    } else {
      assert (a + b)[1..] == a[1..] + b;
      ScoresOfConcat(a[1..], b, truth);
    }
  }

  lemma {:induction false} ScoresRemoved(rows: seq<Row>, i: nat, truth: Truth)
    requires i < |rows|
    ensures multiset(ScoresOf(rows, truth)) ==
      multiset(ScoresOf([rows[i]], truth)) + multiset(ScoresOf(rows[..i] + rows[i + 1..], truth))
  {
    assert rows == rows[..i] + ([rows[i]] + rows[i + 1..]);
    ScoresOfConcat(rows[..i], [rows[i]] + rows[i + 1..], truth);
    ScoresOfConcat([rows[i]], rows[i + 1..], truth);
    ScoresOfConcat(rows[..i], rows[i + 1..], truth);
  }

  lemma {:induction false} ScoresPermuted(rows: seq<Row>, others: seq<Row>, truth: Truth)
    requires multiset(rows) == multiset(others)
    ensures multiset(ScoresOf(rows, truth)) == multiset(ScoresOf(others, truth))
  {
    assert |rows| == |multiset(rows)| == |multiset(others)| == |others|;
    if rows != [] {
      assert rows[0] in multiset(rows) && rows[0] in multiset(others);
      var i :| 0 <= i < |others| && others[i] == rows[0];
      RestPermuted(rows, others, i);
      ScoresRemoved(rows, 0, truth);
      ScoresRemoved(others, i, truth);
      assert rows[..0] + rows[1..] == rows[1..];
      ScoresPermuted(rows[1..], others[..i] + others[i + 1..], truth);
    }
  }

  /**
   Permuting the rows and replacing any stretch of mated rows and failures by any other, so adding,
   removing or rescoring them, leaves the boundary where it is.
   */
  lemma {:induction false} RowChangesMoveNothing(rate: Rate, dir: Direction, before: seq<Row>, gone: seq<Row>,
                                                 come: seq<Row>, after: seq<Row>, others: seq<Row>)
    requires rate.denominator > 0 && Silent(gone) && Silent(come)
    requires multiset(others) == multiset(before + come + after)
    ensures Select(rate, dir, before + gone + after).Ok? == Select(rate, dir, others).Ok?
    ensures Select(rate, dir, others).Ok? ==>
      Select(rate, dir, before + gone + after).value.boundary == Select(rate, dir, others).value.boundary
  {
    SilentScoresNothing(gone);
    SilentScoresNothing(come);
    ScoresPermuted(others, before + come + after, Impostor);
    ScoresOfConcat(before + gone, after, Impostor);
    ScoresOfConcat(before + come, after, Impostor);
    ScoresOfConcat(before, gone, Impostor);
    ScoresOfConcat(before, come, Impostor);
    OnlyImpostorsDecide(rate, dir, before + gone + after, others);
  }
}
