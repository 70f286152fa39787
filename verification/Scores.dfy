/** Score directions, distinct scores in rank order, and threshold boundaries over raw scores. */
module Scores {
  datatype Direction = HigherIsBetter | LowerIsBetter

  datatype Comparator = AtLeast | Above | AtMost | Below

  datatype Boundary = Boundary(threshold: real, comparator: Comparator)

  /** `CandidateBoundary.decides`: the one definition of a match. */
  predicate Decides(b: Boundary, score: real) {
    match b.comparator
    case AtLeast => score >= b.threshold
    case Above => score > b.threshold
    case AtMost => score <= b.threshold
    case Below => score < b.threshold
  }

  predicate IsStrict(c: Comparator) { c.Above? || c.Below? }

  function Inclusive(dir: Direction): Comparator { if dir.HigherIsBetter? then AtLeast else AtMost }

  function Strict(dir: Direction): Comparator { if dir.HigherIsBetter? then Above else Below }

  /** The comparators a direction admits. */
  predicate Admits(dir: Direction, c: Comparator) { c == Inclusive(dir) || c == Strict(dir) }

  predicate Beats(dir: Direction, x: real, y: real) {
    if dir.HigherIsBetter? then x > y else x < y
  }

  /** An inclusive boundary accepts its threshold and what beats it, a strict one only what beats it. */
  lemma {:induction false} DecidesByOrder(dir: Direction, threshold: real, score: real)
    ensures Decides(Boundary(threshold, Strict(dir)), score) <==>
      (dir == HigherIsBetter && threshold < score) || (dir == LowerIsBetter && score < threshold)
    ensures Decides(Boundary(threshold, Inclusive(dir)), score) <==>
      (dir == HigherIsBetter && threshold <= score) || (dir == LowerIsBetter && score <= threshold)
  {
  }

  /** Best first, no score twice. */
  predicate Ranked(dir: Direction, s: seq<real>) {
    forall i, j :: 0 <= i < j < |s| ==> Beats(dir, s[i], s[j])
  }

  function Insert(dir: Direction, s: seq<real>, x: real): (r: seq<real>)
    requires Ranked(dir, s)
    ensures Ranked(dir, r)
    ensures forall y :: y in r <==> y == x || y in s
  {
    if s == [] then [x]
    else if x == s[0] then s
    else if Beats(dir, x, s[0]) then [x] + s
    else
      var r := Insert(dir, s[1..], x);
      assert forall i :: 0 <= i < |r| ==> r[i] in r;
      [s[0]] + r
  }

  /** `sorted(set(scores))`, best first. */
  function Rank(dir: Direction, scores: seq<real>): (r: seq<real>)
    ensures Ranked(dir, r)
    ensures forall y :: y in r <==> y in scores
  {
    if scores == [] then [] else Insert(dir, Rank(dir, scores[1..]), scores[0])
  }

  /** A ranked sequence is determined by what is in it. */
  lemma {:induction false} RankedUnique(dir: Direction, s: seq<real>, t: seq<real>)
    requires Ranked(dir, s) && Ranked(dir, t) && forall y :: y in s <==> y in t
    ensures s == t
  {
    assert s != [] ==> s[0] in s;
    assert t != [] ==> t[0] in t;
    if s != [] && t != [] {
      assert forall y :: y in s ==> y == s[0] || Beats(dir, s[0], y);
      assert forall y :: y in t ==> y == t[0] || Beats(dir, t[0], y);
      assert s[0] == t[0];
      forall y ensures y in s[1..] <==> y in t[1..] {
        if y in s[1..] { assert y in s && y != s[0]; }
        if y in t[1..] { assert y in t && y != t[0]; }
      }
      RankedUnique(dir, s[1..], t[1..]);
    }
  }

  function Count(b: Boundary, scores: seq<real>): (n: nat)
    ensures n <= |scores|
  {
    if scores == [] then 0 else (if Decides(b, scores[0]) then 1 else 0) + Count(b, scores[1..])
  }

  lemma {:induction false} NoneCounted(b: Boundary, scores: seq<real>)
    requires forall x :: x in scores ==> !Decides(b, x)
    ensures Count(b, scores) == 0
  {
    if scores != [] {
      NoneCounted(b, scores[1..]);
    }
  }

  function Accepted(b: Boundary, scores: seq<real>): set<real> {
    set x | x in scores && Decides(b, x)
  }

  /** Of two boundaries of one direction, one accepts everything the other does. */
  lemma {:induction false} RegionsNest(dir: Direction, b: Boundary, c: Boundary)
    requires Admits(dir, b.comparator) && Admits(dir, c.comparator)
    ensures (forall x :: Decides(b, x) ==> Decides(c, x)) || (forall x :: Decides(c, x) ==> Decides(b, x))
  {
  }

  /** Accepting more scores means accepting at least as many comparisons. */
  lemma {:induction false} CountMonotone(b: Boundary, c: Boundary, scores: seq<real>)
    requires forall x :: x in scores && Decides(b, x) ==> Decides(c, x)
    ensures Count(b, scores) <= Count(c, scores)
    ensures Accepted(b, scores) == Accepted(c, scores) ==> Count(b, scores) == Count(c, scores)
  {
    if scores != [] {
      assert forall x :: x in scores[1..] ==> x in scores;
      CountMonotone(b, c, scores[1..]);
      if Accepted(b, scores) == Accepted(c, scores) {
        assert Decides(b, scores[0]) <==> scores[0] in Accepted(b, scores);
        assert Decides(c, scores[0]) <==> scores[0] in Accepted(c, scores);
        assert Accepted(b, scores[1..]) == Accepted(c, scores[1..]) by {
          forall x ensures x in Accepted(b, scores[1..]) <==> x in Accepted(c, scores[1..]) {
            if x in scores[1..] {
              assert Decides(b, x) <==> x in Accepted(b, scores);
              assert Decides(c, x) <==> x in Accepted(c, scores);
            }
          }
        }
      }
    }
  }

  /**
   Accepted sets form a chain, so counting distinct scores orders boundaries faithfully: a
   larger count is a superset, and equal counts are equal sets.
   */
  lemma {:induction false} CountingIsFaithful(dir: Direction, b: Boundary, c: Boundary, scores: seq<real>)
    requires Admits(dir, b.comparator) && Admits(dir, c.comparator)
    ensures |Accepted(b, scores)| <= |Accepted(c, scores)| <==> Accepted(b, scores) <= Accepted(c, scores)
    ensures |Accepted(b, scores)| == |Accepted(c, scores)| <==> Accepted(b, scores) == Accepted(c, scores)
  {
    var x, y := Accepted(b, scores), Accepted(c, scores);
    RegionsNest(dir, b, c);
    assert x <= y || y <= x;
    if x <= y { SubsetSize(x, y); }
    if y <= x { SubsetSize(y, x); }
  }

  lemma {:induction false} SubsetSize<T>(x: set<T>, y: set<T>)
    requires x <= y
    ensures |x| <= |y| && (|x| == |y| ==> x == y)
  {
    assert |y| == |x| + |y - x| by { assert y == x + (y - x); }
    if x != y { assert y - x != {}; }
  }
}
