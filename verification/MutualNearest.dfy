/**
 Mutual-nearest-neighbour matching of detected points against marked ones. Distances stand in a
 matrix with a row for each prediction and a column for each marked point; nearest means least
 distance, and among equals the first index.
 */
module MutualNearest {
  type Matrix = seq<seq<real>>

  predicate Shaped(d: Matrix, rows: nat, columns: nat) {
    |d| == rows && forall p :: 0 <= p < rows ==> |d[p]| == columns
  }

  /** The first index of a least element. */
  function ArgMin(xs: seq<real>): (r: nat)
    requires xs != []
    ensures r < |xs|
    ensures forall k :: 0 <= k < |xs| ==> xs[r] <= xs[k]
    ensures forall k :: 0 <= k < r ==> xs[r] < xs[k]
  {
    if |xs| == 1 then 0
    else
      var best := ArgMin(xs[..|xs| - 1]);
      if xs[|xs| - 1] < xs[best] then |xs| - 1 else best
  }

  function Transpose(d: Matrix, rows: nat, columns: nat): (t: Matrix)
    requires Shaped(d, rows, columns)
    ensures Shaped(t, columns, rows)
    ensures forall p, g :: 0 <= p < rows && 0 <= g < columns ==> t[g][p] == d[p][g]
  {
    seq(columns, g requires 0 <= g < columns => seq(rows, p requires 0 <= p < rows => d[p][g]))
  }

  /** The nearest marked point of each prediction, and the nearest prediction of each marked point. */
  function NearestMarked(d: Matrix, rows: nat, columns: nat): (r: seq<nat>)
    requires Shaped(d, rows, columns) && columns > 0
    ensures |r| == rows && forall p :: 0 <= p < rows ==> r[p] == ArgMin(d[p]) < columns
  {
    seq(rows, p requires 0 <= p < rows => ArgMin(d[p]))
  }

  function NearestPrediction(d: Matrix, rows: nat, columns: nat): (r: seq<nat>)
    requires Shaped(d, rows, columns) && rows > 0
    ensures |r| == columns
    ensures forall g :: 0 <= g < columns ==> r[g] == ArgMin(Transpose(d, rows, columns)[g]) < rows
  {
    var t := Transpose(d, rows, columns);
    seq(columns, g requires 0 <= g < columns => ArgMin(t[g]))
  }

  /** The sum of `mutual_nn_stats`: the marked points below `limit` that their nearest prediction names back. */
  function CountBack(nearestMarked: seq<nat>, nearestPrediction: seq<nat>, limit: nat): nat
    requires limit <= |nearestPrediction|
    requires forall g :: 0 <= g < |nearestPrediction| ==> nearestPrediction[g] < |nearestMarked|
  {
    if limit == 0 then 0
    else
      var g := limit - 1;
      CountBack(nearestMarked, nearestPrediction, g) + if nearestMarked[nearestPrediction[g]] == g then 1 else 0
  }

  function MutualCount(d: Matrix, rows: nat, columns: nat): nat
    requires Shaped(d, rows, columns)
  {
    if rows == 0 || columns == 0 then 0
    else CountBack(NearestMarked(d, rows, columns), NearestPrediction(d, rows, columns), columns)
  }

  /** Each is the other's nearest, by the distances alone. */
  predicate Mutual(d: Matrix, p: nat, g: nat)
    requires p < |d| && forall k :: 0 <= k < |d| ==> g < |d[k]|
  {
    && (forall k :: 0 <= k < |d[p]| ==> if k < g then d[p][g] < d[p][k] else d[p][g] <= d[p][k])
    && (forall k :: 0 <= k < |d| ==> if k < p then d[p][g] < d[k][g] else d[p][g] <= d[k][g])
  }

  ghost function Matching(d: Matrix, rows: nat, columns: nat): (m: set<(nat, nat)>)
    requires Shaped(d, rows, columns)
    ensures forall p: nat, g: nat :: (p, g) in m <==> p < rows && g < columns && Mutual(d, p, g)
  {
    set p: nat, g: nat | p < rows && g < columns && Mutual(d, p, g) :: (p, g)
  }

  /** Being named back is being mutual, and only with the nearest prediction. */
  lemma {:induction false} NamedBackIffMutual(d: Matrix, rows: nat, columns: nat, p: nat, g: nat)
    requires Shaped(d, rows, columns) && p < rows && g < columns
    ensures Mutual(d, p, g) <==> ArgMin(Transpose(d, rows, columns)[g]) == p && ArgMin(d[p]) == g
  {
  }

  lemma {:induction false} InjectiveImageSize<A, B>(from: set<A>, into: set<B>, f: A --> B)
    requires forall a :: a in from ==> f.requires(a) && f(a) in into
    requires forall a, b :: a in from && b in from && f(a) == f(b) ==> a == b
    ensures |from| <= |into|
  {
    if from != {} {
      var a :| a in from;
      InjectiveImageSize(from - {a}, into - {f(a)}, f);
    }
  }

  ghost function NamedBack(nearestMarked: seq<nat>, nearestPrediction: seq<nat>, limit: nat): set<nat>
    requires limit <= |nearestPrediction|
    requires forall g :: 0 <= g < |nearestPrediction| ==> nearestPrediction[g] < |nearestMarked|
  {
    set g: nat | g < limit && nearestMarked[nearestPrediction[g]] == g
  }

  lemma {:induction false} CountIsNamedBack(nearestMarked: seq<nat>, nearestPrediction: seq<nat>, limit: nat)
    requires limit <= |nearestPrediction|
    requires forall g :: 0 <= g < |nearestPrediction| ==> nearestPrediction[g] < |nearestMarked|
    ensures CountBack(nearestMarked, nearestPrediction, limit) == |NamedBack(nearestMarked, nearestPrediction, limit)|
  {
    if limit > 0 {
      var g := limit - 1;
      CountIsNamedBack(nearestMarked, nearestPrediction, g);
      var less := NamedBack(nearestMarked, nearestPrediction, g);
      var more := NamedBack(nearestMarked, nearestPrediction, limit);
      assert more == if nearestMarked[nearestPrediction[g]] == g then less + {g} else less;
    }
  }

  /** A pair is mutual exactly when its marked point is named back, and the prediction is that point's nearest. */
  lemma {:induction false} MutualByNearest(d: Matrix, rows: nat, columns: nat, p: nat, g: nat)
    requires Shaped(d, rows, columns) && p < rows && g < columns
    ensures Mutual(d, p, g) <==>
      NearestPrediction(d, rows, columns)[g] == p && NearestMarked(d, rows, columns)[p] == g
  {
  }

  lemma {:induction false} CountIsMatching(d: Matrix, rows: nat, columns: nat)
    requires Shaped(d, rows, columns) && rows > 0 && columns > 0
    ensures MutualCount(d, rows, columns) == |Matching(d, rows, columns)|
  {
    var nm, np := NearestMarked(d, rows, columns), NearestPrediction(d, rows, columns);
    var named, m := NamedBack(nm, np, columns), Matching(d, rows, columns);
    CountIsNamedBack(nm, np, columns);
    forall p: nat, g: nat | p < rows && g < columns ensures Mutual(d, p, g) <==> np[g] == p && nm[p] == g {
      MutualByNearest(d, rows, columns, p, g);
    }
    var partner := (g: nat) => if g < columns then (np[g], g) else (0, g);
    assert forall g :: g in named ==> partner(g) in m;
    InjectiveImageSize(named, m, partner);
    assert forall c :: c in m ==> c.1 in named;
    InjectiveImageSize(m, named, (c: (nat, nat)) => c.1);
  }

  /** The count is the size of the mutual matching, in which no prediction and no marked point occurs twice. */
  lemma {:induction false} CountIsAMatching(d: Matrix, rows: nat, columns: nat)
    requires Shaped(d, rows, columns)
    ensures MutualCount(d, rows, columns) == |Matching(d, rows, columns)|
    ensures forall a, b :: a in Matching(d, rows, columns) && b in Matching(d, rows, columns) ==>
      (a.0 == b.0 <==> a.1 == b.1)
  {
    var m := Matching(d, rows, columns);
    if rows == 0 || columns == 0 {
      assert m == {};
    } else {
      CountIsMatching(d, rows, columns);
    }
    forall a, b | a in m && b in m ensures a.0 == b.0 <==> a.1 == b.1 {
      NamedBackIffMutual(d, rows, columns, a.0, a.1);
      NamedBackIffMutual(d, rows, columns, b.0, b.1);
    }
  }

  lemma {:induction false} IndicesBelow(n: nat) returns (s: set<nat>)
    ensures |s| == n && forall k: nat :: k in s <==> k < n
  {
    if n == 0 {
      s := {};
    } else {
      var less := IndicesBelow(n - 1);
      s := less + {n - 1};
    }
  }

  /** No more true detections than predictions, nor than marked points: precision and recall stay within one. */
  lemma {:induction false} AtMostEitherSide(d: Matrix, rows: nat, columns: nat)
    requires Shaped(d, rows, columns)
    ensures MutualCount(d, rows, columns) <= rows && MutualCount(d, rows, columns) <= columns
  {
    CountIsAMatching(d, rows, columns);
    var m := Matching(d, rows, columns);
    var ps := IndicesBelow(rows);
    var gs := IndicesBelow(columns);
    InjectiveImageSize(m, ps, (c: (nat, nat)) => c.0);
    InjectiveImageSize(m, gs, (c: (nat, nat)) => c.1);
  }

  /** Marked points and predictions may change places. */
  lemma {:induction false} SidesMaySwap(d: Matrix, rows: nat, columns: nat)
    requires Shaped(d, rows, columns)
    ensures MutualCount(Transpose(d, rows, columns), columns, rows) == MutualCount(d, rows, columns)
  {
    var t := Transpose(d, rows, columns);
    var m, n := Matching(d, rows, columns), Matching(t, columns, rows);
    CountIsAMatching(d, rows, columns);
    CountIsAMatching(t, columns, rows);
    forall p: nat, g: nat | p < rows && g < columns ensures Mutual(d, p, g) <==> Mutual(t, g, p) {
      MutualTransposed(d, rows, columns, p, g);
    }
    InjectiveImageSize(m, n, (c: (nat, nat)) => (c.1, c.0));
    InjectiveImageSize(n, m, (c: (nat, nat)) => (c.1, c.0));
  }

  lemma {:induction false} MutualTransposed(d: Matrix, rows: nat, columns: nat, p: nat, g: nat)
    requires Shaped(d, rows, columns) && p < rows && g < columns
    ensures Mutual(d, p, g) <==> Mutual(Transpose(d, rows, columns), g, p)
  {
    var t := Transpose(d, rows, columns);
    assert forall k :: 0 <= k < columns ==> t[k][p] == d[p][k];
    assert forall k :: 0 <= k < rows ==> t[g][k] == d[k][g];
  }

  /** The first row to hold the least distance of all. */
  lemma {:induction false} FirstLeastRow(d: Matrix, rows: nat, columns: nat) returns (p: nat)
    requires Shaped(d, rows, columns) && rows > 0 && columns > 0
    ensures p < rows
    ensures forall q, g :: 0 <= q < rows && 0 <= g < columns ==>
      if q < p then d[p][ArgMin(d[p])] < d[q][g] else d[p][ArgMin(d[p])] <= d[q][g]
  {
    var last := rows - 1;
    if last == 0 { return 0; }
    var before := FirstLeastRow(d[..last], last, columns);
    p := if d[last][ArgMin(d[last])] < d[before][ArgMin(d[before])] then last else before;
    assert forall q :: 0 <= q < last ==> d[..last][q] == d[q];
  }

  /** With something on both sides something is always counted, whatever the distances. */
  lemma {:induction false} SomethingMatches(d: Matrix, rows: nat, columns: nat)
    requires Shaped(d, rows, columns) && rows > 0 && columns > 0
    ensures MutualCount(d, rows, columns) >= 1
  {
    var p := FirstLeastRow(d, rows, columns);
    var g := ArgMin(d[p]);
    assert Mutual(d, p, g);
    CountIsAMatching(d, rows, columns);
    assert (p, g) in Matching(d, rows, columns);
  }
}
