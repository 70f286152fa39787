/**
 Scanline filters of an 8-bit grayscale PNG (RFC 2083, section 6) and the in-place loop that
 undoes them. One byte per pixel, so the byte to the left is the pixel to the left.
 */
module PngFilter {
  import opened Bytes

  /** `value & 0xFF`. */
  function Low(value: int): Byte { value % 256 }

  function Abs(x: int): (r: nat)
    ensures r == x || r == -x
  {
    if x < 0 then -x else x
  }

  /** Section 6.6: of left, above and upper left, the one nearest to left + above - upper left. */
  function Paeth(left: Byte, above: Byte, upperLeft: Byte): (r: Byte)
    ensures r == left || r == above || r == upperLeft
  {
    var p := left + above - upperLeft;
    var pa, pb, pc := Abs(p - left), Abs(p - above), Abs(p - upperLeft);
    if pa <= pb && pa <= pc then left else if pb <= pc then above else upperLeft
  }

  /** What the filter of type `ft` predicts for a byte from its restored neighbours. */
  function Predict(ft: Byte, left: Byte, above: Byte, upperLeft: Byte): Byte
    requires ft <= 4
  {
    if ft == 0 then 0
    else if ft == 1 then left
    else if ft == 2 then above
    else if ft == 3 then (left + above) / 2
    else Paeth(left, above, upperLeft)
  }

  /**
   Section 6.6 by the distances alone: one of the three neighbours, as near to the estimate as any; and of
   equally near ones the left one first, then the one above.
   */
  predicate IsPaeth(p: Byte, left: Byte, above: Byte, upperLeft: Byte) {
    var estimate := left + above - upperLeft;
    var nearness := Abs(estimate - p);
    && (p == left || p == above || p == upperLeft)
    && nearness <= Abs(estimate - left) && nearness <= Abs(estimate - above) && nearness <= Abs(estimate - upperLeft)
    && (nearness == Abs(estimate - left) ==> p == left)
    && (nearness != Abs(estimate - left) && nearness == Abs(estimate - above) ==> p == above)
  }

  lemma {:induction false} PaethByDistances(p: Byte, left: Byte, above: Byte, upperLeft: Byte)
    ensures p == Paeth(left, above, upperLeft) <==> IsPaeth(p, left, above, upperLeft)
  {
  }

  /** What undoing each filter makes of a stored byte, given the restored bytes left, above and upper left of it. */
  ghost predicate Undoes(ft: Byte, stored: Byte, left: Byte, above: Byte, upperLeft: Byte, value: Byte) {
    || (ft == 0 && value == stored)
    || (ft == 1 && value == Low(stored as int + left))
    || (ft == 2 && value == Low(stored as int + above))
    || (ft == 3 && exists q: Byte :: 2 * q <= left + above < 2 * q + 2 && value == Low(stored as int + q))
    || (ft == 4 && exists p: Byte :: IsPaeth(p, left, above, upperLeft) && value == Low(stored as int + p))
  }

  /** The byte to the left, zero outside the line. */
  function Before(line: seq<Byte>, i: nat): Byte
    requires i <= |line|
  {
    if i == 0 then 0 else line[i - 1]
  }

  /** Section 6.2 to 6.6: what an encoder stores for `line` below `above`. */
  function FilterLine(ft: Byte, line: seq<Byte>, above: seq<Byte>): (r: seq<Byte>)
    requires ft <= 4 && |above| == |line|
    ensures |r| == |line|
  {
    seq(|line|, i requires 0 <= i < |line| =>
      (line[i] - Predict(ft, Before(line, i), above[i], Before(above, i))) % 256)
  }

  /** The first `n` bytes of the line whose filtered form starts like `stored`. */
  function Restore(ft: Byte, stored: seq<Byte>, above: seq<Byte>, n: nat): (r: seq<Byte>)
    requires ft <= 4 && |above| == |stored| && n <= |stored|
    ensures |r| == n
  {
    if n == 0 then [] else
      var r := Restore(ft, stored, above, n - 1);
      r + [(stored[n - 1] + Predict(ft, Before(r, n - 1), above[n - 1], Before(above, n - 1))) % 256]
  }

  /** One restored byte: the recurrence reads restored bytes on the left and above. */
  predicate RestoredAt(ft: Byte, stored: seq<Byte>, above: seq<Byte>, line: seq<Byte>, i: nat)
    requires ft <= 4 && |above| == |stored| && i < |stored| && i < |line|
  {
    line[i] == (stored[i] + Predict(ft, Before(line, i), above[i], Before(above, i))) % 256
  }

  lemma {:induction false} RestoreAt(ft: Byte, stored: seq<Byte>, above: seq<Byte>, n: nat, i: nat)
    requires ft <= 4 && |above| == |stored| && i < n <= |stored|
    ensures RestoredAt(ft, stored, above, Restore(ft, stored, above, n), i)
    ensures Restore(ft, stored, above, n)[..i + 1] == Restore(ft, stored, above, i + 1)
    decreases n
  {
    var r := Restore(ft, stored, above, n);
    if i < n - 1 {
      RestoreAt(ft, stored, above, n - 1, i);
      assert r[..i + 1] == r[..n - 1][..i + 1];
    } else {
      assert r[..n] == r;
    }
  }

  /** Every restored byte, by its neighbours in the restored line and in the line above. */
  ghost predicate UndoneAt(ft: Byte, stored: seq<Byte>, above: seq<Byte>, line: seq<Byte>, i: nat)
    requires |above| == |stored| == |line| && i < |line|
  {
    Undoes(ft, stored[i], if i == 0 then 0 else line[i - 1], above[i], if i == 0 then 0 else above[i - 1], line[i])
  }

  lemma {:induction false} RestoredByNeighbours(ft: Byte, stored: seq<Byte>, above: seq<Byte>)
    requires ft <= 4 && |above| == |stored|
    ensures forall i :: 0 <= i < |stored| ==> UndoneAt(ft, stored, above, Restore(ft, stored, above, |stored|), i)
  {
    var line := Restore(ft, stored, above, |stored|);
    forall i | 0 <= i < |stored| ensures UndoneAt(ft, stored, above, line, i) {
      RestoreAt(ft, stored, above, |stored|, i);
      PredictionUndoes(ft, stored[i], Before(line, i), above[i], Before(above, i));
    }
  }

  lemma {:induction false} PredictionUndoes(ft: Byte, stored: Byte, left: Byte, above: Byte, upperLeft: Byte)
    requires ft <= 4
    ensures Undoes(ft, stored, left, above, upperLeft, Low(stored + Predict(ft, left, above, upperLeft)))
  {
    var q := Predict(ft, left, above, upperLeft);
    if ft == 3 {
      assert 2 * q <= left + above < 2 * q + 2;
    } else if ft == 4 {
      PaethByDistances(q, left, above, upperLeft);
    }
  }

  lemma {:induction false} ModCancel(a: Byte, b: Byte)
    ensures ((a - b) % 256 + b) % 256 == a
    ensures ((a + b) % 256 - b) % 256 == a
  {
  }

  /** Undoing a filter and filtering again gives the stored bytes back, and the other way round. */
  lemma {:induction false} FilterOfRestore(ft: Byte, stored: seq<Byte>, above: seq<Byte>)
    requires ft <= 4 && |above| == |stored|
    ensures FilterLine(ft, Restore(ft, stored, above, |stored|), above) == stored
  {
    var line := Restore(ft, stored, above, |stored|);
    forall i | 0 <= i < |stored| ensures FilterLine(ft, line, above)[i] == stored[i] {
      RestoreAt(ft, stored, above, |stored|, i);
      ModCancel(stored[i], Predict(ft, Before(line, i), above[i], Before(above, i)));
    }
  }

  lemma {:induction false} NextRestored(ft: Byte, line: seq<Byte>, above: seq<Byte>, i: nat)
    requires ft <= 4 && |above| == |line| && i < |line|
    requires Restore(ft, FilterLine(ft, line, above), above, i) == line[..i]
    ensures Restore(ft, FilterLine(ft, line, above), above, i + 1) == line[..i + 1]
  {
    assert Before(line[..i], i) == Before(line, i);
    ModCancel(line[i], Predict(ft, Before(line, i), above[i], Before(above, i)));
    assert line[..i + 1] == line[..i] + [line[i]];
  }

  lemma {:induction false} RestoreOfFilter(ft: Byte, line: seq<Byte>, above: seq<Byte>, n: nat)
    requires ft <= 4 && |above| == |line| && n <= |line|
    ensures Restore(ft, FilterLine(ft, line, above), above, n) == line[..n]
  {
    if n > 0 {
      RestoreOfFilter(ft, line, above, n - 1);
      NextRestored(ft, line, above, n - 1);
    }
  }

  // ------------------------------------------------------------- one scanline

  /** The line restored up to `n`, the rest still as stored. */
  predicate Partly(ft: Byte, stored: seq<Byte>, above: seq<Byte>, line: seq<Byte>, n: nat)
    requires ft <= 4 && |above| == |stored| && n <= |stored|
  {
    |line| == |stored| && line[..n] == Restore(ft, stored, above, n) && line[n..] == stored[n..]
  }

  lemma {:induction false} PartlyNext(ft: Byte, stored: seq<Byte>, above: seq<Byte>, line: seq<Byte>, n: nat, b: Byte)
    requires ft <= 4 && |above| == |stored| && n < |stored| && Partly(ft, stored, above, line, n)
    requires b == Low(line[n] + Predict(ft, Before(line, n), above[n], Before(above, n)))
    ensures line[n] == stored[n]
    ensures Partly(ft, stored, above, line[n := b], n + 1)
  {
  }

  method Nearest(left: Byte, over: Byte, upperLeft: Byte) returns (predictor: Byte)
    ensures predictor == Paeth(left, over, upperLeft)
    ensures IsPaeth(predictor, left, over, upperLeft)
  {
    var estimate := left + over - upperLeft;
    var distanceLeft := Abs(estimate - left);
    var distanceAbove := Abs(estimate - over);
    var distanceUpperLeft := Abs(estimate - upperLeft);
    if distanceLeft <= distanceAbove && distanceLeft <= distanceUpperLeft {
      predictor := left;
    } else if distanceAbove <= distanceUpperLeft {
      predictor := over;
    } else {
      predictor := upperLeft;
    }
  }

  // The five branches of `_unfilter`, one method each.

  method UndoSub(line: array<Byte>, previous: array<Byte>)
    requires previous != line && previous.Length == line.Length
    modifies line
    ensures line[..] == Restore(1, old(line[..]), previous[..], line.Length)
  {
    ghost var stored, above := line[..], previous[..];
    if line.Length > 0 {
      PartlyNext(1, stored, above, line[..], 0, line[0]);
      assert line[..][0 := line[0]] == line[..];
      for index := 1 to line.Length
        invariant Partly(1, stored, above, line[..], index)
      {
        PartlyNext(1, stored, above, line[..], index, Low(line[index] as int + line[index - 1]));
        line[index] := Low(line[index] as int + line[index - 1]);
      }
    }
    assert line[..] == line[..][..line.Length];
  }

  method UndoUp(line: array<Byte>, previous: array<Byte>)
    requires previous != line && previous.Length == line.Length
    modifies line
    ensures line[..] == Restore(2, old(line[..]), previous[..], line.Length)
  {
    ghost var stored, above := line[..], previous[..];
    for index := 0 to line.Length
      invariant Partly(2, stored, above, line[..], index)
    {
      PartlyNext(2, stored, above, line[..], index, Low(line[index] as int + previous[index]));
      line[index] := Low(line[index] as int + previous[index]);
    }
    assert line[..] == line[..][..line.Length];
  }

  method UndoAverage(line: array<Byte>, previous: array<Byte>)
    requires previous != line && previous.Length == line.Length
    modifies line
    ensures line[..] == Restore(3, old(line[..]), previous[..], line.Length)
  {
    ghost var stored, above := line[..], previous[..];
    for index := 0 to line.Length
      invariant Partly(3, stored, above, line[..], index)
    {
      var left: int := if index > 0 then line[index - 1] else 0;
      PartlyNext(3, stored, above, line[..], index, Low(line[index] as int + (left + previous[index]) / 2));
      line[index] := Low(line[index] as int + (left + previous[index]) / 2);
    }
    assert line[..] == line[..][..line.Length];
  }

  method UndoPaeth(line: array<Byte>, previous: array<Byte>)
    requires previous != line && previous.Length == line.Length
    modifies line
    ensures line[..] == Restore(4, old(line[..]), previous[..], line.Length)
  {
    ghost var stored, above := line[..], previous[..];
    for index := 0 to line.Length
      invariant Partly(4, stored, above, line[..], index)
    {
      var left: Byte := if index > 0 then line[index - 1] else 0;
      var upperLeft: Byte := if index > 0 then previous[index - 1] else 0;
      var predictor := Nearest(left, previous[index], upperLeft);
      PartlyNext(4, stored, above, line[..], index, Low(line[index] as int + predictor));
      line[index] := Low(line[index] as int + predictor);
    }
    assert line[..] == line[..][..line.Length];
  }

  /** Undo one scanline in place, left to right. */
  method UnfilterLine(ft: Byte, line: array<Byte>, previous: array<Byte>)
    requires ft <= 4 && previous != line && previous.Length == line.Length
    modifies line
    ensures line[..] == Restore(ft, old(line[..]), previous[..], line.Length)
    ensures FilterLine(ft, line[..], previous[..]) == old(line[..])
    ensures forall i :: 0 <= i < line.Length ==> UndoneAt(ft, old(line[..]), previous[..], line[..], i)
  {
    ghost var stored, above := line[..], previous[..];
    if ft == 0 {
      PlainLine(stored, above, line.Length);
    } else if ft == 1 {
      UndoSub(line, previous);
    } else if ft == 2 {
      UndoUp(line, previous);
    } else if ft == 3 {
      UndoAverage(line, previous);
    } else {
      UndoPaeth(line, previous);
    }
    FilterOfRestore(ft, stored, above);
    RestoredByNeighbours(ft, stored, above);
  }

  lemma {:induction false} PlainLine(stored: seq<Byte>, above: seq<Byte>, n: nat)
    requires |above| == |stored| && n <= |stored|
    ensures Restore(0, stored, above, n) == stored[..n]
  {
    if n > 0 {
      PlainLine(stored, above, n - 1);
      assert stored[..n] == stored[..n - 1] + [stored[n - 1]];
    }
  }
}
