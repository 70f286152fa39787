/**
 Tiled inference: the output of a valid-convolution network, computed tile by tile from input
 slices that overlap by sixteen pixels, is the output on the whole image.
 */
module TiledSurvey {
  import opened Results
  import opened Rates

  const MARGIN: nat := 16

  /** A rectangle of values, row by row. */
  predicate Rectangle<T>(image: seq<seq<T>>, height: nat, width: nat) {
    |image| == height && forall r :: 0 <= r < height ==> |image[r]| == width
  }

  function Crop<T>(image: seq<seq<T>>, y: nat, x: nat, h: nat, w: nat): (r: seq<seq<T>>)
    requires y + h <= |image| && forall i :: 0 <= i < |image| ==> x + w <= |image[i]|
    ensures Rectangle(r, h, w)
    ensures forall i, j :: 0 <= i < h && 0 <= j < w ==> r[i][j] == image[y + i][x + j]
  {
    seq(h, i requires 0 <= i < h => image[y + i][x..x + w])
  }

  /**
   What is assumed of the network: its output is sixteen smaller each way, and an output cell is
   one function of the 17 by 17 input window under it, wherever the window stands.
   */
  ghost predicate Local<P(!new), V(!new)>(net: seq<seq<P>> -> seq<seq<V>>, cell: seq<seq<P>> -> V) {
    forall image, h: nat, w: nat {:trigger Rectangle(image, h, w)} ::
      Rectangle(image, h, w) && h > MARGIN && w > MARGIN ==>
        && Rectangle(net(image), h - MARGIN, w - MARGIN)
        && forall y: nat, x: nat :: y < h - MARGIN && x < w - MARGIN ==>
             net(image)[y][x] == cell(Crop(image, y, x, MARGIN + 1, MARGIN + 1))
  }

  datatype SurveyError = TooSmall | GeometryChanged

  /** A tile of the output is the network on the input slice under it. */
  lemma {:induction false} TileIsWhole<P(!new), V(!new)>(net: seq<seq<P>> -> seq<seq<V>>, cell: seq<seq<P>> -> V,
                                      image: seq<seq<P>>, height: nat, width: nat,
                                      y: nat, x: nat, endY: nat, endX: nat)
    requires Local(net, cell) && Rectangle(image, height, width) && height > MARGIN && width > MARGIN
    requires y < endY <= height - MARGIN && x < endX <= width - MARGIN
    ensures Rectangle(net(Crop(image, y, x, endY + MARGIN - y, endX + MARGIN - x)), endY - y, endX - x)
    ensures Rectangle(net(image), height - MARGIN, width - MARGIN)
    ensures var tile := Crop(image, y, x, endY + MARGIN - y, endX + MARGIN - x);
      forall i: nat, j: nat :: i < endY - y && j < endX - x ==> net(tile)[i][j] == net(image)[y + i][x + j]
  {
    var tile := Crop(image, y, x, endY + MARGIN - y, endX + MARGIN - x);
    assert Rectangle(tile, endY + MARGIN - y, endX + MARGIN - x);
    forall i: nat, j: nat | i < endY - y && j < endX - x
      ensures net(tile)[i][j] == net(image)[y + i][x + j]
    {
      var a := Crop(tile, i, j, MARGIN + 1, MARGIN + 1);
      var b := Crop(image, y + i, x + j, MARGIN + 1, MARGIN + 1);
      forall r | 0 <= r < MARGIN + 1 ensures a[r] == b[r] {
        assert forall c :: 0 <= c < MARGIN + 1 ==>
          a[r][c] == tile[i + r][j + c] == image[y + i + r][x + j + c] == b[r][c];
      }
      assert a == b;
    }
  }

  /** Cells of the result that the tiles before this one cover: whole rows above, then the tiles to the left. */
  predicate Covered(i: nat, j: nat, y: nat, x: nat, endY: nat) {
    i < y || (i < endY && j < x)
  }

  predicate InTile(i: nat, j: nat, y: nat, x: nat, endY: nat, endX: nat) {
    y <= i < endY && x <= j < endX
  }

  function Min(a: nat, b: nat): nat { if a < b then a else b }

  /** How often each cell has been written after one more tile is. */
  ghost function Written(writes: seq<seq<nat>>, y: nat, x: nat, endY: nat, endX: nat): (r: seq<seq<nat>>)
    ensures |r| == |writes|
    ensures forall i :: 0 <= i < |r| ==> |r[i]| == |writes[i]|
    ensures forall i, j :: 0 <= i < |r| && 0 <= j < |r[i]| ==>
      r[i][j] == writes[i][j] + (if InTile(i, j, y, x, endY, endX) then 1 else 0)
  {
    seq(|writes|, i requires 0 <= i < |writes| =>
      seq(|writes[i]|, j requires 0 <= j < |writes[i]| =>
        writes[i][j] + (if InTile(i, j, y, x, endY, endX) then 1 else 0)))
  }

  /** The covered cells have been written once each, the others never. */
  ghost predicate OnceEach(writes: seq<seq<nat>>, rows: nat, columns: nat, y: nat, x: nat, endY: nat) {
    && Rectangle(writes, rows, columns)
    && forall i, j :: 0 <= i < rows && 0 <= j < columns ==> writes[i][j] == if Covered(i, j, y, x, endY) then 1 else 0
  }

  lemma {:induction false} TileAddsOnce(writes: seq<seq<nat>>, rows: nat, columns: nat, y: nat, x: nat, endY: nat,
                                        endX: nat, nextX: nat)
    requires OnceEach(writes, rows, columns, y, x, endY)
    requires y < endY && x < endX && (nextX == endX || endX == columns <= nextX)
    ensures OnceEach(Written(writes, y, x, endY, endX), rows, columns, y, nextX, endY)
  {
  }

  // ------------------------------------------------------ a cell and its tile

  /** Where the tile over row or column `i` starts. */
  function Origin(i: nat, outputTile: nat): (y: nat)
    requires outputTile > 0
    ensures y <= i < y + outputTile && i - y == i % outputTile
  {
    i - i % outputTile
  }

  lemma {:induction false} OriginInTile(i: nat, y: nat, outputTile: nat)
    requires outputTile > 0 && y % outputTile == 0 && y <= i < y + outputTile
    ensures Origin(i, outputTile) == y
  {
    DivModUnique(i, outputTile, y / outputTile, i - y);
  }

  lemma {:induction false} NextOrigin(y: nat, outputTile: nat)
    requires outputTile > 0 && y % outputTile == 0
    ensures (y + outputTile) % outputTile == 0
  {
    DivModUnique(y + outputTile, outputTile, y / outputTile + 1, 0);
  }

  /** What the network says of the tile that starts at (y, x). */
  function Prediction<P, V>(net: seq<seq<P>> -> seq<seq<V>>, image: seq<seq<P>>, rows: nat, columns: nat,
                            outputTile: nat, y: nat, x: nat): seq<seq<V>>
    requires Rectangle(image, rows + MARGIN, columns + MARGIN) && y < rows && x < columns
  {
    net(Crop(image, y, x, Min(y + outputTile, rows) + MARGIN - y, Min(x + outputTile, columns) + MARGIN - x))
  }

  /** The value of an output cell: its place in its own tile's prediction, which must have the tile's shape. */
  ghost predicate IsCell<P, V>(net: seq<seq<P>> -> seq<seq<V>>, image: seq<seq<P>>, rows: nat, columns: nat,
                               outputTile: nat, i: nat, j: nat, value: V)
    requires Rectangle(image, rows + MARGIN, columns + MARGIN) && i < rows && j < columns && outputTile > 0
  {
    var y, x := Origin(i, outputTile), Origin(j, outputTile);
    var tile := Prediction(net, image, rows, columns, outputTile, y, x);
    && Rectangle(tile, Min(y + outputTile, rows) - y, Min(x + outputTile, columns) - x)
    && value == tile[i - y][j - x]
  }

  /** The covered cells have their values. */
  ghost predicate Surveyed<P, V>(net: seq<seq<P>> -> seq<seq<V>>, image: seq<seq<P>>, outputTile: nat,
                                 result: array2<V>, y: nat, x: nat, endY: nat)
    requires outputTile > 0 && Rectangle(image, result.Length0 + MARGIN, result.Length1 + MARGIN)
    reads result
  {
    forall i: nat, j: nat :: i < result.Length0 && j < result.Length1 && Covered(i, j, y, x, endY) ==>
      IsCell(net, image, result.Length0, result.Length1, outputTile, i, j, result[i, j])
  }

  lemma {:induction false} CellOfTile<P, V>(net: seq<seq<P>> -> seq<seq<V>>, image: seq<seq<P>>, rows: nat,
                                            columns: nat, outputTile: nat, y: nat, x: nat, i: nat, j: nat, value: V)
    requires outputTile > 0 && Rectangle(image, rows + MARGIN, columns + MARGIN)
    requires y < rows && x < columns && y % outputTile == 0 && x % outputTile == 0
    requires InTile(i, j, y, x, Min(y + outputTile, rows), Min(x + outputTile, columns))
    requires var tile := Prediction(net, image, rows, columns, outputTile, y, x);
      && Rectangle(tile, Min(y + outputTile, rows) - y, Min(x + outputTile, columns) - x)
      && value == tile[i - y][j - x]
    ensures IsCell(net, image, rows, columns, outputTile, i, j, value)
  {
    OriginInTile(i, y, outputTile);
    OriginInTile(j, x, outputTile);
  }

  /** For a local network a cell's value in its tile is its value in the whole output. */
  lemma {:induction false} CellIsWhole<P(!new), V(!new)>(net: seq<seq<P>> -> seq<seq<V>>, cell: seq<seq<P>> -> V,
                                                         image: seq<seq<P>>, rows: nat, columns: nat,
                                                         outputTile: nat, i: nat, j: nat, value: V)
    requires Local(net, cell) && Rectangle(image, rows + MARGIN, columns + MARGIN)
    requires i < rows && j < columns && outputTile > 0
    requires IsCell(net, image, rows, columns, outputTile, i, j, value)
    ensures Rectangle(net(image), rows, columns) && value == net(image)[i][j]
  {
    var y, x := Origin(i, outputTile), Origin(j, outputTile);
    TileIsWhole(net, cell, image, rows + MARGIN, columns + MARGIN, y, x,
                Min(y + outputTile, rows), Min(x + outputTile, columns));
  }

  // -------------------------------------------------------------- the survey

  /** Writes one tile into the result, each of its cells once, and nothing outside it. */
  method Paste<V>(result: array2<V>, prediction: seq<seq<V>>, y: nat, x: nat, endY: nat, endX: nat,
                  ghost writes: seq<seq<nat>>)
    returns (ghost counted: seq<seq<nat>>)
    requires y < endY <= result.Length0 && x < endX <= result.Length1
    requires Rectangle(prediction, endY - y, endX - x)
    modifies result
    ensures forall i: nat, j: nat :: i < result.Length0 && j < result.Length1 ==>
      result[i, j] == if InTile(i, j, y, x, endY, endX) then prediction[i - y][j - x] else old(result[i, j])
    ensures counted == Written(writes, y, x, endY, endX)
  {
    forall i, j | y <= i < endY && x <= j < endX {
      result[i, j] := prediction[i - y][j - x];
    }
    counted := Written(writes, y, x, endY, endX);
  }

  /** Writes the next tile of a row of tiles, of which everything to the left is done. */
  method SurveyTile<P(!new), V(!new)>(net: seq<seq<P>> -> seq<seq<V>>, ghost cell: seq<seq<P>> -> V,
                                      image: seq<seq<P>>, outputTile: nat, result: array2<V>,
                                      y: nat, x: nat, ghost writes: seq<seq<nat>>)
    returns (ok: bool, ghost counted: seq<seq<nat>>)
    requires outputTile > 0 && Rectangle(image, result.Length0 + MARGIN, result.Length1 + MARGIN)
    requires y < result.Length0 && x < result.Length1 && y % outputTile == 0 && x % outputTile == 0
    requires Surveyed(net, image, outputTile, result, y, x, Min(y + outputTile, result.Length0))
    requires OnceEach(writes, result.Length0, result.Length1, y, x, Min(y + outputTile, result.Length0))
    modifies result
    ensures Local(net, cell) ==> ok
    ensures ok ==> Surveyed(net, image, outputTile, result, y, x + outputTile, Min(y + outputTile, result.Length0))
    ensures ok ==>
      OnceEach(counted, result.Length0, result.Length1, y, x + outputTile, Min(y + outputTile, result.Length0))
  {
    var rows, columns := result.Length0, result.Length1;
    var endY, endX := Min(y + outputTile, rows), Min(x + outputTile, columns);
    var prediction := net(Crop(image, y, x, endY + MARGIN - y, endX + MARGIN - x));
    if Local(net, cell) { TileIsWhole(net, cell, image, rows + MARGIN, columns + MARGIN, y, x, endY, endX); }
    ok := Rectangle(prediction, endY - y, endX - x);
    counted := writes;
    if ok {
      TileAddsOnce(writes, rows, columns, y, x, endY, endX, x + outputTile);
      counted := Paste(result, prediction, y, x, endY, endX, writes);
      forall i: nat, j: nat | i < rows && j < columns && Covered(i, j, y, x + outputTile, endY)
        ensures IsCell(net, image, rows, columns, outputTile, i, j, result[i, j])
      {
        if InTile(i, j, y, x, endY, endX) {
          CellOfTile(net, image, rows, columns, outputTile, y, x, i, j, result[i, j]);
        } else {
          assert Covered(i, j, y, x, endY);
        }
      }
    }
  }

  /**
   `tiled_survey`: whatever the network, every output cell is written exactly once, with its value in
   its own tile's prediction. For a local network that is its value in the whole output, and the
   refusal of a changed geometry never comes.
   */
  method Survey<P(!new), V(!new, 0)>(net: seq<seq<P>> -> seq<seq<V>>, ghost cell: seq<seq<P>> -> V,
                                     image: seq<seq<P>>, height: nat, width: nat, outputTile: nat)
    returns (r: Result<array2<V>, SurveyError>, ghost writes: seq<seq<nat>>)
    requires Rectangle(image, height, width) && outputTile > 0
    ensures r == Err(TooSmall) <==> height <= 16 || width <= 16
    ensures Local(net, cell) ==> r != Err(GeometryChanged)
    ensures r.Ok? ==> fresh(r.value) && r.value.Length0 == height - 16 && r.value.Length1 == width - 16
    ensures r.Ok? ==> OnceEach(writes, height - 16, width - 16, height - 16, 0, height - 16)
    ensures r.Ok? ==> forall i: nat, j: nat :: i < height - 16 && j < width - 16 ==>
      IsCell(net, image, height - 16, width - 16, outputTile, i, j, r.value[i, j])
    ensures r.Ok? && Local(net, cell) ==> IsWhole(r.value, net(image))
  {
    writes := [];
    if height <= MARGIN || width <= MARGIN { return Err(TooSmall), writes; }
    var rows, columns := height - MARGIN, width - MARGIN;
    var result := new V[rows, columns];
    writes := seq(rows, i => seq(columns, j => 0));
    var y := 0;
    while y < rows
      invariant y % outputTile == 0
      invariant Surveyed(net, image, outputTile, result, y, 0, y)
      invariant OnceEach(writes, rows, columns, y, 0, y)
      decreases rows - y
    {
      var x := 0;
      while x < columns
        invariant x % outputTile == 0
        invariant Surveyed(net, image, outputTile, result, y, x, Min(y + outputTile, rows))
        invariant OnceEach(writes, rows, columns, y, x, Min(y + outputTile, rows))
        decreases columns - x
      {
        var ok;
        ok, writes := SurveyTile(net, cell, image, outputTile, result, y, x, writes);
        if !ok { return Err(GeometryChanged), writes; }
        NextOrigin(x, outputTile);
        x := x + outputTile;
      }
      NextOrigin(y, outputTile);
      y := y + outputTile;
    }
    r := Ok(result);
    if Local(net, cell) { SurveyedIsWhole(net, cell, image, outputTile, result, y); }
  }

  ghost predicate IsWhole<V>(result: array2<V>, whole: seq<seq<V>>)
    reads result
  {
    && Rectangle(whole, result.Length0, result.Length1)
    && forall i: nat, j: nat :: i < result.Length0 && j < result.Length1 ==> result[i, j] == whole[i][j]
  }

  lemma {:induction false} SurveyedIsWhole<P(!new), V(!new)>(net: seq<seq<P>> -> seq<seq<V>>, cell: seq<seq<P>> -> V,
                                                             image: seq<seq<P>>, outputTile: nat, result: array2<V>,
                                                             y: nat)
    requires outputTile > 0 && Rectangle(image, result.Length0 + MARGIN, result.Length1 + MARGIN)
    requires result.Length0 > 0 && result.Length1 > 0 && y >= result.Length0
    requires Local(net, cell) && Surveyed(net, image, outputTile, result, y, 0, y)
    ensures IsWhole(result, net(image))
  {
    assert Rectangle(net(image), result.Length0, result.Length1);
    forall i: nat, j: nat | i < result.Length0 && j < result.Length1 ensures result[i, j] == net(image)[i][j] {
      CellIsWhole(net, cell, image, result.Length0, result.Length1, outputTile, i, j, result[i, j]);
    }
  }
}
