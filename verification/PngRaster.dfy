/**
 All scanlines of an image: `_unfilter` over the decompressed stream, and the encoder of
 RFC 2083 it undoes, with any filter chosen for any row.
 */
module PngRaster {
  import opened Bytes
  import opened Results
  import opened PngFilter

  datatype Failure =
    | BadSignature | Truncated | BadCrc | TrailingData
    | DuplicateIhdr | BadIhdr | EmptyImage | BadBitDepth | BadColourType | UnsupportedCodec | Interlaced
    | MultiFrame | AmbiguousChunk | IdatBeforeIhdr
    | NoIhdr | NoIend | NoIdat | BadDeflate | BadRasterLength | BadFilter

  predicate Rows(rows: seq<seq<Byte>>, width: nat) {
    forall i :: 0 <= i < |rows| ==> |rows[i]| == width
  }

  predicate Filters(filters: seq<Byte>) {
    forall i :: 0 <= i < |filters| ==> filters[i] <= 4
  }

  /** `n` rows of `width` bytes. */
  function Area(n: nat, width: nat): nat {
    if n == 0 then 0 else width + Area(n - 1, width)
  }

  lemma {:induction false} AreaIsProduct(n: nat, width: nat)
    ensures Area(n, width) == n * width
  {
    if n > 0 {
      AreaIsProduct(n - 1, width);
      assert n * width == width + (n - 1) * width;
    }
  }

  lemma {:induction false} AreaGrows(m: nat, n: nat, width: nat)
    requires m <= n
    ensures Area(m, width) <= Area(n, width)
    decreases n
  {
    if m < n {
      AreaGrows(m, n - 1, width);
    }
  }

  function Flatten(rows: seq<seq<Byte>>): seq<Byte> {
    if rows == [] then [] else rows[0] + Flatten(rows[1..])
  }

  /** An encoder's scanlines: the filter type, then the filtered bytes. */
  function FilterRows(rows: seq<seq<Byte>>, filters: seq<Byte>, above: seq<Byte>): (r: seq<Byte>)
    requires Rows(rows, |above|) && Filters(filters) && |filters| == |rows|
    ensures |r| == Area(|rows|, |above| + 1)
  {
    if rows == [] then [] else
      [filters[0]] + FilterLine(filters[0], rows[0], above) + FilterRows(rows[1..], filters[1..], rows[0])
  }

  lemma {:induction false} RowsCons(row: seq<Byte>, rows: seq<seq<Byte>>, width: nat)
    requires |row| == width && Rows(rows, width)
    ensures Rows([row] + rows, width)
  {
  }

  /** The rows of a filtered stream, or the refusal of its first unknown filter type. */
  function UnfilterRows(raw: seq<Byte>, width: nat, height: nat, above: seq<Byte>): (r: Result<seq<seq<Byte>>, Failure>)
    requires |raw| == Area(height, width + 1) && |above| == width
    ensures r.Ok? ==> |r.value| == height && Rows(r.value, width)
    decreases height
  {
    if height == 0 then Ok([]) else
      if raw[0] > 4 then Err(BadFilter) else
        var row := Restore(raw[0], raw[1..width + 1], above, width);
        match UnfilterRows(raw[width + 1..], width, height - 1, row)
        case Err(e) => Err(e)
        case Ok(rows) =>
          RowsCons(row, rows, width);
          Ok([row] + rows)
  }

  /** For every raster and every choice of filters, decoding the encoder's scanlines gives the raster. */
  lemma {:induction false} UnfilterOfFilter(rows: seq<seq<Byte>>, filters: seq<Byte>, above: seq<Byte>)
    requires Rows(rows, |above|) && Filters(filters) && |filters| == |rows|
    ensures UnfilterRows(FilterRows(rows, filters, above), |above|, |rows|, above) == Ok(rows)
  {
    if rows != [] {
      var width := |above|;
      var raw := FilterRows(rows, filters, above);
      var line := FilterLine(filters[0], rows[0], above);
      assert raw[1..width + 1] == line;
      assert raw[width + 1..] == FilterRows(rows[1..], filters[1..], rows[0]);
      RestoreOfFilter(filters[0], rows[0], above, width);
      assert rows[0][..width] == rows[0];
      assert raw[0] == filters[0] && rows == [rows[0]] + rows[1..];
      UnfilterOfFilter(rows[1..], filters[1..], rows[0]);
    }
  }

  /** The filter bytes of a stream, row by row. */
  function FiltersOf(raw: seq<Byte>, width: nat, height: nat): (r: seq<Byte>)
    requires |raw| == Area(height, width + 1)
    ensures |r| == height
    decreases height
  {
    if height == 0 then [] else
      [raw[0]] + FiltersOf(raw[width + 1..], width, height - 1)
  }

  lemma {:induction false} FirstFilter(raw: seq<Byte>, width: nat, height: nat)
    requires |raw| == Area(height, width + 1) && height > 0
    ensures FiltersOf(raw, width, height)[0] == raw[0]
    ensures FiltersOf(raw, width, height)[1..] == FiltersOf(raw[width + 1..], width, height - 1)
    ensures Filters(FiltersOf(raw, width, height)) <==>
      raw[0] <= 4 && Filters(FiltersOf(raw[width + 1..], width, height - 1))
  {
  }

  lemma {:induction false} FirstUnfiltered(raw: seq<Byte>, width: nat, height: nat, above: seq<Byte>)
    requires |raw| == Area(height, width + 1) && |above| == width && height > 0 && raw[0] <= 4
    ensures var row := Restore(raw[0], raw[1..width + 1], above, width);
      var all, below := UnfilterRows(raw, width, height, above), UnfilterRows(raw[width + 1..], width, height - 1, row);
      && (all.Ok? <==> below.Ok?)
      && (all.Ok? ==> all.value[0] == row && all.value[1..] == below.value)
  {
  }

  lemma {:induction false} Refiltered(stored: seq<Byte>, above: seq<Byte>, rows: seq<seq<Byte>>, filters: seq<Byte>)
    requires |stored| == |above| && Rows(rows, |above|) && Filters(filters) && |filters| == |rows| > 0
    requires rows[0] == Restore(filters[0], stored, above, |stored|)
    ensures FilterRows(rows, filters, above) == [filters[0]] + stored + FilterRows(rows[1..], filters[1..], rows[0])
  {
    FilterOfRestore(filters[0], stored, above);
  }

  lemma {:induction false} AcceptedByItsFilters(raw: seq<Byte>, width: nat, height: nat, above: seq<Byte>)
    requires |raw| == Area(height, width + 1) && |above| == width
    ensures UnfilterRows(raw, width, height, above).Ok? <==> Filters(FiltersOf(raw, width, height))
    decreases height
  {
    if height > 0 {
      FirstFilter(raw, width, height);
      if raw[0] <= 4 {
        FirstUnfiltered(raw, width, height, above);
        AcceptedByItsFilters(raw[width + 1..], width, height - 1, Restore(raw[0], raw[1..width + 1], above, width));
      }
    }
  }

  lemma {:induction false} FirstRow(raw: seq<Byte>, width: nat)
    requires width + 1 <= |raw|
    ensures raw == [raw[0]] + raw[1..width + 1] + raw[width + 1..]
  {
  }

  lemma {:induction false} FilteredAgain(raw: seq<Byte>, width: nat, height: nat, above: seq<Byte>)
    requires |raw| == Area(height, width + 1) && |above| == width
    requires UnfilterRows(raw, width, height, above).Ok? && Filters(FiltersOf(raw, width, height))
    ensures FilterRows(UnfilterRows(raw, width, height, above).value, FiltersOf(raw, width, height), above) == raw
    decreases height
  {
    if height > 0 {
      var stored, rest := raw[1..width + 1], raw[width + 1..];
      FirstFilter(raw, width, height);
      FirstUnfiltered(raw, width, height, above);
      FilteredAgain(rest, width, height - 1, Restore(raw[0], stored, above, width));
      Refiltered(stored, above, UnfilterRows(raw, width, height, above).value, FiltersOf(raw, width, height));
      FirstRow(raw, width);
    }
  }

  /** A stream is accepted exactly when every filter byte is one of the five, and then it is its raster's encoding. */
  lemma {:induction false} FilterOfUnfilter(raw: seq<Byte>, width: nat, height: nat, above: seq<Byte>)
    requires |raw| == Area(height, width + 1) && |above| == width
    ensures UnfilterRows(raw, width, height, above).Ok? <==> Filters(FiltersOf(raw, width, height))
    ensures UnfilterRows(raw, width, height, above).Ok? ==>
      FilterRows(UnfilterRows(raw, width, height, above).value, FiltersOf(raw, width, height), above) == raw
  {
    AcceptedByItsFilters(raw, width, height, above);
    if UnfilterRows(raw, width, height, above).Ok? {
      FilteredAgain(raw, width, height, above);
    }
  }

  lemma {:induction false} FlattenAppend(rows: seq<seq<Byte>>, row: seq<Byte>)
    ensures Flatten(rows + [row]) == Flatten(rows) + row
  {
    if rows == [] {
      assert [row][1..] == [];
    } else {
      assert (rows + [row])[1..] == rows[1..] + [row];
      FlattenAppend(rows[1..], row);
    }
  }

  function Zeros(width: nat): (r: seq<Byte>)
    ensures |r| == width
  {
    seq(width, i => 0)
  }

  function Raster(rows: Result<seq<seq<Byte>>, Failure>): Result<seq<Byte>, Failure> {
    match rows
    case Err(e) => Err(e)
    case Ok(rs) => Ok(Flatten(rs))
  }

  function Prepend(done: seq<seq<Byte>>, rest: Result<seq<seq<Byte>>, Failure>): Result<seq<seq<Byte>>, Failure> {
    match rest
    case Err(e) => Err(e)
    case Ok(rows) => Ok(done + rows)
  }

  lemma {:induction false} NothingDone(all: Result<seq<seq<Byte>>, Failure>)
    ensures Prepend([], all) == all
  {
    if all.Ok? { assert [] + all.value == all.value; }
  }

  /** After `row` rows: what is pasted, and what the rest of the stream still has to give. */
  predicate Progress(raw: seq<Byte>, width: nat, height: nat, row: nat, position: nat, pasted: seq<Byte>,
                     above: seq<Byte>, rows: seq<seq<Byte>>)
    requires |raw| == Area(height, width + 1)
  {
    && row <= height && position <= |raw| && |raw[position..]| == Area(height - row, width + 1)
    && |above| == width && |pasted| == Area(row, width) && pasted == Flatten(rows)
    && UnfilterRows(raw, width, height, Zeros(width))
       == Prepend(rows, UnfilterRows(raw[position..], width, height - row, above))
  }

  /** One more row of the stream moves from the rest to the rows done. */
  lemma {:induction false} RowDone(raw: seq<Byte>, width: nat, height: nat, row: nat, position: nat,
                                   pasted: seq<Byte>, above: seq<Byte>, rows: seq<seq<Byte>>, line: seq<Byte>)
    requires |raw| == Area(height, width + 1) && row < height
    requires Progress(raw, width, height, row, position, pasted, above, rows)
    ensures position + 1 + width <= |raw|
    ensures raw[position] > 4 ==> UnfilterRows(raw, width, height, Zeros(width)) == Err(BadFilter)
    ensures var stored := raw[position + 1..position + 1 + width];
      raw[position] <= 4 && line == Restore(raw[position], stored, above, width) ==>
      Progress(raw, width, height, row + 1, position + 1 + width, pasted + line, line, rows + [line])
  {
    var rest := raw[position..];
    assert raw[position + 1..position + 1 + width] == rest[1..width + 1];
    assert raw[position + 1 + width..] == rest[width + 1..];
    if |line| == width {
      var below := UnfilterRows(rest[width + 1..], width, height - row - 1, line);
      if below.Ok? {
        assert rows + ([line] + below.value) == rows + [line] + below.value;
      }
      FlattenAppend(rows, line);
    }
  }

  lemma {:induction false} AllDone(raw: seq<Byte>, width: nat, height: nat, position: nat, pasted: seq<Byte>,
                                   above: seq<Byte>, rows: seq<seq<Byte>>)
    requires |raw| == Area(height, width + 1)
    requires Progress(raw, width, height, height, position, pasted, above, rows)
    ensures Raster(UnfilterRows(raw, width, height, Zeros(width))) == Ok(pasted)
  {
    assert rows + [] == rows;
  }

  /** One row: copy it out of the stream and undo its filter in place, or refuse it. */
  method NextRow(raw: seq<Byte>, position: nat, width: nat, previous: array<Byte>)
    returns (line: array<Byte>, known: bool)
    requires position + 1 + width <= |raw| && previous.Length == width
    ensures known <==> raw[position] <= 4
    ensures fresh(line) && line.Length == width
    ensures known ==> line[..] == Restore(raw[position], raw[position + 1..position + 1 + width], previous[..], width)
  {
    var filterType := raw[position];
    line := new Byte[width](i requires 0 <= i < width => raw[position + 1 + i]);
    assert line[..] == raw[position + 1..position + 1 + width];
    known := filterType <= 4;
    if known {
      UnfilterLine(filterType, line, previous);
    }
  }

  /** The next row of the stream restored and pasted below the rows done, or its filter refused. */
  method UnfilterRow(raw: seq<Byte>, width: nat, height: nat, row: nat, position: nat, pixels: array<Byte>, at: nat,
                     previous: array<Byte>, ghost rows: seq<seq<Byte>>)
    returns (line: array<Byte>, known: bool)
    requires |raw| == Area(height, width + 1) && row < height
    requires at == Area(row, width) <= pixels.Length == Area(height, width)
    requires previous.Length == width && previous != pixels
    requires Progress(raw, width, height, row, position, pixels[..at], previous[..], rows)
    modifies pixels
    ensures fresh(line) && line.Length == width && at + width == Area(row + 1, width) <= pixels.Length
    ensures !known ==> UnfilterRows(raw, width, height, Zeros(width)) == Err(BadFilter)
    ensures known ==>
      Progress(raw, width, height, row + 1, position + 1 + width, pixels[..at + width], line[..], rows + [line[..]])
  {
    ghost var above, pasted := previous[..], pixels[..at];
    RowDone(raw, width, height, row, position, pasted, above, rows, []);
    line, known := NextRow(raw, position, width, previous);
    AreaGrows(row + 1, height, width);
    if known {
      RowDone(raw, width, height, row, position, pasted, above, rows, line[..]);
      PasteRow(pixels, at, line);
    }
  }

  /** Undo the filters of every row, in place within a row, each row reading the one above it. */
  method Unfilter(raw: seq<Byte>, width: nat, height: nat) returns (r: Result<seq<Byte>, Failure>)
    requires |raw| == Area(height, width + 1)
    ensures r == Raster(UnfilterRows(raw, width, height, Zeros(width)))
    ensures r.Ok? <==> Filters(FiltersOf(raw, width, height))
    ensures r.Ok? ==> RasterUndone(raw, width, height, r.value)
  {
    RasterIsUndone(raw, width, height);
    var pixels := new Byte[Area(height, width)](_ => 0);
    var previous := new Byte[width](_ => 0);
    var position, at := 0, 0;
    ghost var rows: seq<seq<Byte>> := [];
    assert previous[..] == Zeros(width) && raw[0..] == raw;
    NothingDone(UnfilterRows(raw, width, height, Zeros(width)));
    for row := 0 to height
      invariant at == Area(row, width) <= pixels.Length == Area(height, width)
      invariant previous.Length == width && previous != pixels
      invariant Progress(raw, width, height, row, position, pixels[..at], previous[..], rows)
    {
      var line, known := UnfilterRow(raw, width, height, row, position, pixels, at, previous, rows);
      if !known {
        return Err(BadFilter);
      }
      rows := rows + [line[..]];
      at := at + width;
      position := position + 1 + width;
      previous := line;
    }
    AllDone(raw, width, height, position, pixels[..at], previous[..], rows);
    assert pixels[..at] == pixels[..];
    r := Ok(pixels[..]);
  }

  // ------------------------------------------------- the raster, pixel by pixel

  /** The pixel at a row and column, zero outside the raster. */
  function PixelAt(pixels: seq<Byte>, width: nat, row: int, column: int): Byte
    requires row >= 0 && column >= 0 ==> Area(row, width) + column < |pixels|
  {
    if row < 0 || column < 0 then 0 else pixels[Area(row, width) + column]
  }

  /** One pixel is what its row's filter type makes of its stored byte and of the pixels around it. */
  ghost predicate PixelUndone(raw: seq<Byte>, width: nat, height: nat, pixels: seq<Byte>, row: nat, column: nat)
    requires |raw| == Area(height, width + 1) && |pixels| == Area(height, width) && row < height && column < width
  {
    AreaRow(row, height, width);
    AreaRow(row, height, width + 1);
    if row > 0 then
      AreaRow(row - 1, height, width);
      PixelFits(raw[Area(row, width + 1)], raw[Area(row, width + 1) + 1 + column], width, pixels, row, column)
    else
      PixelFits(raw[Area(row, width + 1)], raw[Area(row, width + 1) + 1 + column], width, pixels, row, column)
  }

  /** A raster of the right size, every pixel of it undone. */
  ghost predicate RasterUndone(raw: seq<Byte>, width: nat, height: nat, pixels: seq<Byte>)
    requires |raw| == Area(height, width + 1)
  {
    && |pixels| == Area(height, width)
    && forall row, column :: 0 <= row < height && 0 <= column < width ==>
         PixelUndone(raw, width, height, pixels, row, column)
  }

  /** A stream has a raster exactly when all its filter types are known, and that raster is undone pixel by pixel. */
  lemma {:induction false} RasterIsUndone(raw: seq<Byte>, width: nat, height: nat)
    requires |raw| == Area(height, width + 1)
    ensures var r := Raster(UnfilterRows(raw, width, height, Zeros(width)));
      && (r.Ok? <==> Filters(FiltersOf(raw, width, height)))
      && (r.Ok? ==> RasterUndone(raw, width, height, r.value))
  {
    AcceptedByItsFilters(raw, width, height, Zeros(width));
    var rows := UnfilterRows(raw, width, height, Zeros(width));
    if rows.Ok? {
      FlattenSize(rows.value, width);
      forall row: nat, column: nat | row < height && column < width
        ensures PixelUndone(raw, width, height, Flatten(rows.value), row, column)
      {
        EveryPixelUndone(raw, width, height, row, column);
      }
    }
  }

  ghost predicate PixelFits(ft: Byte, stored: Byte, width: nat, pixels: seq<Byte>, row: nat, column: nat)
    requires column < width && Area(row, width) + width <= |pixels|
    requires row > 0 ==> Area(row - 1, width) + width <= |pixels|
  {
    Undoes(ft, stored, PixelAt(pixels, width, row, column - 1), PixelAt(pixels, width, row - 1, column),
           PixelAt(pixels, width, row - 1, column - 1), PixelAt(pixels, width, row, column))
  }

  lemma {:induction false} AreaRow(row: nat, height: nat, width: nat)
    requires row < height
    ensures Area(row, width) + width <= Area(height, width)
  {
    AreaGrows(row + 1, height, width);
  }

  /** A row is what its own filter byte and its own stored bytes make of the row above. */
  ghost predicate RowFits(raw: seq<Byte>, width: nat, at: nat, above: seq<Byte>, row: seq<Byte>) {
    && |above| == width && at + 1 + width <= |raw| && raw[at] <= 4
    && row == Restore(raw[at], raw[at + 1..at + 1 + width], above, width)
  }

  lemma {:induction false} FitsFurtherOn(raw: seq<Byte>, width: nat, skip: nat, at: nat, above: seq<Byte>,
                                         row: seq<Byte>)
    requires skip <= |raw| && RowFits(raw[skip..], width, at, above, row)
    ensures RowFits(raw, width, skip + at, above, row)
  {
    assert raw[skip..][at + 1..at + 1 + width] == raw[skip + at + 1..skip + at + 1 + width];
  }

  /** The row above another, which for the first is what it was started with. */
  function RowAbove(rows: seq<seq<Byte>>, above: seq<Byte>, row: nat): seq<Byte>
    requires row <= |rows|
  {
    if row == 0 then above else rows[row - 1]
  }

  lemma {:induction false} FirstRowFits(raw: seq<Byte>, width: nat, height: nat, above: seq<Byte>)
    requires |raw| == Area(height, width + 1) && |above| == width && height > 0
    requires UnfilterRows(raw, width, height, above).Ok?
    ensures RowFits(raw, width, 0, above, UnfilterRows(raw, width, height, above).value[0])
  {
    assert raw[0] <= 4;
    FirstUnfiltered(raw, width, height, above);
  }

  /** Below the first row the stream goes on as one of its own. */
  lemma {:induction false} RowsBelow(raw: seq<Byte>, width: nat, height: nat, above: seq<Byte>)
    requires |raw| == Area(height, width + 1) && |above| == width && height > 0
    requires UnfilterRows(raw, width, height, above).Ok?
    ensures var rows := UnfilterRows(raw, width, height, above).value;
      |rows[0]| == width && UnfilterRows(raw[width + 1..], width, height - 1, rows[0]) == Ok(rows[1..])
  {
    assert raw[0] <= 4;
    FirstUnfiltered(raw, width, height, above);
  }

  /** Each row comes from its own filter byte, its own stored bytes and the row above. */
  lemma {:induction false} RowOfStream(raw: seq<Byte>, width: nat, height: nat, above: seq<Byte>, row: nat)
    requires |raw| == Area(height, width + 1) && |above| == width && row < height
    requires UnfilterRows(raw, width, height, above).Ok?
    ensures var rows := UnfilterRows(raw, width, height, above).value;
      RowFits(raw, width, Area(row, width + 1), RowAbove(rows, above, row), rows[row])
    decreases row
  {
    if row == 0 {
      FirstRowFits(raw, width, height, above);
    } else {
      var rows := UnfilterRows(raw, width, height, above).value;
      RowsBelow(raw, width, height, above);
      RowOfStream(raw[width + 1..], width, height - 1, rows[0], row - 1);
      assert rows[row] == rows[1..][row - 1] && RowAbove(rows, above, row) == RowAbove(rows[1..], rows[0], row - 1);
      FitsFurtherOn(raw, width, width + 1, Area(row - 1, width + 1), RowAbove(rows, above, row), rows[row]);
    }
  }

  lemma {:induction false} FlattenAt(rows: seq<seq<Byte>>, width: nat, row: nat, column: nat)
    requires Rows(rows, width) && row < |rows| && column < width
    ensures |Flatten(rows)| == Area(|rows|, width) && Area(row, width) + column < |Flatten(rows)|
    ensures Flatten(rows)[Area(row, width) + column] == rows[row][column]
    decreases row
  {
    FlattenSize(rows, width);
    AreaRow(row, |rows|, width);
    if row > 0 { FlattenAt(rows[1..], width, row - 1, column); }
  }

  lemma {:induction false} FlattenSize(rows: seq<seq<Byte>>, width: nat)
    requires Rows(rows, width)
    ensures |Flatten(rows)| == Area(|rows|, width)
  {
    if rows != [] { FlattenSize(rows[1..], width); }
  }

  /** Every pixel of an unfiltered raster, by the standard's recurrence in raster coordinates. */
  lemma {:induction false} EveryPixelUndone(raw: seq<Byte>, width: nat, height: nat, row: nat, column: nat)
    requires |raw| == Area(height, width + 1) && row < height && column < width
    requires UnfilterRows(raw, width, height, Zeros(width)).Ok?
    ensures var pixels := Flatten(UnfilterRows(raw, width, height, Zeros(width)).value);
      |pixels| == Area(height, width) && PixelUndone(raw, width, height, pixels, row, column)
  {
    var rows := UnfilterRows(raw, width, height, Zeros(width)).value;
    FlattenSize(rows, width);
    AreaRow(row, height, width + 1);
    RowOfStream(raw, width, height, Zeros(width), row);
    PixelsFit(raw, width, Area(row, width + 1), rows, row, column);
  }

  lemma {:induction false} PixelsFit(raw: seq<Byte>, width: nat, at: nat, rows: seq<seq<Byte>>, row: nat, column: nat)
    requires Rows(rows, width) && row < |rows| && column < width
    requires RowFits(raw, width, at, RowAbove(rows, Zeros(width), row), rows[row])
    ensures |Flatten(rows)| == Area(|rows|, width) && Area(row, width) + width <= |Flatten(rows)|
    ensures row > 0 ==> Area(row - 1, width) + width <= |Flatten(rows)|
    ensures PixelFits(raw[at], raw[at + 1 + column], width, Flatten(rows), row, column)
  {
    var above, stored := RowAbove(rows, Zeros(width), row), raw[at + 1..at + 1 + width];
    RestoredByNeighbours(raw[at], stored, above);
    assert UndoneAt(raw[at], stored, above, rows[row], column);
    FlattenSize(rows, width);
    PixelsOfRow(rows, width, row, column);
    if row > 0 {
      PixelsOfRow(rows, width, row - 1, column);
    }
  }

  lemma {:induction false} PixelsOfRow(rows: seq<seq<Byte>>, width: nat, row: nat, column: nat)
    requires Rows(rows, width) && row < |rows| && column < width
    ensures Area(row, width) + width <= |Flatten(rows)|
    ensures PixelAt(Flatten(rows), width, row, column) == rows[row][column]
    ensures column > 0 ==> PixelAt(Flatten(rows), width, row, column - 1) == rows[row][column - 1]
  {
    FlattenSize(rows, width);
    AreaRow(row, |rows|, width);
    FlattenAt(rows, width, row, column);
    if column > 0 { FlattenAt(rows, width, row, column - 1); }
  }

  /** `pixels[at : at + width] = line`. */
  method PasteRow(pixels: array<Byte>, at: nat, line: array<Byte>)
    requires pixels != line && at + line.Length <= pixels.Length
    modifies pixels
    ensures pixels[..at + line.Length] == old(pixels[..at]) + line[..]
    ensures pixels[at + line.Length..] == old(pixels[at + line.Length..])
  {
    forall i | 0 <= i < line.Length {
      pixels[at + i] := line[i];
    }
  }
}
