/**
 Printing and decoding undo each other: which files the decoder accepts, and what it returns
 for the files the probe writer prints.
 */
module PngRoundTrip {
  import opened Bytes
  import opened Results
  import opened PngFilter
  import opened PngRaster
  import opened PngDecoder

  // --------------------------------------------- the rules, chunk list at a time

  predicate IsKind(cs: seq<Chunk>, i: int, kind: seq<Byte>) {
    0 <= i < |cs| && cs[i].kind == kind
  }

  ghost predicate Has(cs: seq<Chunk>, kind: seq<Byte>) {
    exists i :: IsKind(cs, i, kind)
  }

  /** Image data of a chunk list, in order. */
  function Stream(cs: seq<Chunk>): seq<Byte> {
    if cs == [] then [] else Stream(cs[..|cs| - 1]) + (if cs[|cs| - 1].kind == IDAT then cs[|cs| - 1].body else [])
  }

  /**
   What the walk demands of a chunk list: nothing after IEND, one readable header before the
   first IDAT, no animation and no colour policy. The header need not come first, the IDATs
   need not be consecutive, and any other chunk may stand anywhere.
   */
  ghost predicate Rules(cs: seq<Chunk>) {
    && (forall i :: IsKind(cs, i, IEND) ==> i == |cs| - 1)
    && (forall i :: IsKind(cs, i, IHDR) ==> ReadHeader(cs[i].body).Ok?)
    && (forall i, j :: IsKind(cs, i, IHDR) && IsKind(cs, j, IHDR) ==> i == j)
    && (forall i :: IsKind(cs, i, IDAT) ==> exists j :: j < i && IsKind(cs, j, IHDR))
    && (forall i :: 0 <= i < |cs| ==> cs[i].kind !in ANIMATION && cs[i].kind !in AMBIGUOUS)
  }

  lemma {:induction false} AdmitLast(s: Scan, cs: seq<Chunk>, c: Chunk)
    ensures AdmitAll(s, cs + [c]) ==
      match AdmitAll(s, cs) case Err(e) => Err(e) case Ok(t) => Admit(t, c)
    decreases cs
  {
    if cs == [] {
      assert ([] + [c])[1..] == [];
    } else {
      assert (cs + [c])[1..] == cs[1..] + [c];
      if Admit(s, cs[0]).Ok? {
        AdmitLast(Admit(s, cs[0]).value, cs[1..], c);
      }
    }
  }

  /** The decoder's variables after a chunk list, said without the walk. */
  ghost predicate Remembers(s: Scan, cs: seq<Chunk>) {
    && s.idat == Stream(cs)
    && (s.sawEnd <==> Has(cs, IEND))
    && (s.header.Some? <==> Has(cs, IHDR))
    && (forall i :: IsKind(cs, i, IHDR) ==> ReadHeader(cs[i].body) == Ok(s.header.value))
  }

  lemma {:induction false} KindsDiffer()
    ensures IHDR !in ANIMATION && IDAT !in ANIMATION && IEND !in ANIMATION
    ensures IHDR !in AMBIGUOUS && IDAT !in AMBIGUOUS && IEND !in AMBIGUOUS
    ensures IHDR != IDAT && IHDR != IEND && IDAT != IEND
  {
  }

  lemma {:induction false} KindsOfSnoc(front: seq<Chunk>, c: Chunk, kind: seq<Byte>)
    ensures forall i :: IsKind(front + [c], i, kind) <==> IsKind(front, i, kind) || (i == |front| && c.kind == kind)
    ensures Has(front + [c], kind) <==> Has(front, kind) || c.kind == kind
  {
    if c.kind == kind { assert IsKind(front + [c], |front|, kind); }
    if i :| IsKind(front, i, kind) { assert IsKind(front + [c], i, kind); }
  }

  lemma {:induction false} RulesOfSnoc(front: seq<Chunk>, c: Chunk)
    ensures Rules(front + [c]) <==>
      && Rules(front) && !Has(front, IEND)
      && (c.kind == IHDR ==> ReadHeader(c.body).Ok? && !Has(front, IHDR))
      && (c.kind == IDAT ==> Has(front, IHDR))
      && c.kind !in ANIMATION && c.kind !in AMBIGUOUS
  {
    var cs := front + [c];
    KindsOfSnoc(front, c, IEND);
    KindsOfSnoc(front, c, IHDR);
    KindsOfSnoc(front, c, IDAT);
    assert cs[|front|] == c;
    assert forall i :: 0 <= i < |front| ==> cs[i] == front[i];
    if Rules(cs) {
      assert forall i :: IsKind(front, i, IEND) ==> IsKind(cs, i, IEND);
      assert forall i :: IsKind(front, i, IHDR) ==> IsKind(cs, i, IHDR);
      assert forall i :: IsKind(front, i, IDAT) ==> IsKind(cs, i, IDAT);
      if c.kind == IHDR { assert IsKind(cs, |front|, IHDR); }
      if c.kind == IDAT { assert IsKind(cs, |front|, IDAT); }
    }
  }

  lemma {:induction false} RemembersSnoc(s: Scan, front: seq<Chunk>, c: Chunk)
    requires Remembers(s, front) && Admit(s, c).Ok?
    ensures Remembers(Admit(s, c).value, front + [c])
  {
    KindsDiffer();
    KindsOfSnoc(front, c, IEND);
    KindsOfSnoc(front, c, IHDR);
    var cs := front + [c];
    assert cs[..|cs| - 1] == front && cs[|cs| - 1] == c;
    assert Stream(cs) == Stream(front) + (if c.kind == IDAT then c.body else []);
    assert forall i :: 0 <= i < |front| ==> cs[i] == front[i];
    if c.kind == IHDR {
      assert !Has(front, IHDR);
      assert forall i :: !IsKind(front, i, IHDR);
    }
  }

  /** The incremental walk admits a list exactly when the list obeys the rules. */
  lemma {:induction false} AdmittedIffRules(cs: seq<Chunk>)
    ensures AdmitAll(START, cs).Ok? <==> Rules(cs)
    ensures AdmitAll(START, cs).Ok? ==> Remembers(AdmitAll(START, cs).value, cs)
    decreases |cs|
  {
    if cs != [] {
      var front, c := cs[..|cs| - 1], cs[|cs| - 1];
      assert cs == front + [c];
      AdmittedIffRules(front);
      AdmitLast(START, front, c);
      RulesOfSnoc(front, c);
      KindsDiffer();
      if AdmitAll(START, cs).Ok? {
        RemembersSnoc(AdmitAll(START, front).value, front, c);
      }
    }
  }

  /** Why a chunk is refused behind a rule-abiding list. */
  ghost predicate Breaks(front: seq<Chunk>, c: Chunk, e: Failure) {
    if Has(front, IEND) then e == TrailingData
    else if c.kind == IHDR then
      if Has(front, IHDR) then e == DuplicateIhdr else ReadHeader(c.body) == Err(e)
    else if c.kind in ANIMATION then e == MultiFrame
    else if c.kind in AMBIGUOUS then e == AmbiguousChunk
    else c.kind == IDAT && !Has(front, IHDR) && e == IdatBeforeIhdr
  }

  ghost predicate BreaksAt(cs: seq<Chunk>, i: int, e: Failure) {
    0 <= i < |cs| && Rules(cs[..i]) && Breaks(cs[..i], cs[i], e)
  }

  lemma {:induction false} LastBreaks(front: seq<Chunk>, c: Chunk, e: Failure)
    requires Rules(front)
    ensures AdmitAll(START, front + [c]) == Err(e) <==> Breaks(front, c, e)
  {
    AdmittedIffRules(front);
    AdmitLast(START, front, c);
    RefusalIsBreach(AdmitAll(START, front).value, front, c, e);
  }

  lemma {:induction false} RefusalIsBreach(s: Scan, front: seq<Chunk>, c: Chunk, e: Failure)
    requires (s.sawEnd <==> Has(front, IEND)) && (s.header.Some? <==> Has(front, IHDR))
    ensures Admit(s, c) == Err(e) <==> Breaks(front, c, e)
  {
    KindsDiffer();
  }

  /** The walk refuses with the reason of the first chunk that breaks the rules behind those before it. */
  lemma {:induction false} RefusedByTheFirst(cs: seq<Chunk>, e: Failure)
    ensures AdmitAll(START, cs) == Err(e) <==> exists i :: BreaksAt(cs, i, e)
    decreases |cs|
  {
    if cs != [] {
      var front, c := cs[..|cs| - 1], cs[|cs| - 1];
      assert cs == front + [c];
      RefusedByTheFirst(front, e);
      AdmittedIffRules(front);
      AdmitLast(START, front, c);
      forall i | 0 <= i < |front| ensures BreaksAt(cs, i, e) <==> BreaksAt(front, i, e) {
        assert cs[..i] == front[..i];
      }
      if Rules(front) { LastBreaks(front, c, e); }
      assert BreaksAt(cs, |front|, e) <==> Rules(front) && Breaks(front, c, e);
    }
  }

  // ------------------------------------------------------ what is accepted

  /** The image a rule-abiding chunk list stands for, if its stream is a raster of the declared size. */
  ghost predicate Depicts(codec: Codec, cs: seq<Chunk>, image: Image) {
    && AllPrintable(cs) && Rules(cs) && Has(cs, IEND) && Stream(cs) != []
    && Declares(cs, image.width, image.height)
    && codec.inflate(Stream(cs)).Some?
    && IsEncoded(codec.inflate(Stream(cs)).value, image)
  }

  ghost predicate Declares(cs: seq<Chunk>, width: nat, height: nat) {
    exists i :: IsKind(cs, i, IHDR) && ReadHeader(cs[i].body) == Ok((width, height))
  }

  /** `raw` is the raster's rows, each filtered by one of the five filters. */
  ghost predicate IsEncoded(raw: seq<Byte>, image: Image) {
    exists rows, filters :: EncodedAs(raw, image, rows, filters)
  }

  predicate EncodedAs(raw: seq<Byte>, image: Image, rows: seq<seq<Byte>>, filters: seq<Byte>) {
    && Rows(rows, image.width) && Filters(filters) && |filters| == |rows| == image.height
    && raw == FilterRows(rows, filters, Zeros(image.width))
    && image.pixels == Flatten(rows)
  }

  predicate Unfilters(raw: seq<Byte>, image: Image) {
    && |raw| == Area(image.height, image.width + 1)
    && Raster(UnfilterRows(raw, image.width, image.height, Zeros(image.width))) == Ok(image.pixels)
  }

  lemma {:induction false} EncodedUnfilters(raw: seq<Byte>, image: Image, rows: seq<seq<Byte>>, filters: seq<Byte>)
    requires EncodedAs(raw, image, rows, filters)
    ensures Unfilters(raw, image)
  {
    UnfilterOfFilter(rows, filters, Zeros(image.width));
  }

  lemma {:induction false} UnfilteredIsEncoded(raw: seq<Byte>, image: Image)
    requires Unfilters(raw, image)
    ensures IsEncoded(raw, image)
  {
    FilterOfUnfilter(raw, image.width, image.height, Zeros(image.width));
    var rows := UnfilterRows(raw, image.width, image.height, Zeros(image.width)).value;
    assert EncodedAs(raw, image, rows, FiltersOf(raw, image.width, image.height));
  }

  lemma {:induction false} RasterIffEncoded(raw: seq<Byte>, image: Image)
    ensures IsEncoded(raw, image) <==> Unfilters(raw, image)
  {
    if Unfilters(raw, image) {
      UnfilteredIsEncoded(raw, image);
    }
    if rows, filters :| EncodedAs(raw, image, rows, filters) {
      EncodedUnfilters(raw, image, rows, filters);
    }
  }

  lemma {:induction false} ConcludedIffDepicted(codec: Codec, cs: seq<Chunk>, s: Scan, image: Image)
    requires AllPrintable(cs) && Rules(cs) && Remembers(s, cs)
    ensures Conclude(codec, s) == Ok(image) <==> Depicts(codec, cs, image)
  {
    if s.header.Some? {
      var (width, height) := s.header.value;
      assert Declares(cs, width, height) && forall w, h :: Declares(cs, w, h) ==> w == width && h == height;
      if s.idat != [] && codec.inflate(s.idat).Some? {
        RasterIffEncoded(codec.inflate(s.idat).value, Image(width, height, image.pixels));
      }
    }
  }

  lemma {:induction false} AssembledWalk(codec: Codec, cs: seq<Chunk>)
    requires AllPrintable(cs)
    ensures SIGNATURE <= Assemble(codec, cs)
    ensures Walk(codec, Assemble(codec, cs)[8..], START) == AdmitAll(START, cs)
  {
    assert Assemble(codec, cs)[8..] == PrintAll(codec, cs);
    WalkPrinted(codec, cs, START);
  }

  /** A chunk list that obeys the rules decodes to what it depicts, and to nothing else. */
  lemma {:induction false} PrintedDecodes(codec: Codec, cs: seq<Chunk>, image: Image)
    requires AllPrintable(cs)
    ensures Decode(codec, Assemble(codec, cs)) == Ok(image) <==> Depicts(codec, cs, image)
  {
    AssembledWalk(codec, cs);
    AdmittedIffRules(cs);
    if Rules(cs) {
      ConcludedIffDepicted(codec, cs, AdmitAll(START, cs).value, image);
    }
  }

  /** The decoder accepts exactly the printed chunk lists that obey its rules. */
  lemma {:induction false} AcceptedExactly(codec: Codec, payload: seq<Byte>, image: Image)
    ensures Decode(codec, payload) == Ok(image) <==>
      exists cs :: AllPrintable(cs) && payload == Assemble(codec, cs) && Depicts(codec, cs, image)
  {
    if Decode(codec, payload) == Ok(image) {
      var cs := WalkedIsPrinted(codec, payload[8..], START);
      assert payload == payload[..8] + payload[8..] == Assemble(codec, cs);
      PrintedDecodes(codec, cs, image);
    }
    forall cs | AllPrintable(cs) && payload == Assemble(codec, cs) && Depicts(codec, cs, image)
      ensures Decode(codec, payload) == Ok(image)
    {
      PrintedDecodes(codec, cs, image);
    }
  }

  // ---------------------------------------------------- the writer's files

  /** Neither a header, image data, an end, nor anything the decoder refuses: `pHYs`, for one. */
  predicate Ancillary(c: Chunk) {
    c.kind != IHDR && c.kind != IDAT && c.kind != IEND && c.kind !in ANIMATION && c.kind !in AMBIGUOUS
  }

  /** The header bytes the writer packs for a gray8 image. */
  function HeaderBody(width: Word, height: Word): (r: seq<Byte>)
    ensures |r| == 13
  {
    PackWord(width) + PackWord(height) + [8, 0, 0, 0, 0]
  }

  /** Signature, header, a mixture of image data and ancillary chunks, end. */
  function Layout(width: Word, height: Word, middle: seq<Chunk>): seq<Chunk> {
    [Chunk(IHDR, HeaderBody(width, height))] + middle + [Chunk(IEND, [])]
  }

  predicate Mixture(middle: seq<Chunk>) {
    AllPrintable(middle) && forall i :: 0 <= i < |middle| ==> middle[i].kind == IDAT || Ancillary(middle[i])
  }

  lemma {:induction false} StreamOfConcat(cs: seq<Chunk>, ds: seq<Chunk>)
    ensures Stream(cs + ds) == Stream(cs) + Stream(ds)
    decreases |ds|
  {
    if ds == [] {
      assert cs + ds == cs;
    } else {
      var front, d := ds[..|ds| - 1], ds[|ds| - 1];
      assert (cs + ds)[..|cs + ds| - 1] == cs + front;
      StreamOfConcat(cs, front);
    }
  }

  lemma {:induction false} LayoutStream(width: Word, height: Word, middle: seq<Chunk>)
    ensures Stream(Layout(width, height, middle)) == Stream(middle)
  {
    KindsDiffer();
    var head, end := [Chunk(IHDR, HeaderBody(width, height))], [Chunk(IEND, [])];
    StreamOfConcat(head + middle, end);
    StreamOfConcat(head, middle);
    assert head[..0] == [] && end[..0] == [];
  }

  lemma {:induction false} HeaderReads(width: Word, height: Word)
    requires width > 0 && height > 0
    ensures ReadHeader(HeaderBody(width, height)) == Ok((width as nat, height as nat))
  {
    var body := HeaderBody(width, height);
    assert body[0..4] == PackWord(width) && body[4..8] == PackWord(height);
    UnpackOfPack(width);
    UnpackOfPack(height);
  }

  lemma {:induction false} LayoutObeys(width: Word, height: Word, middle: seq<Chunk>)
    requires width > 0 && height > 0 && Mixture(middle)
    ensures AllPrintable(Layout(width, height, middle)) && Rules(Layout(width, height, middle))
    ensures Has(Layout(width, height, middle), IEND) && Declares(Layout(width, height, middle), width, height)
  {
    var cs := Layout(width, height, middle);
    HeaderReads(width, height);
    LayoutRules(width, height, middle);
    assert forall i :: 0 < i < |cs| - 1 ==> cs[i] == middle[i - 1];
    assert IsKind(cs, 0, IHDR) && IsKind(cs, |cs| - 1, IEND);
  }

  lemma {:induction false} LayoutRules(width: Word, height: Word, middle: seq<Chunk>)
    requires width > 0 && height > 0 && Mixture(middle)
    ensures Rules(Layout(width, height, middle))
  {
    var cs := Layout(width, height, middle);
    KindsDiffer();
    HeaderReads(width, height);
    assert forall i :: 0 < i < |cs| - 1 ==> cs[i] == middle[i - 1];
    assert IsKind(cs, 0, IHDR);
  }

  /**
   Round trip. Whatever the raster, the filter chosen for each row, the way the compressed
   stream is cut into IDATs and the ancillary chunks between them, decoding the printed file
   gives the raster back.
   */
  lemma {:induction false} RoundTrip(codec: Codec, deflate: seq<Byte> -> seq<Byte>, width: Word, height: Word,
                                     rows: seq<seq<Byte>>, filters: seq<Byte>, middle: seq<Chunk>)
    requires width > 0 && |rows| == |filters| == height > 0 && Rows(rows, width) && Filters(filters)
    requires forall raw :: codec.inflate(deflate(raw)) == Some(raw)
    requires Mixture(middle) && Stream(middle) != []
    requires Stream(middle) == deflate(FilterRows(rows, filters, Zeros(width)))
    ensures AllPrintable(Layout(width, height, middle))
    ensures Decode(codec, Assemble(codec, Layout(width, height, middle))) == Ok(Image(width, height, Flatten(rows)))
  {
    var cs := Layout(width, height, middle);
    var image := Image(width, height, Flatten(rows));
    LayoutObeys(width, height, middle);
    LayoutStream(width, height, middle);
    var raw := FilterRows(rows, filters, Zeros(width));
    assert codec.inflate(deflate(raw)) == Some(raw);
    assert EncodedAs(raw, image, rows, filters);
    PrintedDecodes(codec, cs, image);
  }

  /** A rule-abiding file decodes to what its header, its stream and its end mark decide. */
  lemma {:induction false} DecodesFromItsScan(codec: Codec, cs: seq<Chunk>)
    requires AllPrintable(cs) && Rules(cs)
    ensures AdmitAll(START, cs).Ok? && Remembers(AdmitAll(START, cs).value, cs)
    ensures Decode(codec, Assemble(codec, cs)) == Conclude(codec, AdmitAll(START, cs).value)
  {
    AssembledWalk(codec, cs);
    AdmittedIffRules(cs);
  }

  /**
   Two rule-abiding files with one declared size and one compressed stream, both ended or neither, are
   accepted or refused together, for one reason or with one image, however the stream is split.
   */
  lemma {:induction false} SplittingIsInvisible(codec: Codec, cs: seq<Chunk>, ds: seq<Chunk>)
    requires AllPrintable(cs) && AllPrintable(ds) && Rules(cs) && Rules(ds)
    requires Stream(cs) == Stream(ds) && (Has(cs, IEND) <==> Has(ds, IEND))
    requires forall width, height :: Declares(cs, width, height) <==> Declares(ds, width, height)
    ensures Decode(codec, Assemble(codec, cs)) == Decode(codec, Assemble(codec, ds))
  {
    DecodesFromItsScan(codec, cs);
    DecodesFromItsScan(codec, ds);
    SameHeader(cs, ds, AdmitAll(START, cs).value, AdmitAll(START, ds).value);
  }

  lemma {:induction false} SameHeader(cs: seq<Chunk>, ds: seq<Chunk>, s: Scan, t: Scan)
    requires Remembers(s, cs) && Remembers(t, ds)
    requires forall width, height :: Declares(cs, width, height) <==> Declares(ds, width, height)
    ensures s.header == t.header
  {
    if s.header.Some? {
      var i :| IsKind(cs, i, IHDR);
      assert Declares(cs, s.header.value.0, s.header.value.1);
    }
    if t.header.Some? {
      var i :| IsKind(ds, i, IHDR);
      assert Declares(ds, t.header.value.0, t.header.value.1);
    }
  }

  /** Bytes after a readable chunk do not change how it reads. */
  lemma {:induction false} ReadThenMore(codec: Codec, rest: seq<Byte>, extra: seq<Byte>)
    requires ReadChunk(codec, rest).Ok?
    ensures ReadChunk(codec, rest + extra) == ReadChunk(codec, rest)
    ensures var n := 12 + |ReadChunk(codec, rest).value.body|; (rest + extra)[n..] == rest[n..] + extra
  {
    var c := ReadChunk(codec, rest).value;
    var tail := rest[12 + |c.body|..];
    ReadIsPrinted(codec, rest);
    assert rest + extra == PrintChunk(codec, c) + (tail + extra);
    ReadPrinted(codec, c, tail + extra);
  }

  lemma {:induction false} WalkAfterEnd(codec: Codec, rest: seq<Byte>, extra: seq<Byte>, s: Scan)
    requires Walk(codec, rest, s).Ok? && Walk(codec, rest, s).value.sawEnd && extra != []
    ensures Walk(codec, rest + extra, s).Err?
    decreases |rest|
  {
    if rest == [] {
      assert rest + extra == extra;
    } else {
      var c := ReadChunk(codec, rest).value;
      var tail := rest[12 + |c.body|..];
      ReadThenMore(codec, rest, extra);
      WalkAfterEnd(codec, tail, extra, Admit(s, c).value);
    }
  }

  /** An accepted file cannot be continued, so no accepted file is the beginning of another. */
  lemma {:induction false} NothingFollowsAFile(codec: Codec, payload: seq<Byte>, extra: seq<Byte>)
    requires Decode(codec, payload).Ok? && extra != []
    ensures Decode(codec, payload + extra).Err?
  {
    assert (payload + extra)[8..] == payload[8..] + extra;
    WalkAfterEnd(codec, payload[8..], extra, START);
  }
}
