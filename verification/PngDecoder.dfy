/**
 The container half of the gray8 decoder: `decode_gray8_png` walks the chunks with one moving
 offset; `_chunk` and `assemble` of the probe writer print them. The checksum and deflate are
 parameters.
 */
module PngDecoder {
  import opened Bytes
  import opened Results
  import opened PngFilter
  import opened PngRaster

  type Word = n: int | 0 <= n < 0x1_0000_0000

  datatype Codec = Codec(crc: seq<Byte> -> Word, inflate: seq<Byte> -> Option<seq<Byte>>)

  datatype Chunk = Chunk(kind: seq<Byte>, body: seq<Byte>)

  datatype Image = Image(width: nat, height: nat, pixels: seq<Byte>)

  /** "\x89PNG\r\n\x1a\n" */
  const SIGNATURE: seq<Byte> := [137, 80, 78, 71, 13, 10, 26, 10]

  const IHDR: seq<Byte> := [73, 72, 68, 82]
  const IDAT: seq<Byte> := [73, 68, 65, 84]
  const IEND: seq<Byte> := [73, 69, 78, 68]

  /** acTL, fcTL, fdAT */
  const ANIMATION: set<seq<Byte>> := {[97, 99, 84, 76], [102, 99, 84, 76], [102, 100, 65, 84]}

  /** PLTE, tRNS, gAMA, sRGB, iCCP, cHRM */
  const AMBIGUOUS: set<seq<Byte>> :=
    {[80, 76, 84, 69], [116, 82, 78, 83], [103, 65, 77, 65], [115, 82, 71, 66], [105, 67, 67, 80], [99, 72, 82, 77]}

  function Ascii(text: string): seq<Byte>
    requires forall i :: 0 <= i < |text| ==> text[i] < 128 as char
  {
    seq(|text|, i requires 0 <= i < |text| => text[i] as int)
  }

  /** The kinds, spelled. */
  lemma {:induction false} KindsSpelled()
    ensures IHDR == Ascii("IHDR") && IDAT == Ascii("IDAT") && IEND == Ascii("IEND")
    ensures ANIMATION == {Ascii("acTL"), Ascii("fcTL"), Ascii("fdAT")}
    ensures AMBIGUOUS == {Ascii("PLTE"), Ascii("tRNS"), Ascii("gAMA"), Ascii("sRGB"), Ascii("iCCP"), Ascii("cHRM")}
    ensures SIGNATURE == [0x89] + Ascii("PNG\r\n") + [0x1a] + Ascii("\n")
  {
    assert Ascii("IHDR") == IHDR && Ascii("IDAT") == IDAT && Ascii("IEND") == IEND;
    assert Ascii("acTL") == [97, 99, 84, 76];
    assert Ascii("fcTL") == [102, 99, 84, 76];
    assert Ascii("fdAT") == [102, 100, 65, 84];
    assert Ascii("PLTE") == [80, 76, 84, 69];
    assert Ascii("tRNS") == [116, 82, 78, 83];
    assert Ascii("gAMA") == [103, 65, 77, 65];
    assert Ascii("sRGB") == [115, 82, 71, 66];
    assert Ascii("iCCP") == [105, 67, 67, 80];
    assert Ascii("cHRM") == [99, 72, 82, 77];
    assert Ascii("PNG\r\n") == [80, 78, 71, 13, 10] && Ascii("\n") == [10];
  }

  /** `struct.pack(">I", n)` */
  function PackWord(n: Word): (r: seq<Byte>)
    ensures |r| == 4
  {
    var high: int := n / 256;
    var higher: int := high / 256;
    [Low(higher / 256), Low(higher), Low(high), Low(n)]
  }

  /** `struct.unpack(">I", bytes)` */
  function UnpackWord(b: seq<Byte>): Word
    requires |b| == 4
  {
    ((b[0] as int * 256 + b[1]) * 256 + b[2]) * 256 + b[3]
  }

  /** The most significant byte comes first. */
  lemma {:induction false} WordIsBigEndian(b: seq<Byte>)
    requires |b| == 4
    ensures UnpackWord(b) == b[0] as int * 0x100_0000 + b[1] as int * 0x1_0000 + b[2] as int * 0x100 + b[3] as int
  {
  }

  lemma {:induction false} UnpackOfPack(n: Word)
    ensures UnpackWord(PackWord(n)) == n
  {
  }

  lemma {:induction false} PackOfUnpack(b: seq<Byte>)
    requires |b| == 4
    ensures PackWord(UnpackWord(b)) == b
  {
    var high := b[0] as int * 256 + b[1];
    DivideDigit(b[0], b[1]);
    DivideDigit(high, b[2]);
    DivideDigit(high * 256 + b[2], b[3]);
  }

  lemma {:induction false} DivideDigit(q: nat, r: Byte)
    ensures (q * 256 + r) / 256 == q && Low(q * 256 + r) == r
  {
  }

  // ------------------------------------------------------------ the printer

  predicate Printable(c: Chunk) { |c.kind| == 4 && |c.body| < 0x1_0000_0000 }

  /** `_chunk`: length, kind, body, checksum over kind and body. */
  function PrintChunk(codec: Codec, c: Chunk): (r: seq<Byte>)
    requires Printable(c)
    ensures |r| == 12 + |c.body|
  {
    PackWord(|c.body|) + c.kind + c.body + PackWord(codec.crc(c.kind + c.body))
  }

  /** Byte for byte: the length and the checksum most significant byte first, the checksum over kind and body. */
  lemma {:induction false} PrintedLayout(codec: Codec, c: Chunk)
    requires Printable(c)
    ensures var p, n, sum := PrintChunk(codec, c), |c.body|, codec.crc(c.kind + c.body);
      && |p| == 12 + n && p[4..8] == c.kind && p[8..8 + n] == c.body
      && p[0] as int * 0x100_0000 + p[1] as int * 0x1_0000 + p[2] as int * 0x100 + p[3] as int == n
      && p[8 + n] as int * 0x100_0000 + p[9 + n] as int * 0x1_0000 + p[10 + n] as int * 0x100 + p[11 + n] as int == sum
  {
    var n := |c.body|;
    var length, sum := PackWord(n), PackWord(codec.crc(c.kind + c.body));
    UnpackOfPack(n);
    UnpackOfPack(codec.crc(c.kind + c.body));
    WordIsBigEndian(length);
    WordIsBigEndian(sum);
  }

  predicate AllPrintable(cs: seq<Chunk>) {
    forall i :: 0 <= i < |cs| ==> Printable(cs[i])
  }

  function PrintAll(codec: Codec, cs: seq<Chunk>): seq<Byte>
    requires AllPrintable(cs)
  {
    if cs == [] then [] else PrintChunk(codec, cs[0]) + PrintAll(codec, cs[1..])
  }

  /** `assemble`: the signature, then the parts. */
  function Assemble(codec: Codec, cs: seq<Chunk>): seq<Byte>
    requires AllPrintable(cs)
  {
    SIGNATURE + PrintAll(codec, cs)
  }

  // -------------------------------------------------- what one chunk may do

  /** The decoder's variables between two chunks. */
  datatype Scan = Scan(header: Option<(nat, nat)>, idat: seq<Byte>, sawEnd: bool)

  const START := Scan(None, [], false)

  /** The thirteen bytes of a header, checked in the order the decoder checks them. */
  function ReadHeader(body: seq<Byte>): (r: Result<(nat, nat), Failure>)
    ensures r.Ok? ==> 0 < r.value.0 < 0x1_0000_0000 && 0 < r.value.1 < 0x1_0000_0000
  {
    if |body| != 13 then Err(BadIhdr) else
      var width, height := UnpackWord(body[0..4]), UnpackWord(body[4..8]);
      if width == 0 || height == 0 then Err(EmptyImage)
      else if body[8] != 8 then Err(BadBitDepth)
      else if body[9] != 0 then Err(BadColourType)
      else if body[10] != 0 || body[11] != 0 then Err(UnsupportedCodec)
      else if body[12] != 0 then Err(Interlaced)
      else Ok((width, height))
  }

  /** The one shape of header that is read: two positive words, then depth 8 and four zeros. */
  lemma {:induction false} HeaderExactly(body: seq<Byte>, width: nat, height: nat)
    ensures ReadHeader(body) == Ok((width, height)) <==>
      && |body| == 13 && body[8..] == [8, 0, 0, 0, 0] && width > 0 && height > 0
      && body[0] as int * 0x100_0000 + body[1] as int * 0x1_0000 + body[2] as int * 0x100 + body[3] as int == width
      && body[4] as int * 0x100_0000 + body[5] as int * 0x1_0000 + body[6] as int * 0x100 + body[7] as int == height
  {
    if |body| == 13 {
      WordIsBigEndian(body[0..4]);
      WordIsBigEndian(body[4..8]);
      assert body[8..] == [body[8], body[9], body[10], body[11], body[12]];
    }
  }

  function Admit(s: Scan, c: Chunk): Result<Scan, Failure> {
    if s.sawEnd then Err(TrailingData)
    else if c.kind == IHDR then
      if s.header.Some? then Err(DuplicateIhdr)
      else match ReadHeader(c.body)
        case Err(e) => Err(e)
        case Ok(size) => Ok(s.(header := Some(size)))
    else if c.kind in ANIMATION then Err(MultiFrame)
    else if c.kind in AMBIGUOUS then Err(AmbiguousChunk)
    else if c.kind == IDAT then
      if s.header.None? then Err(IdatBeforeIhdr) else Ok(s.(idat := s.idat + c.body))
    else if c.kind == IEND then Ok(s.(sawEnd := true))
    else Ok(s)
  }

  function AdmitAll(s: Scan, cs: seq<Chunk>): Result<Scan, Failure>
    decreases cs
  {
    if cs == [] then Ok(s) else
      match Admit(s, cs[0])
      case Err(e) => Err(e)
      case Ok(t) => AdmitAll(t, cs[1..])
  }

  /** What the decoder does with the variables it ends up with. */
  function Conclude(codec: Codec, s: Scan): Result<Image, Failure> {
    if s.header.None? then Err(NoIhdr)
    else if !s.sawEnd then Err(NoIend)
    else if s.idat == [] then Err(NoIdat)
    else
      var (width, height) := s.header.value;
      match codec.inflate(s.idat)
      case None => Err(BadDeflate)
      case Some(raw) =>
        if |raw| != Area(height, width + 1) then Err(BadRasterLength) else
          match Raster(UnfilterRows(raw, width, height, Zeros(width)))
          case Err(e) => Err(e)
          case Ok(pixels) => Ok(Image(width, height, pixels))
  }

  // ------------------------------------------------------------ the cursor

  /** The chunk at the start of `rest`, or why there is none. */
  function ReadChunk(codec: Codec, rest: seq<Byte>): (r: Result<Chunk, Failure>)
    ensures r.Ok? ==> Printable(r.value) && 12 + |r.value.body| <= |rest|
  {
    if |rest| < 8 then Err(Truncated) else
      var length := UnpackWord(rest[0..4]);
      if 8 + length + 4 > |rest| then Err(Truncated) else
        var kind, body := rest[4..8], rest[8..8 + length];
        if codec.crc(kind + body) != UnpackWord(rest[8 + length..12 + length]) then Err(BadCrc)
        else Ok(Chunk(kind, body))
  }

  function Walk(codec: Codec, rest: seq<Byte>, s: Scan): Result<Scan, Failure>
    decreases |rest|
  {
    if rest == [] then Ok(s) else
      match ReadChunk(codec, rest)
      case Err(e) => Err(e)
      case Ok(c) =>
        match Admit(s, c)
        case Err(e) => Err(e)
        case Ok(t) => Walk(codec, rest[12 + |c.body|..], t)
  }

  function Decode(codec: Codec, payload: seq<Byte>): Result<Image, Failure> {
    if !(SIGNATURE <= payload) then Err(BadSignature) else
      match Walk(codec, payload[8..], START)
      case Err(e) => Err(e)
      case Ok(s) => Conclude(codec, s)
  }

  // ----------------------------------------------------- printing and reading

  /** A printed chunk at the front of anything is read back, and only a printed chunk is. */
  lemma {:induction false} ReadPrinted(codec: Codec, c: Chunk, tail: seq<Byte>)
    requires Printable(c)
    ensures ReadChunk(codec, PrintChunk(codec, c) + tail) == Ok(c)
    ensures (PrintChunk(codec, c) + tail)[12 + |c.body|..] == tail
  {
    var rest := PrintChunk(codec, c) + tail;
    var n := |c.body|;
    UnpackOfPack(n);
    UnpackOfPack(codec.crc(c.kind + c.body));
    assert rest[0..4] == PackWord(n);
    assert rest[4..8] == c.kind;
    assert rest[8..8 + n] == c.body;
    assert rest[8 + n..12 + n] == PackWord(codec.crc(c.kind + c.body));
  }

  lemma {:induction false} ReadIsPrinted(codec: Codec, rest: seq<Byte>)
    requires ReadChunk(codec, rest).Ok?
    ensures var c := ReadChunk(codec, rest).value; rest == PrintChunk(codec, c) + rest[12 + |c.body|..]
  {
    var c := ReadChunk(codec, rest).value;
    var n := |c.body|;
    PackOfUnpack(rest[0..4]);
    PackOfUnpack(rest[8 + n..12 + n]);
    assert rest == rest[0..4] + rest[4..8] + rest[8..8 + n] + rest[8 + n..12 + n] + rest[12 + n..];
  }

  /** The walk over printed chunks is the chunk rules applied in order, refusals included. */
  lemma {:induction false} WalkPrinted(codec: Codec, cs: seq<Chunk>, s: Scan)
    requires AllPrintable(cs)
    ensures Walk(codec, PrintAll(codec, cs), s) == AdmitAll(s, cs)
  {
    if cs != [] {
      ReadPrinted(codec, cs[0], PrintAll(codec, cs[1..]));
      if Admit(s, cs[0]).Ok? {
        WalkPrinted(codec, cs[1..], Admit(s, cs[0]).value);
      }
    }
  }

  /** Whatever the walk accepts is printed chunks that the rules admit. */
  lemma {:induction false} WalkedIsPrinted(codec: Codec, rest: seq<Byte>, s: Scan) returns (cs: seq<Chunk>)
    requires Walk(codec, rest, s).Ok?
    ensures AllPrintable(cs) && rest == PrintAll(codec, cs)
    ensures AdmitAll(s, cs) == Walk(codec, rest, s)
    decreases |rest|
  {
    if rest == [] {
      cs := [];
    } else {
      var c := ReadChunk(codec, rest).value;
      ReadIsPrinted(codec, rest);
      var tail := WalkedIsPrinted(codec, rest[12 + |c.body|..], Admit(s, c).value);
      cs := [c] + tail;
      assert cs[1..] == tail;
    }
  }

  // ------------------------------------------------------------- the method

  /** The walk at an offset goes on behind the chunk there, once that is admitted. */
  lemma {:induction false} WalkTaken(codec: Codec, payload: seq<Byte>, offset: nat, c: Chunk, s: Scan, next: nat,
                                     t: Scan)
    requires offset < |payload| && ReadChunk(codec, payload[offset..]) == Ok(c) && Admit(s, c) == Ok(t)
    requires next == offset + 12 + |c.body|
    ensures next <= |payload| && Walk(codec, payload[offset..], s) == Walk(codec, payload[next..], t)
  {
    assert payload[offset..][12 + |c.body|..] == payload[next..];
  }

  /** `decode_gray8_png`: one moving offset, a growing stream, a header and a flag. */
  method DecodeGray8Png(codec: Codec, payload: seq<Byte>) returns (r: Result<Image, Failure>)
    ensures r == Decode(codec, payload)
  {
    if !(SIGNATURE <= payload) { return Err(BadSignature); }
    var offset := 8;
    var header: Option<(nat, nat)> := None;
    var idat: seq<Byte> := [];
    var sawEnd := false;
    ghost var walked := Walk(codec, payload[8..], START);
    while offset < |payload|
      invariant 8 <= offset <= |payload|
      invariant walked == Walk(codec, payload[offset..], Scan(header, idat, sawEnd))
    {
      var failure: Option<Failure>;
      failure, offset, header, idat, sawEnd := Advance(codec, payload, offset, header, idat, sawEnd);
      if failure.Some? { return Err(failure.value); }
    }
    r := Finish(codec, header, idat, sawEnd);
  }

  /** One turn of the loop: the chunk at the offset taken in, and the offset moved behind it. */
  method Advance(codec: Codec, payload: seq<Byte>, offset: nat, header: Option<(nat, nat)>, idat: seq<Byte>,
                 sawEnd: bool)
    returns (failure: Option<Failure>, next: nat, header': Option<(nat, nat)>, idat': seq<Byte>, sawEnd': bool)
    requires offset < |payload|
    ensures failure.Some? ==> Walk(codec, payload[offset..], Scan(header, idat, sawEnd)) == Err(failure.value)
    ensures failure.None? ==> offset < next <= |payload|
    ensures failure.None? ==>
      Walk(codec, payload[offset..], Scan(header, idat, sawEnd))
        == Walk(codec, payload[next..], Scan(header', idat', sawEnd'))
  {
    next, header', idat', sawEnd' := offset, header, idat, sawEnd;
    var chunk := TakeChunk(codec, payload, offset);
    if chunk.Err? { return Some(chunk.error), next, header', idat', sawEnd'; }
    var Chunk(kind, body) := chunk.value;
    failure, header', idat', sawEnd' := OneChunk(kind, body, header, idat, sawEnd);
    next := offset + 12 + |body|;
    if failure.None? {
      WalkTaken(codec, payload, offset, chunk.value, Scan(header, idat, sawEnd), next, Scan(header', idat', sawEnd'));
    }
  }

  /** The chunk at the offset: every slice is inside the payload, or the chunk is refused. */
  method TakeChunk(codec: Codec, payload: seq<Byte>, offset: nat) returns (r: Result<Chunk, Failure>)
    requires offset < |payload|
    ensures r == ReadChunk(codec, payload[offset..])
  {
    ghost var rest := payload[offset..];
    if offset + 8 > |payload| { return Err(Truncated); }
    assert rest[0..4] == payload[offset..offset + 4];
    var length := UnpackWord(payload[offset..offset + 4]);
    var kind := payload[offset + 4..offset + 8];
    var bodyStart := offset + 8;
    var bodyEnd := bodyStart + length;
    if bodyEnd + 4 > |payload| { return Err(Truncated); }
    var body := payload[bodyStart..bodyEnd];
    assert rest[4..8] == kind && rest[8..8 + length] == body;
    assert rest[8 + length..12 + length] == payload[bodyEnd..bodyEnd + 4];
    if codec.crc(kind + body) != UnpackWord(payload[bodyEnd..bodyEnd + 4]) { return Err(BadCrc); }
    r := Ok(Chunk(kind, body));
  }

  /** The branches of the walk for one intact chunk. */
  method OneChunk(kind: seq<Byte>, body: seq<Byte>, header: Option<(nat, nat)>, idat: seq<Byte>, sawEnd: bool)
    returns (failure: Option<Failure>, header': Option<(nat, nat)>, idat': seq<Byte>, sawEnd': bool)
    ensures Admit(Scan(header, idat, sawEnd), Chunk(kind, body))
      == if failure.Some? then Err(failure.value) else Ok(Scan(header', idat', sawEnd'))
  {
    failure, header', idat', sawEnd' := None, header, idat, sawEnd;
    if sawEnd { return Some(TrailingData), header, idat, sawEnd; }
    if kind == IHDR {
      if header.Some? { return Some(DuplicateIhdr), header, idat, sawEnd; }
      match ReadHeader(body)
      case Err(e) => failure := Some(e);
      case Ok(size) => header' := Some(size);
    } else if kind in ANIMATION {
      failure := Some(MultiFrame);
    } else if kind in AMBIGUOUS {
      failure := Some(AmbiguousChunk);
    } else if kind == IDAT {
      if header.None? { return Some(IdatBeforeIhdr), header, idat, sawEnd; }
      idat' := idat + body;
    } else if kind == IEND {
      sawEnd' := true;
    }
  }

  /** After the walk: the missing-chunk refusals, inflate, the raster length and the filters. */
  method Finish(codec: Codec, header: Option<(nat, nat)>, idat: seq<Byte>, sawEnd: bool)
    returns (r: Result<Image, Failure>)
    ensures r == Conclude(codec, Scan(header, idat, sawEnd))
  {
    if header.None? { return Err(NoIhdr); }
    if !sawEnd { return Err(NoIend); }
    if idat == [] { return Err(NoIdat); }
    var (width, height) := header.value;
    var inflated := codec.inflate(idat);
    if inflated.None? { return Err(BadDeflate); }
    var raw := inflated.value;
    AreaIsProduct(height, width + 1);
    var expected := height * (width + 1);
    if |raw| != expected { return Err(BadRasterLength); }
    var pixels := Unfilter(raw, width, height);
    match pixels
    case Err(e) => r := Err(e);
    case Ok(p) => r := Ok(Image(width, height, p));
  }
}
