/** The byte-level walkers over PNG, WebP and JPEG containers. */
module ImageContainers {
  import opened Outcomes

  type Byte = b: int | 0 <= b < 256

  type Bytes = seq<Byte>

  datatype Mime = Jpeg | Png | Webp

  datatype Media = Media(mime: Mime, width: nat, height: nat)

  const MAX_SIDE := 4096
  const HEADER_BYTES := 10

  const ACTL: Bytes := [0x61, 0x63, 0x54, 0x4C]
  const IHDR: Bytes := [0x49, 0x48, 0x44, 0x52]
  const RIFF: Bytes := [0x52, 0x49, 0x46, 0x46]
  const WEBP: Bytes := [0x57, 0x45, 0x42, 0x50]
  const ANIM: Bytes := [0x41, 0x4E, 0x49, 0x4D]
  const ANMF: Bytes := [0x41, 0x4E, 0x4D, 0x46]
  const VP8X: Bytes := [0x56, 0x50, 0x38, 0x58]
  const VP8: Bytes := [0x56, 0x50, 0x38, 0x20]
  const VP8L: Bytes := [0x56, 0x50, 0x38, 0x4C]
  const PNG_SIGNATURE: Bytes := [0x89, 0x50, 0x4E, 0x47, 0x0D, 0x0A, 0x1A, 0x0A]

  lemma NamesAreAscii()
    ensures ACTL == ['a' as int, 'c' as int, 'T' as int, 'L' as int]
    ensures IHDR == ['I' as int, 'H' as int, 'D' as int, 'R' as int]
    ensures RIFF == ['R' as int, 'I' as int, 'F' as int, 'F' as int]
    ensures WEBP == ['W' as int, 'E' as int, 'B' as int, 'P' as int]
    ensures ANIM == ['A' as int, 'N' as int, 'I' as int, 'M' as int]
    ensures ANMF == ['A' as int, 'N' as int, 'M' as int, 'F' as int]
    ensures VP8X == ['V' as int, 'P' as int, '8' as int, 'X' as int]
    ensures VP8L == ['V' as int, 'P' as int, '8' as int, 'L' as int]
    ensures VP8 == ['V' as int, 'P' as int, '8' as int, ' ' as int]
    ensures PNG_SIGNATURE == [0x89, 'P' as int, 'N' as int, 'G' as int, '\r' as int, '\n' as int, 0x1A, '\n' as int]
  {
  }

  predicate ValidSide(n: nat) {
    1 <= n <= MAX_SIDE
  }

  function Sized(mime: Mime, width: nat, height: nat): (r: Option<Media>)
    ensures r.Some? <==> 1 <= width <= 4096 && 1 <= height <= 4096
    ensures r.Some? ==> r.value == Media(mime, width, height)
  {
    if ValidSide(width) && ValidSide(height) then Some(Media(mime, width, height)) else None
  }

  function At(bytes: Bytes, i: nat): nat
    requires i < |bytes|
  {
    bytes[i]
  }

  function Be16(bytes: Bytes, at: nat): nat
    requires at + 2 <= |bytes|
  {
    At(bytes, at) * 0x100 + At(bytes, at + 1)
  }

  function Be32(bytes: Bytes, at: nat): nat
    requires at + 4 <= |bytes|
  {
    At(bytes, at) * 0x100_0000 + At(bytes, at + 1) * 0x1_0000 + At(bytes, at + 2) * 0x100 + At(bytes, at + 3)
  }

  function Le16(bytes: Bytes, at: nat): nat
    requires at + 2 <= |bytes|
  {
    At(bytes, at) + At(bytes, at + 1) * 0x100
  }

  function Le24(bytes: Bytes, at: nat): nat
    requires at + 3 <= |bytes|
  {
    At(bytes, at) + At(bytes, at + 1) * 0x100 + At(bytes, at + 2) * 0x1_0000
  }

  function Le32(bytes: Bytes, at: nat): nat
    requires at + 4 <= |bytes|
  {
    At(bytes, at) + At(bytes, at + 1) * 0x100 + At(bytes, at + 2) * 0x1_0000 + At(bytes, at + 3) * 0x100_0000
  }

  function EncodeBe32(n: nat): (r: Bytes)
    requires n < 0x1_0000_0000
    ensures |r| == 4
  {
    [n / 0x100_0000, n / 0x1_0000 % 0x100, n / 0x100 % 0x100, n % 0x100]
  }

  function EncodeLe32(n: nat): (r: Bytes)
    requires n < 0x1_0000_0000
    ensures |r| == 4
  {
    [n % 0x100, n / 0x100 % 0x100, n / 0x1_0000 % 0x100, n / 0x100_0000]
  }

  lemma Digits(n: nat)
    ensures n == n / 0x100_0000 * 0x100_0000 + n / 0x1_0000 % 0x100 * 0x1_0000 + n / 0x100 % 0x100 * 0x100 + n % 0x100
  {
    assert n == n / 0x100 * 0x100 + n % 0x100;
    assert n / 0x100 == n / 0x100 / 0x100 * 0x100 + n / 0x100 % 0x100;
    assert n / 0x100 / 0x100 == n / 0x1_0000;
    assert n / 0x1_0000 == n / 0x1_0000 / 0x100 * 0x100 + n / 0x1_0000 % 0x100;
    assert n / 0x1_0000 / 0x100 == n / 0x100_0000;
  }

  lemma ReadsBe32(bytes: Bytes, at: nat, n: nat)
    requires n < 0x1_0000_0000 && at + 4 <= |bytes| && bytes[at..at + 4] == EncodeBe32(n)
    ensures Be32(bytes, at) == n
  {
    Digits(n);
    var word := bytes[at..at + 4];
    assert bytes[at] == word[0] && bytes[at + 1] == word[1] && bytes[at + 2] == word[2] && bytes[at + 3] == word[3];
  }

  lemma ReadsLe32(bytes: Bytes, at: nat, n: nat)
    requires n < 0x1_0000_0000 && at + 4 <= |bytes| && bytes[at..at + 4] == EncodeLe32(n)
    ensures Le32(bytes, at) == n
  {
    Digits(n);
    var word := bytes[at..at + 4];
    assert bytes[at] == word[0] && bytes[at + 1] == word[1] && bytes[at + 2] == word[2] && bytes[at + 3] == word[3];
  }

  // ---------------------------------------------------------------------------
  // PNG
  // ---------------------------------------------------------------------------

  function HasChunkFrom(bytes: Bytes, offset: nat, chunkType: Bytes): bool
    decreases |bytes| - offset
  {
    if offset + 8 > |bytes| then false
    else if bytes[offset + 4..offset + 8] == chunkType then true
    else
      var length := Be32(bytes, offset);
      offset + 12 + length <= |bytes| && HasChunkFrom(bytes, offset + 12 + length, chunkType)
  }

  method PngHasChunk(bytes: Bytes, chunkType: Bytes) returns (found: bool)
    ensures found == HasChunkFrom(bytes, 8, chunkType)
  {
    var offset := 8;
    while offset + 8 <= |bytes|
      invariant 8 <= offset
      invariant HasChunkFrom(bytes, offset, chunkType) == HasChunkFrom(bytes, 8, chunkType)
      decreases |bytes| - offset
    {
      var length := Be32(bytes, offset);
      if bytes[offset + 4..offset + 8] == chunkType {
        return true;
      }
      if offset + 12 + length > |bytes| {
        return false;
      }
      offset := offset + 12 + length;
    }
    return false;
  }

  /** A PNG chunk: four bytes of type, its data, and a checksum that the walker does not look at. */
  datatype PngChunk = PngChunk(chunkType: Bytes, data: Bytes, crc: Bytes)

  predicate ValidPngChunk(c: PngChunk) {
    |c.chunkType| == 4 && |c.crc| == 4 && |c.data| < 0x1_0000_0000
  }

  function WritePngChunk(c: PngChunk): Bytes
    requires ValidPngChunk(c)
  {
    EncodeBe32(|c.data|) + c.chunkType + c.data + c.crc
  }

  function WritePng(chunks: seq<PngChunk>): Bytes
    requires forall c :: c in chunks ==> ValidPngChunk(c)
  {
    if chunks == [] then [] else WritePngChunk(chunks[0]) + WritePng(chunks[1..])
  }

  /** Where two fields written one after the other stand. */
  lemma FieldsStand(before: Bytes, first: Bytes, second: Bytes, rest: Bytes)
    ensures var (bytes, at) := (before + (first + (second + rest)), |before|);
            && bytes[at..at + |first|] == first
            && bytes[at + |first|..at + |first| + |second|] == second
            && bytes == (before + (first + second)) + rest
  {
  }

  lemma WrittenPngChunk(before: Bytes, c: PngChunk, rest: Bytes)
    requires ValidPngChunk(c)
    ensures var (bytes, at) := (before + (WritePngChunk(c) + rest), |before|);
            && |WritePngChunk(c)| == 12 + |c.data|
            && at + 12 + |c.data| <= |bytes|
            && bytes[at + 4..at + 8] == c.chunkType && Be32(bytes, at) == |c.data|
            && bytes == (before + WritePngChunk(c)) + rest
  {
    hide Be32, EncodeBe32;
    var length := EncodeBe32(|c.data|);
    FieldsStand(before, length, c.chunkType, c.data + c.crc + rest);
    assert WritePngChunk(c) + rest == length + (c.chunkType + (c.data + c.crc + rest));
    ReadsBe32(before + (WritePngChunk(c) + rest), |before|, |c.data|);
  }

  /** On any list of chunks written after whatever comes before, the walker finds a type exactly when a chunk has it. */
  lemma {:induction false} FindsExactlyTheChunks(before: Bytes, chunks: seq<PngChunk>, chunkType: Bytes)
    requires forall c :: c in chunks ==> ValidPngChunk(c)
    ensures HasChunkFrom(before + WritePng(chunks), |before|, chunkType)
            <==> exists c :: c in chunks && c.chunkType == chunkType
    decreases |chunks|
  {
    hide WritePngChunk, Be32;
    if chunks != [] {
      assert chunks == [chunks[0]] + chunks[1..];
      WrittenPngChunk(before, chunks[0], WritePng(chunks[1..]));
      FindsExactlyTheChunks(before + WritePngChunk(chunks[0]), chunks[1..], chunkType);
    }
  }

  /** The same for a file: its signature, then its chunks. */
  lemma PngHasExactlyItsChunks(chunks: seq<PngChunk>, chunkType: Bytes)
    requires forall c :: c in chunks ==> ValidPngChunk(c)
    ensures HasChunkFrom(PNG_SIGNATURE + WritePng(chunks), 8, chunkType)
            <==> exists c :: c in chunks && c.chunkType == chunkType
  {
    FindsExactlyTheChunks(PNG_SIGNATURE, chunks, chunkType);
  }

  /** Where the fields of a header stand: length, type, width and height of four bytes each. */
  lemma HeaderLayout(signature: Bytes, length: Bytes, chunkType: Bytes, width: Bytes, height: Bytes, tail: Bytes)
    requires |signature| == 8 && |length| == 4 && |chunkType| == 4 && |width| == 4 && |height| == 4
    ensures var bytes := signature + (length + (chunkType + (width + (height + tail))));
            |bytes| == 24 + |tail| && bytes[12..16] == chunkType && bytes[16..20] == width && bytes[20..24] == height
  {
    FieldsStand(signature, length, chunkType, width + (height + tail));
    FieldsStand(signature + (length + chunkType), width, height, tail);
  }

  lemma HeaderFields(c: PngChunk, width: Bytes, height: Bytes, rest: Bytes)
    requires ValidPngChunk(c) && |c.data| >= 8 && |width| == 4 && c.data[..8] == width + height
    ensures WritePngChunk(c) + rest
            == EncodeBe32(|c.data|) + (c.chunkType + (width + (height + (c.data[8..] + c.crc + rest))))
  {
    hide EncodeBe32;
    assert c.data == (width + height) + c.data[8..];
    assert width + (height + (c.data[8..] + c.crc + rest)) == c.data + c.crc + rest;
  }

  /** The header chunk that comes first gives the dimensions. */
  lemma HeaderGivesDimensions(chunks: seq<PngChunk>, width: nat, height: nat)
    requires forall c :: c in chunks ==> ValidPngChunk(c)
    requires chunks != [] && chunks[0].chunkType == IHDR && |chunks[0].data| == 13
    requires width < 0x1_0000_0000 && height < 0x1_0000_0000
    requires chunks[0].data[..8] == EncodeBe32(width) + EncodeBe32(height)
    ensures PngDimensions(PNG_SIGNATURE + WritePng(chunks)) == Sized(Png, width, height)
  {
    var (c, rest) := (chunks[0], WritePng(chunks[1..]));
    var tail := c.data[8..] + c.crc + rest;
    assert WritePng(chunks) == WritePngChunk(c) + rest && |PNG_SIGNATURE| == 8;
    hide Be32, EncodeBe32, Sized, WritePngChunk, WritePng;
    HeaderFields(c, EncodeBe32(width), EncodeBe32(height), rest);
    HeaderLayout(PNG_SIGNATURE, EncodeBe32(|c.data|), c.chunkType, EncodeBe32(width), EncodeBe32(height), tail);
    ReadsBe32(PNG_SIGNATURE + WritePng(chunks), 16, width);
    ReadsBe32(PNG_SIGNATURE + WritePng(chunks), 20, height);
  }

  function PngDimensions(bytes: Bytes): (r: Option<Media>)
    ensures r.Some? ==> r.value.mime == Png && ValidSide(r.value.width) && ValidSide(r.value.height)
    ensures r.Some? ==> |bytes| >= 33 && bytes[12..16] == IHDR
  {
    if |bytes| < 33 || bytes[12..16] != IHDR then None
    else Sized(Png, Be32(bytes, 16), Be32(bytes, 20))
  }

  // ---------------------------------------------------------------------------
  // WebP
  // ---------------------------------------------------------------------------

  /** Bit 1 of the flags of a VP8X chunk. */
  predicate AnimationBit(b: Byte) {
    b / 2 % 2 == 1
  }

  /** It is the bit of weight two. */
  lemma AnimationBitIsTwo(b: Byte, high: nat, bit: nat, low: nat)
    requires b as nat == high * 4 + bit * 2 + low && bit < 2 && low < 2
    ensures AnimationBit(b) <==> bit == 1
  {
  }

  function AnimatedFrom(bytes: Bytes, offset: nat): bool
    decreases |bytes| - offset
  {
    if offset + 8 > |bytes| then false
    else
      var fourCc := bytes[offset..offset + 4];
      var length := Le32(bytes, offset + 4);
      if fourCc == ANIM || fourCc == ANMF then true
      else if fourCc == VP8X && offset + 9 < |bytes| && AnimationBit(bytes[offset + 8]) then true
      else AnimatedFrom(bytes, offset + 8 + length + length % 2)
  }

  method WebpIsAnimated(bytes: Bytes) returns (animated: bool)
    ensures animated == AnimatedFrom(bytes, 12)
  {
    var offset := 12;
    while offset + 8 <= |bytes|
      invariant 12 <= offset
      invariant AnimatedFrom(bytes, offset) == AnimatedFrom(bytes, 12)
      decreases |bytes| - offset
    {
      var fourCc := bytes[offset..offset + 4];
      var length := Le32(bytes, offset + 4);
      if fourCc == ANIM || fourCc == ANMF {
        return true;
      }
      if fourCc == VP8X && offset + 9 < |bytes| && AnimationBit(bytes[offset + 8]) {
        return true;
      }
      offset := offset + 8 + length + length % 2;
    }
    return false;
  }

  /** A RIFF chunk; data of odd length is followed by a padding byte. */
  datatype RiffChunk = RiffChunk(fourCc: Bytes, data: Bytes)

  predicate ValidRiff(chunks: seq<RiffChunk>) {
    forall i :: 0 <= i < |chunks| ==> ValidRiffChunk(chunks[i])
  }

  predicate ValidRiffChunk(c: RiffChunk) {
    |c.fourCc| == 4 && |c.data| < 0x1_0000_0000
  }

  function WriteRiffChunk(c: RiffChunk): Bytes
    requires ValidRiffChunk(c)
  {
    c.fourCc + EncodeLe32(|c.data|) + c.data + if |c.data| % 2 == 1 then [0] else []
  }

  function WriteRiff(chunks: seq<RiffChunk>): Bytes
    requires ValidRiff(chunks)
  {
    if chunks == [] then [] else WriteRiffChunk(chunks[0]) + WriteRiff(chunks[1..])
  }

  /** The byte that the walker takes for a VP8X chunk's flags: its first data byte, or, when it has no data, the first
      byte of the chunk that follows. */
  predicate Flagged(chunks: seq<RiffChunk>, i: nat)
    requires i < |chunks| && ValidRiff(chunks)
  {
    chunks[i].fourCc == VP8X
    && if chunks[i].data != [] then AnimationBit(chunks[i].data[0])
       else i + 1 < |chunks| && AnimationBit(chunks[i + 1].fourCc[0])
  }

  predicate Animates(chunks: seq<RiffChunk>, i: nat)
    requires i < |chunks| && ValidRiff(chunks)
  {
    chunks[i].fourCc == ANIM || chunks[i].fourCc == ANMF || Flagged(chunks, i)
  }

  ghost predicate SomeChunkAnimates(chunks: seq<RiffChunk>)
    requires ValidRiff(chunks)
  {
    exists i :: 0 <= i < |chunks| && Animates(chunks, i)
  }

  lemma SomeAnimatesSplits(chunks: seq<RiffChunk>)
    requires chunks != [] && ValidRiff(chunks)
    ensures SomeChunkAnimates(chunks) <==> Animates(chunks, 0) || SomeChunkAnimates(chunks[1..])
  {
    var rest := chunks[1..];
    forall i | 0 <= i < |rest| ensures Animates(rest, i) == Animates(chunks, i + 1) {
      assert rest[i] == chunks[i + 1];
    }
    if i :| 0 <= i < |chunks| && Animates(chunks, i) {
      assert i > 0 ==> Animates(rest, i - 1);
    }
  }

  lemma Regroup(a: Bytes, b: Bytes, data: Bytes, pad: Bytes, rest: Bytes)
    ensures (a + b + data + pad) + rest == a + (b + (data + (pad + rest)))
  {
  }

  /** Where the parts of a chunk stand. */
  lemma PartsStand(before: Bytes, a: Bytes, b: Bytes, data: Bytes, pad: Bytes, rest: Bytes)
    ensures var (chunk, at) := (a + b + data + pad, |before|);
            var bytes := before + (chunk + rest);
            && |chunk| == |a| + |b| + |data| + |pad| && |bytes| == at + |chunk| + |rest|
            && bytes[at..at + |a|] == a && bytes[at + |a|..at + |a| + |b|] == b
            && bytes[at + |a| + |b|..at + |a| + |b| + |data|] == data
            && bytes[at + |chunk|..] == rest && bytes == (before + chunk) + rest
  {
    var chunk := a + b + data + pad;
    Regroup(a, b, data, pad, rest);
    FieldsStand(before, a, b, data + (pad + rest));
    FieldsStand(before + (a + b), data, pad, rest);
    Rebracket(before, chunk, rest);
    RestStands(before + chunk, rest);
  }

  lemma RestStands(before: Bytes, rest: Bytes)
    ensures (before + rest)[|before|..] == rest
  {
  }

  lemma WrittenRiffChunk(before: Bytes, c: RiffChunk, rest: Bytes)
    requires ValidRiffChunk(c)
    ensures var (bytes, at) := (before + (WriteRiffChunk(c) + rest), |before|);
            && |WriteRiffChunk(c)| == 8 + |c.data| + |c.data| % 2 && |bytes| == at + |WriteRiffChunk(c)| + |rest|
            && bytes[at..at + 4] == c.fourCc && Le32(bytes, at + 4) == |c.data|
            && bytes[at + 8..at + 8 + |c.data|] == c.data
            && (c.data == [] && rest != [] ==> bytes[at + 8] == rest[0])
            && bytes == (before + WriteRiffChunk(c)) + rest
  {
    hide Le32, EncodeLe32;
    var pad: Bytes := if |c.data| % 2 == 1 then [0] else [];
    PartsStand(before, c.fourCc, EncodeLe32(|c.data|), c.data, pad, rest);
    assert c.data == [] && rest != [] ==> (before + (WriteRiffChunk(c) + rest))[|before| + 8..][0] == rest[0];
    ReadsLe32(before + (WriteRiffChunk(c) + rest), |before| + 4, |c.data|);
  }

  lemma FirstDataByte(bytes: Bytes, at: nat, data: Bytes)
    requires at + |data| <= |bytes| && data != [] && bytes[at..at + |data|] == data
    ensures bytes[at] == data[0]
  {
    assert bytes[at] == bytes[at..at + |data|][0];
  }

  lemma FirstByteWritten(chunks: seq<RiffChunk>)
    requires chunks != [] && ValidRiff(chunks)
    ensures |WriteRiff(chunks)| >= 8 && WriteRiff(chunks)[0] == chunks[0].fourCc[0]
  {
    hide EncodeLe32;
  }

  lemma RestStarts(chunks: seq<RiffChunk>)
    requires chunks != [] && ValidRiff(chunks)
    ensures |chunks| == 1 ==> WriteRiff(chunks[1..]) == []
    ensures |chunks| > 1 ==> |WriteRiff(chunks[1..])| >= 8 && WriteRiff(chunks[1..])[0] == chunks[1].fourCc[0]
  {
    hide WriteRiffChunk;
    if |chunks| > 1 {
      FirstByteWritten(chunks[1..]);
    }
  }

  /** What the walker does at the start of a chunk. */
  lemma AtChunk(bytes: Bytes, at: nat, fourCc: Bytes, data: Bytes)
    requires at + 8 + |data| <= |bytes| && bytes[at..at + 4] == fourCc && Le32(bytes, at + 4) == |data|
    ensures AnimatedFrom(bytes, at) <==>
            || fourCc == ANIM || fourCc == ANMF
            || (fourCc == VP8X && at + 9 < |bytes| && AnimationBit(bytes[at + 8]))
            || AnimatedFrom(bytes, at + 8 + |data| + |data| % 2)
  {
    hide Le32, AnimationBit;
  }

  /** The byte after a header's length, in a file that holds the header's data, its padding and what follows. */
  lemma HeaderByte(bytes: Bytes, at: nat, data: Bytes, rest: Bytes)
    requires |bytes| == at + 8 + |data| + |data| % 2 + |rest| && bytes[at + 8..at + 8 + |data|] == data
    requires data == [] && rest != [] ==> bytes[at + 8] == rest[0]
    requires rest == [] || |rest| >= 8
    ensures at + 9 < |bytes| <==> data != [] || rest != []
    ensures data != [] ==> bytes[at + 8] == data[0]
  {
    if data != [] {
      FirstDataByte(bytes, at + 8, data);
    }
  }

  lemma WrittenHeaderByte(before: Bytes, c: RiffChunk, rest: Bytes)
    requires ValidRiffChunk(c) && (rest == [] || |rest| >= 8)
    ensures var (bytes, at) := (before + (WriteRiffChunk(c) + rest), |before|);
            && (at + 9 < |bytes| <==> c.data != [] || rest != [])
            && (c.data != [] ==> bytes[at + 8] == c.data[0])
            && (c.data == [] && rest != [] ==> bytes[at + 8] == rest[0])
  {
    hide WriteRiffChunk, Le32;
    WrittenRiffChunk(before, c, rest);
    HeaderByte(before + (WriteRiffChunk(c) + rest), |before|, c.data, rest);
  }

  lemma FlaggedByCases(chunks: seq<RiffChunk>)
    requires chunks != [] && ValidRiff(chunks) && chunks[0].fourCc == VP8X
    ensures chunks[0].data != [] ==> (Flagged(chunks, 0) <==> AnimationBit(chunks[0].data[0]))
    ensures chunks[0].data == [] && |chunks| > 1 ==> (Flagged(chunks, 0) <==> AnimationBit(chunks[1].fourCc[0]))
    ensures chunks[0].data == [] && |chunks| == 1 ==> !Flagged(chunks, 0)
  {
    hide AnimationBit;
  }

  lemma HeaderFlagByte(before: Bytes, chunks: seq<RiffChunk>)
    requires chunks != [] && ValidRiff(chunks) && chunks[0].fourCc == VP8X
    ensures var (bytes, at) := (before + WriteRiff(chunks), |before|);
            at + 9 < |bytes| && AnimationBit(bytes[at + 8]) <==> Flagged(chunks, 0)
  {
    var rest := WriteRiff(chunks[1..]);
    assert WriteRiff(chunks) == WriteRiffChunk(chunks[0]) + rest;
    hide WriteRiffChunk, WriteRiff, Le32, AnimationBit, Flagged, ValidRiffChunk;
    assert ValidRiffChunk(chunks[0]);
    RestStarts(chunks);
    WrittenHeaderByte(before, chunks[0], rest);
    FlaggedByCases(chunks);
  }

  lemma FlagByte(before: Bytes, chunks: seq<RiffChunk>)
    requires chunks != [] && ValidRiff(chunks)
    ensures var (bytes, at) := (before + WriteRiff(chunks), |before|);
            chunks[0].fourCc == VP8X ==> (at + 9 < |bytes| && AnimationBit(bytes[at + 8]) <==> Flagged(chunks, 0))
  {
    hide WriteRiff, AnimationBit, Flagged;
    if chunks[0].fourCc == VP8X {
      HeaderFlagByte(before, chunks);
    }
  }

  lemma FirstChunkOrTheRest(bytes: Bytes, at: nat, chunks: seq<RiffChunk>)
    requires chunks != [] && ValidRiff(chunks) && at + 8 + |chunks[0].data| <= |bytes|
    requires bytes[at..at + 4] == chunks[0].fourCc && Le32(bytes, at + 4) == |chunks[0].data|
    requires chunks[0].fourCc == VP8X ==> (at + 9 < |bytes| && AnimationBit(bytes[at + 8]) <==> Flagged(chunks, 0))
    ensures AnimatedFrom(bytes, at)
            <==> Animates(chunks, 0) || AnimatedFrom(bytes, at + 8 + |chunks[0].data| + |chunks[0].data| % 2)
  {
    hide Le32, AnimationBit, AnimatedFrom, Flagged;
    AtChunk(bytes, at, chunks[0].fourCc, chunks[0].data);
    if chunks[0].fourCc != VP8X {
      NoHeaderNoFlag(chunks);
    }
  }

  /** On any list of chunks the walker reports an animation exactly when a chunk is a frame, or animates as flagged. */
  lemma {:induction false} ReportsExactlyAnimations(before: Bytes, chunks: seq<RiffChunk>)
    requires ValidRiff(chunks)
    ensures AnimatedFrom(before + WriteRiff(chunks), |before|) <==> SomeChunkAnimates(chunks)
    decreases |chunks|
  {
    hide AnimatedFrom, SomeChunkAnimates, Animates, Le32, AnimationBit, Flagged, ValidRiffChunk, WriteRiffChunk;
    if chunks == [] {
      NothingAnimates(before);
    } else {
      var bytes := before + WriteRiff(chunks);
      assert WriteRiff(chunks) == WriteRiffChunk(chunks[0]) + WriteRiff(chunks[1..]);
      hide WriteRiff;
      WrittenRiffChunk(before, chunks[0], WriteRiff(chunks[1..]));
      var past := before + WriteRiffChunk(chunks[0]);
      assert bytes == past + WriteRiff(chunks[1..]);
      assert |past| == |before| + 8 + |chunks[0].data| + |chunks[0].data| % 2;
      FlagByte(before, chunks);
      FirstChunkOrTheRest(bytes, |before|, chunks);
      SomeAnimatesSplits(chunks);
      ReportsExactlyAnimations(past, chunks[1..]);
    }
  }

  lemma NothingAnimates(before: Bytes)
    ensures !AnimatedFrom(before + WriteRiff([]), |before|) && !SomeChunkAnimates([])
  {
    assert before + WriteRiff([]) == before;
  }

  lemma NoHeaderNoFlag(chunks: seq<RiffChunk>)
    requires chunks != [] && ValidRiff(chunks) && chunks[0].fourCc != VP8X
    ensures !Flagged(chunks, 0)
  {
  }

  /** Where every VP8X chunk has its ten bytes, that is what the format says: a frame chunk or a flagged header. */
  lemma WholeHeadersAnimate(before: Bytes, chunks: seq<RiffChunk>)
    requires ValidRiff(chunks) && forall c :: c in chunks && c.fourCc == VP8X ==> |c.data| >= 10
    ensures AnimatedFrom(before + WriteRiff(chunks), |before|) <==>
            exists c :: c in chunks && (c.fourCc == ANIM || c.fourCc == ANMF || (c.fourCc == VP8X && AnimationBit(c.data[0])))
  {
    ReportsExactlyAnimations(before, chunks);
    if SomeChunkAnimates(chunks) {
      var i :| 0 <= i < |chunks| && Animates(chunks, i);
      assert chunks[i] in chunks;
    }
    if c :| c in chunks && (c.fourCc == ANIM || c.fourCc == ANMF || (c.fourCc == VP8X && AnimationBit(c.data[0]))) {
      var i :| 0 <= i < |chunks| && chunks[i] == c;
      assert Animates(chunks, i);
    }
  }

  /** An empty VP8X chunk before a still image is read as an animation: 'V' has the bit. */
  lemma EmptyHeaderMisread(before: Bytes, data: Bytes)
    requires |data| < 0x1_0000_0000
    ensures AnimatedFrom(before + WriteRiff([RiffChunk(VP8X, []), RiffChunk(VP8L, data)]), |before|)
  {
    hide AnimatedFrom, WriteRiff;
    var chunks := [RiffChunk(VP8X, []), RiffChunk(VP8L, data)];
    assert chunks[0].fourCc == VP8X && chunks[1].fourCc[0] == 0x56;
    assert Animates(chunks, 0);
    ReportsExactlyAnimations(before, chunks);
  }

  /** A VP8X chunk shorter than the format's ten bytes that the walker takes to be flagged all the same. */
  predicate ShortHeaderFlagged(chunks: seq<RiffChunk>, i: nat)
    requires i < |chunks| && ValidRiff(chunks)
  {
    |chunks[i].data| < HEADER_BYTES && Flagged(chunks, i)
  }

  /** What the format calls an animation: a frame chunk, or a whole header that is flagged. */
  predicate FormatAnimates(chunks: seq<RiffChunk>, i: nat)
    requires i < |chunks| && ValidRiff(chunks)
  {
    chunks[i].fourCc == ANIM || chunks[i].fourCc == ANMF
    || (chunks[i].fourCc == VP8X && |chunks[i].data| >= HEADER_BYTES && AnimationBit(chunks[i].data[0]))
  }

  /** No animation is overlooked, and a still image is taken for one exactly when a short header is taken to be
      flagged. */
  lemma MisreadExactly(before: Bytes, chunks: seq<RiffChunk>)
    requires ValidRiff(chunks)
    ensures AnimatedFrom(before + WriteRiff(chunks), |before|)
            <==> (exists i :: 0 <= i < |chunks| && FormatAnimates(chunks, i))
                 || exists i :: 0 <= i < |chunks| && ShortHeaderFlagged(chunks, i)
  {
    hide AnimatedFrom, WriteRiff;
    ReportsExactlyAnimations(before, chunks);
    assert forall i :: 0 <= i < |chunks| ==> (Animates(chunks, i) <==> FormatAnimates(chunks, i) || ShortHeaderFlagged(chunks, i));
  }

  /** A flagged header of one to nine bytes before a still image is read as an animation. */
  lemma ShortHeaderMisread(before: Bytes, header: Bytes, data: Bytes)
    requires 1 <= |header| < HEADER_BYTES && AnimationBit(header[0]) && |data| < 0x1_0000_0000
    ensures AnimatedFrom(before + WriteRiff([RiffChunk(VP8X, header), RiffChunk(VP8L, data)]), |before|)
    ensures var chunks := [RiffChunk(VP8X, header), RiffChunk(VP8L, data)];
            forall i :: 0 <= i < |chunks| ==> !FormatAnimates(chunks, i)
  {
    hide AnimatedFrom, WriteRiff;
    var chunks := [RiffChunk(VP8X, header), RiffChunk(VP8L, data)];
    assert chunks[0].fourCc == VP8X && chunks[0].data == header;
    assert ShortHeaderFlagged(chunks, 0);
    MisreadExactly(before, chunks);
  }

  /** The sides that a chunk states, if it is one of the three that do. */
  function StatedSize(fourCc: Bytes, data: Bytes): Option<(nat, nat)> {
    if fourCc == VP8X && |data| >= 10 then
      Some((Le24(data, 4) + 1, Le24(data, 7) + 1))
    else if fourCc == VP8 && |data| >= 10 && data[3] == 0x9D && data[4] == 0x01 && data[5] == 0x2A then
      Some((Le16(data, 6) % 0x4000, Le16(data, 8) % 0x4000))
    else if fourCc == VP8L && |data| >= 5 && data[0] == 0x2F then
      Some((1 + At(data, 2) % 0x40 * 0x100 + At(data, 1),
            1 + At(data, 4) % 0x10 * 0x400 + At(data, 3) * 4 + At(data, 2) / 0x40))
    else None
  }

  /** A VP8X chunk states its canvas in two fields of 24 bits, each one less (section 2.7 of RFC 9649). */
  lemma CanvasRoundTrip(data: Bytes, width: nat, height: nat)
    requires |data| >= 10 && 1 <= width <= 0x100_0000 && 1 <= height <= 0x100_0000
    requires data[4..7] + [0] == EncodeLe32(width - 1) && data[7..10] + [0] == EncodeLe32(height - 1)
    ensures StatedSize(VP8X, data) == Some((width, height))
  {
    hide Le32, Le24, EncodeLe32;
    ReadsLe32(data[4..7] + [0], 0, width - 1);
    ReadsLe32(data[7..10] + [0], 0, height - 1);
    Reads24(data, 4);
    Reads24(data, 7);
  }

  lemma Reads24(bytes: Bytes, at: nat)
    requires at + 3 <= |bytes|
    ensures Le24(bytes, at) == Le32(bytes[at..at + 3] + [0], 0)
  {
    var word := bytes[at..at + 3] + [0];
    assert bytes[at] == word[0] && bytes[at + 1] == word[1] && bytes[at + 2] == word[2];
  }

  /** A lossless chunk states its sides after the signature 0x2F: 14 bits each, low bits first, each one less. */
  lemma LosslessRoundTrip(data: Bytes, width: nat, height: nat, high: nat)
    requires |data| >= 5 && data[0] == 0x2F && 1 <= width <= 0x4000 && 1 <= height <= 0x4000 && high < 0x10
    requires data[1..5] == EncodeLe32(width - 1 + (height - 1) * 0x4000 + high * 0x1000_0000)
    ensures StatedSize(VP8L, data) == Some((width, height))
  {
    var n := width - 1 + (height - 1) * 0x4000 + high * 0x1000_0000;
    ReadsLe32(data, 1, n);
    var b, d := At(data, 2), At(data, 4);
    LosslessFields(At(data, 1), b % 0x40, b / 0x40, At(data, 3), d % 0x10, d / 0x10, width - 1, height - 1, high);
  }

  lemma LosslessFields(a: nat, b0: nat, b1: nat, c: nat, d0: nat, d1: nat, width: nat, height: nat, high: nat)
    requires a < 0x100 && b0 < 0x40 && b1 < 4 && c < 0x100 && d0 < 0x10
    requires width < 0x4000 && height < 0x4000
    requires a + (b1 * 0x40 + b0) * 0x100 + c * 0x1_0000 + (d1 * 0x10 + d0) * 0x100_0000
             == width + height * 0x4000 + high * 0x1000_0000
    ensures width == b0 * 0x100 + a && height == d0 * 0x400 + c * 4 + b1
  {
    var low, up := b0 * 0x100 + a, d0 * 0x400 + c * 4 + b1;
    assert low + up * 0x4000 + d1 * 0x1000_0000 == width + height * 0x4000 + high * 0x1000_0000;
    assert low == width;
  }

  /** A lossy chunk states its sides after the start code 9D 01 2A: two words whose upper two bits are a scale. */
  lemma LossyRoundTrip(data: Bytes, width: nat, height: nat, xScale: nat, yScale: nat)
    requires |data| >= 10 && data[3..6] == [0x9D, 0x01, 0x2A]
    requires width < 0x4000 && height < 0x4000 && xScale < 4 && yScale < 4
    requires data[6..10] == EncodeLe32(width + xScale * 0x4000 + (height + yScale * 0x4000) * 0x1_0000)
    ensures StatedSize(VP8, data) == Some((width, height))
  {
    var code := data[3..6];
    assert data[3] == code[0] && data[4] == code[1] && data[5] == code[2];
    var n := width + xScale * 0x4000 + (height + yScale * 0x4000) * 0x1_0000;
    ReadsLe32(data, 6, n);
    WordsOf(Le16(data, 6), Le16(data, 8), width, height, xScale, yScale);
  }

  lemma WordsOf(low: nat, high: nat, width: nat, height: nat, xScale: nat, yScale: nat)
    requires low < 0x1_0000 && high < 0x1_0000
    requires width < 0x4000 && height < 0x4000 && xScale < 4 && yScale < 4
    requires low + high * 0x1_0000 == width + xScale * 0x4000 + (height + yScale * 0x4000) * 0x1_0000
    ensures low % 0x4000 == width && high % 0x4000 == height
  {
    assert low == width + xScale * 0x4000 && high == height + yScale * 0x4000;
  }

  /** No other chunk states a size, nor one too short for its fields or without its signature. */
  lemma StatesNoSize(fourCc: Bytes, data: Bytes)
    requires fourCc == VP8X || fourCc == VP8 ==> |data| < 10
    requires fourCc == VP8L ==> |data| < 5 || data[0] != 0x2F
    ensures StatedSize(fourCc, data).None?
  {
  }

  lemma StatesNoSizeWithoutCode(data: Bytes)
    requires |data| >= 6 && data[3..6] != [0x9D, 0x01, 0x2A]
    ensures StatedSize(VP8, data).None?
  {
    assert data[3..6] == [data[3], data[4], data[5]];
  }

  /** A file that ends within a chunk states nothing in that chunk. */
  lemma TruncatedWebpIsRefused(before: Bytes, c: RiffChunk, n: nat)
    requires ValidRiffChunk(c) && n < 8 + |c.data|
    ensures WebpFrom(before + WriteRiffChunk(c)[..n], |before|).None?
  {
    hide Le32, EncodeLe32, StatedSize, WriteRiffChunk;
    WrittenRiffChunk(before, c, []);
    assert WriteRiffChunk(c) + [] == WriteRiffChunk(c);
    var (bytes, full) := (before + WriteRiffChunk(c)[..n], before + WriteRiffChunk(c));
    assert bytes <= full;
    if n >= 8 {
      PrefixReads(bytes, full, |before| + 4);
    }
  }

  lemma PrefixReads(bytes: Bytes, full: Bytes, at: nat)
    requires bytes <= full && at + 4 <= |bytes|
    ensures Le32(bytes, at) == Le32(full, at)
  {
  }

  function WebpFrom(bytes: Bytes, offset: nat): (r: Option<Media>)
    ensures r.Some? ==> r.value.mime == Webp && ValidSide(r.value.width) && ValidSide(r.value.height)
    decreases |bytes| - offset
  {
    if offset + 8 > |bytes| then None
    else
      var length := Le32(bytes, offset + 4);
      if offset + 8 + length > |bytes| then None
      else
        var size := StatedSize(bytes[offset..offset + 4], bytes[offset + 8..offset + 8 + length]);
        if size.Some? then Sized(Webp, size.value.0, size.value.1)
        else WebpFrom(bytes, offset + 8 + length + length % 2)
  }

  method WebpDimensions(bytes: Bytes) returns (r: Option<Media>)
    ensures r == WebpFrom(bytes, 12)
  {
    hide StatedSize, Le32;
    var offset := 12;
    while offset + 8 <= |bytes|
      invariant 12 <= offset
      invariant WebpFrom(bytes, offset) == WebpFrom(bytes, 12)
      decreases |bytes| - offset
    {
      var fourCc := bytes[offset..offset + 4];
      var length := Le32(bytes, offset + 4);
      var at := offset + 8;
      if at + length > |bytes| {
        return None;
      }
      var size := StatedSize(fourCc, bytes[at..at + length]);
      if size.Some? {
        return Sized(Webp, size.value.0, size.value.1);
      }
      offset := offset + 8 + length + length % 2;
    }
    return None;
  }

  /** The first chunk that states a size gives the dimensions. */
  lemma {:induction false} FirstStatedSizeGivesDimensions(before: Bytes, chunks: seq<RiffChunk>, k: nat)
    requires ValidRiff(chunks) && k < |chunks| && StatedSize(chunks[k].fourCc, chunks[k].data).Some?
    requires forall i :: 0 <= i < k ==> StatedSize(chunks[i].fourCc, chunks[i].data).None?
    ensures var size := StatedSize(chunks[k].fourCc, chunks[k].data).value;
            WebpFrom(before + WriteRiff(chunks), |before|) == Sized(Webp, size.0, size.1)
    decreases k
  {
    hide WriteRiffChunk, Le32, StatedSize;
    var rest := chunks[1..];
    WrittenRiffChunk(before, chunks[0], WriteRiff(rest));
    assert forall i :: 0 <= i < |rest| ==> rest[i] == chunks[i + 1];
    if k > 0 {
      FirstStatedSizeGivesDimensions(before + WriteRiffChunk(chunks[0]), rest, k - 1);
    }
  }

  // ---------------------------------------------------------------------------
  // JPEG
  // ---------------------------------------------------------------------------

  /** The markers of table B.1 of ITU-T T.81 that start a frame: a run of sixteen without DHT, JPG and DAC. */
  predicate IsFrameMarker(marker: Byte): (frame: bool)
    ensures frame <==> marker / 0x10 == 0xC && marker != 0xC4 && marker != 0xC8 && marker != 0xCC
  {
    0xC0 <= marker <= 0xC3 || 0xC5 <= marker <= 0xC7 || 0xC9 <= marker <= 0xCB || 0xCD <= marker <= 0xCF
  }

  /** Markers that carry no segment. */
  predicate IsBareMarker(marker: Byte): (bare: bool)
    ensures bare <==> 0xD0 <= marker <= 0xD9
  {
    marker == 0xD8 || marker == 0xD9 || 0xD0 <= marker <= 0xD7
  }

  function JpegFrom(bytes: Bytes, offset: nat): (r: Option<Media>)
    ensures r.Some? ==> r.value.mime == Jpeg && ValidSide(r.value.width) && ValidSide(r.value.height)
    decreases |bytes| - offset
  {
    if offset + 9 >= |bytes| || bytes[offset] != 0xFF then None
    else
      var (marker, at) := (bytes[offset + 1], offset + 2);
      if IsBareMarker(marker) then JpegFrom(bytes, at)
      else
        var length := Be16(bytes, at);
        if length < 2 || at + length > |bytes| then None
        else if IsFrameMarker(marker) then Sized(Jpeg, Be16(bytes, at + 5), Be16(bytes, at + 3))
        else JpegFrom(bytes, at + length)
  }

  method JpegDimensions(bytes: Bytes) returns (r: Option<Media>)
    ensures r == JpegFrom(bytes, 2)
  {
    var offset := 2;
    while offset + 9 < |bytes|
      invariant 2 <= offset
      invariant JpegFrom(bytes, offset) == JpegFrom(bytes, 2)
      decreases |bytes| - offset
    {
      if bytes[offset] != 0xFF {
        return None;
      }
      var marker := bytes[offset + 1];
      offset := offset + 2;
      if marker == 0xD8 || marker == 0xD9 {
        continue;
      }
      if 0xD0 <= marker <= 0xD7 {
        continue;
      }
      var length := Be16(bytes, offset);
      if length < 2 || offset + length > |bytes| {
        return None;
      }
      if IsFrameMarker(marker) {
        return Sized(Jpeg, Be16(bytes, offset + 5), Be16(bytes, offset + 3));
      }
      offset := offset + length;
    }
    return None;
  }

  datatype Segment = Segment(marker: Byte, payload: Bytes)

  predicate ValidSegment(g: Segment) {
    !IsBareMarker(g.marker) && |g.payload| + 2 < 0x1_0000
  }

  function EncodeBe16(n: nat): (r: Bytes)
    requires n < 0x1_0000
    ensures |r| == 2
  {
    [n / 0x100, n % 0x100]
  }

  function WriteSegment(g: Segment): Bytes
    requires ValidSegment(g)
  {
    [0xFF, g.marker] + EncodeBe16(|g.payload| + 2) + g.payload
  }

  function WriteSegments(segments: seq<Segment>): Bytes
    requires forall i :: 0 <= i < |segments| ==> ValidSegment(segments[i])
  {
    if segments == [] then [] else WriteSegment(segments[0]) + WriteSegments(segments[1..])
  }

  lemma WrittenSegment(before: Bytes, g: Segment, rest: Bytes)
    requires ValidSegment(g)
    ensures var (bytes, at) := (before + (WriteSegment(g) + rest), |before|);
            && |WriteSegment(g)| == 4 + |g.payload| && |bytes| == at + 4 + |g.payload| + |rest|
            && bytes[at] == 0xFF && bytes[at + 1] == g.marker && Be16(bytes, at + 2) == |g.payload| + 2
            && bytes[at + 4..at + 4 + |g.payload|] == g.payload
            && bytes == (before + WriteSegment(g)) + rest
  {
    var length := EncodeBe16(|g.payload| + 2);
    FieldsStand(before, [0xFF, g.marker] + length, g.payload, rest);
    assert WriteSegment(g) + rest == ([0xFF, g.marker] + length) + (g.payload + rest);
    var (bytes, at) := (before + (WriteSegment(g) + rest), |before|);
    var head := bytes[at..at + 4];
    assert head == [0xFF, g.marker] + length;
    assert bytes[at] == head[0] && bytes[at + 1] == head[1] && bytes[at + 2] == head[2] && bytes[at + 3] == head[3];
    assert At(bytes, at + 2) == length[0] && At(bytes, at + 3) == length[1];
  }

  /** After any segments that are no frame header, the first frame header gives the dimensions. */
  lemma {:induction false} FirstFrameGivesDimensions(before: Bytes, segments: seq<Segment>, frame: Segment, rest: Bytes)
    requires forall i :: 0 <= i < |segments| ==> ValidSegment(segments[i]) && !IsFrameMarker(segments[i].marker)
    requires ValidSegment(frame) && IsFrameMarker(frame.marker) && |frame.payload| >= 6
    ensures JpegFrom(before + (WriteSegments(segments) + (WriteSegment(frame) + rest)), |before|)
            == Sized(Jpeg, Be16(frame.payload, 3), Be16(frame.payload, 1))
    decreases |segments|
  {
    hide WriteSegment, JpegFrom;
    if segments == [] {
      assert WriteSegments(segments) + (WriteSegment(frame) + rest) == WriteSegment(frame) + rest;
      FrameGivesDimensions(before, frame, rest);
    } else {
      var tail := WriteSegments(segments[1..]) + (WriteSegment(frame) + rest);
      WrittenSegment([], frame, rest);
      assert WriteSegments(segments) + (WriteSegment(frame) + rest) == WriteSegment(segments[0]) + tail;
      FirstFrameGivesDimensions(before + WriteSegment(segments[0]), segments[1..], frame, rest);
      SkipsSegment(before, segments[0], tail);
    }
  }

  lemma FrameGivesDimensions(before: Bytes, frame: Segment, rest: Bytes)
    requires ValidSegment(frame) && IsFrameMarker(frame.marker) && |frame.payload| >= 6
    ensures JpegFrom(before + (WriteSegment(frame) + rest), |before|)
            == Sized(Jpeg, Be16(frame.payload, 3), Be16(frame.payload, 1))
  {
    hide WriteSegment, JpegFrom, Be16, Sized;
    WrittenSegment(before, frame, rest);
    FrameHeader(before + (WriteSegment(frame) + rest), |before|, frame);
  }

  lemma FrameHeader(bytes: Bytes, at: nat, frame: Segment)
    requires ValidSegment(frame) && IsFrameMarker(frame.marker) && |frame.payload| >= 6
    requires at + 4 + |frame.payload| <= |bytes| && bytes[at] == 0xFF && bytes[at + 1] == frame.marker
    requires Be16(bytes, at + 2) == |frame.payload| + 2 && bytes[at + 4..at + 4 + |frame.payload|] == frame.payload
    ensures JpegFrom(bytes, at) == Sized(Jpeg, Be16(frame.payload, 3), Be16(frame.payload, 1))
  {
    var payload := bytes[at + 4..at + 4 + |frame.payload|];
    assert At(bytes, at + 5) == At(payload, 1) && At(bytes, at + 6) == At(payload, 2);
    assert At(bytes, at + 7) == At(payload, 3) && At(bytes, at + 8) == At(payload, 4);
  }

  lemma SkipsSegment(before: Bytes, g: Segment, rest: Bytes)
    requires ValidSegment(g) && !IsFrameMarker(g.marker) && |rest| >= 10
    ensures JpegFrom(before + (WriteSegment(g) + rest), |before|)
            == JpegFrom((before + WriteSegment(g)) + rest, |before + WriteSegment(g)|)
  {
    hide WriteSegment, JpegFrom, Be16, IsFrameMarker, IsBareMarker;
    WrittenSegment(before, g, rest);
    Rebracket(before, WriteSegment(g), rest);
    PassesSegment(before + (WriteSegment(g) + rest), |before|, g);
  }

  lemma Rebracket(before: Bytes, middle: Bytes, rest: Bytes)
    ensures before + (middle + rest) == (before + middle) + rest
    ensures |before + middle| == |before| + |middle| && |before + (middle + rest)| == |before| + |middle| + |rest|
  {
  }

  lemma PassesSegment(bytes: Bytes, at: nat, g: Segment)
    requires ValidSegment(g) && !IsFrameMarker(g.marker) && at + 14 + |g.payload| <= |bytes|
    requires bytes[at] == 0xFF && bytes[at + 1] == g.marker && Be16(bytes, at + 2) == |g.payload| + 2
    ensures JpegFrom(bytes, at) == JpegFrom(bytes, at + 4 + |g.payload|)
  {
    hide Be16, Sized;
  }

  // ---------------------------------------------------------------------------
  // Images that are safe to show
  // ---------------------------------------------------------------------------

  predicate IsJpeg(bytes: Bytes) {
    |bytes| >= 3 && bytes[0] == 0xFF && bytes[1] == 0xD8 && bytes[2] == 0xFF
  }

  predicate IsPng(bytes: Bytes) {
    PNG_SIGNATURE <= bytes
  }

  predicate IsWebp(bytes: Bytes) {
    |bytes| >= 12 && bytes[0..4] == RIFF && bytes[8..12] == WEBP
  }

  /** What is read of an image that is safe to show. */
  function SafeMedia(bytes: Bytes): Option<Media> {
    if IsJpeg(bytes) then JpegFrom(bytes, 2)
    else if IsPng(bytes) then if HasChunkFrom(bytes, 8, ACTL) then None else PngDimensions(bytes)
    else if IsWebp(bytes) then if AnimatedFrom(bytes, 12) then None else WebpFrom(bytes, 12)
    else None
  }

  /** Only still images of a known container pass, with sides between one and 4096. */
  method DetectSafeImageMetadata(bytes: Bytes) returns (r: Option<Media>)
    ensures r == SafeMedia(bytes)
    ensures r.Some? ==> 1 <= r.value.width <= 4096 && 1 <= r.value.height <= 4096
    ensures r.Some? ==> match r.value.mime
                        case Jpeg => bytes[..2] == [0xFF, 0xD8]
                        case Png => PNG_SIGNATURE <= bytes && !HasChunkFrom(bytes, 8, ACTL)
                        case Webp => bytes[0..4] == RIFF && bytes[8..12] == WEBP && !AnimatedFrom(bytes, 12)
  {
    if IsJpeg(bytes) {
      r := JpegDimensions(bytes);
      return;
    }
    if IsPng(bytes) {
      var animated := PngHasChunk(bytes, ACTL);
      if animated {
        return None;
      }
      return PngDimensions(bytes);
    }
    if IsWebp(bytes) {
      var animated := WebpIsAnimated(bytes);
      if animated {
        return None;
      }
      r := WebpDimensions(bytes);
      return;
    }
    return None;
  }

  /** A PNG file whose header comes first passes exactly when no chunk animates it and its sides are in range. */
  lemma PngPassesExactly(chunks: seq<PngChunk>, width: nat, height: nat)
    requires forall c :: c in chunks ==> ValidPngChunk(c)
    requires chunks != [] && chunks[0].chunkType == IHDR && |chunks[0].data| == 13
    requires width < 0x1_0000_0000 && height < 0x1_0000_0000
    requires chunks[0].data[..8] == EncodeBe32(width) + EncodeBe32(height)
    ensures SafeMedia(PNG_SIGNATURE + WritePng(chunks))
            == if exists c :: c in chunks && c.chunkType == ACTL then None else Sized(Png, width, height)
  {
    hide HasChunkFrom, PngDimensions, WritePng, Sized;
    PngHasExactlyItsChunks(chunks, ACTL);
    HeaderGivesDimensions(chunks, width, height);
    assert (PNG_SIGNATURE + WritePng(chunks))[0] == 0x89;
  }

  function WebpFile(chunks: seq<RiffChunk>, size: Bytes): Bytes
    requires ValidRiff(chunks)
  {
    RIFF + size + WEBP + WriteRiff(chunks)
  }

  /** A WebP file passes exactly when no chunk animates it and the first chunk that states a size states one in range. */
  lemma WebpPassesExactly(chunks: seq<RiffChunk>, size: Bytes, k: nat)
    requires ValidRiff(chunks) && |size| == 4 && k < |chunks| && StatedSize(chunks[k].fourCc, chunks[k].data).Some?
    requires forall i :: 0 <= i < k ==> StatedSize(chunks[i].fourCc, chunks[i].data).None?
    ensures var sides := StatedSize(chunks[k].fourCc, chunks[k].data).value;
            SafeMedia(WebpFile(chunks, size))
            == if SomeChunkAnimates(chunks) then None else Sized(Webp, sides.0, sides.1)
  {
    hide AnimatedFrom, WebpFrom, WriteRiff, SomeChunkAnimates, StatedSize, Sized;
    var before := RIFF + size + WEBP;
    ReportsExactlyAnimations(before, chunks);
    FirstStatedSizeGivesDimensions(before, chunks, k);
    var bytes := WebpFile(chunks, size);
    assert bytes[0..4] == RIFF && bytes[8..12] == WEBP && |before| == 12;
    assert bytes[0] == 0x52;
  }

  /** A JPEG file passes exactly when its first frame header states sides in range. */
  lemma JpegPassesExactly(segments: seq<Segment>, frame: Segment, rest: Bytes)
    requires forall i :: 0 <= i < |segments| ==> ValidSegment(segments[i]) && !IsFrameMarker(segments[i].marker)
    requires ValidSegment(frame) && IsFrameMarker(frame.marker) && |frame.payload| >= 6
    ensures SafeMedia([0xFF, 0xD8] + (WriteSegments(segments) + (WriteSegment(frame) + rest)))
            == Sized(Jpeg, Be16(frame.payload, 3), Be16(frame.payload, 1))
  {
    hide JpegFrom, Sized, Be16, WriteSegment, WriteSegments, HasChunkFrom, AnimatedFrom, WebpFrom, PngDimensions;
    FirstFrameGivesDimensions([0xFF, 0xD8], segments, frame, rest);
    StartsWithMarker(segments, frame, rest);
    var body := WriteSegments(segments) + (WriteSegment(frame) + rest);
    var bytes := [0xFF, 0xD8] + body;
    assert |bytes| >= 3 && bytes[0] == 0xFF && bytes[1] == 0xD8 && bytes[2] == body[0];
  }

  lemma StartsWithMarker(segments: seq<Segment>, frame: Segment, rest: Bytes)
    requires forall i :: 0 <= i < |segments| ==> ValidSegment(segments[i])
    requires ValidSegment(frame)
    ensures var body := WriteSegments(segments) + (WriteSegment(frame) + rest); body != [] && body[0] == 0xFF
  {
  }

  /** A marker without a segment is passed over. */
  lemma PassesBareMarker(bytes: Bytes, at: nat)
    requires at + 9 < |bytes| && bytes[at] == 0xFF && IsBareMarker(bytes[at + 1])
    ensures JpegFrom(bytes, at) == JpegFrom(bytes, at + 2)
  {
  }

  /** Something else than a marker, a segment that is shorter than its length field, or one that is longer than what is
      left, ends the search. */
  lemma BrokenSegmentIsRefused(bytes: Bytes, at: nat)
    requires at + 9 < |bytes|
    requires bytes[at] == 0xFF ==>
               !IsBareMarker(bytes[at + 1]) && (Be16(bytes, at + 2) < 2 || at + 2 + Be16(bytes, at + 2) > |bytes|)
    ensures JpegFrom(bytes, at).None?
  {
  }
}
