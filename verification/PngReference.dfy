/**
 The PNG validator against the standard (ISO/IEC 15948), in the standard's own terms: the bytes
 of an accepted file, the meaning of the colour type's bits (table 11.1), and the length of the
 filtered image, row by row.
 */
module PngReference {
  import opened Prelude
  import opened PngChunks
  import opened PngValidator
  import opened PngScanlines

  // ----- samples and bits

  /** The bits of a colour type: palette used, colour used, alpha used. */
  predicate PaletteUsed(colorType: byte) { colorType % 2 == 1 }
  predicate ColorUsed(colorType: byte) { colorType / 2 % 2 == 1 }
  predicate AlphaUsed(colorType: byte) { colorType / 4 % 2 == 1 }

  /** An index, or one grey or three colour samples, and perhaps one for alpha. */
  function Samples(colorType: byte): nat {
    if PaletteUsed(colorType) then 1
    else (if ColorUsed(colorType) then 3 else 1) + if AlphaUsed(colorType) then 1 else 0
  }

  /** The modes of table 11.1: a palette is a matter of colour and has no alpha; samples have a power
      of two of bits, fewer than 8 only for a single sample, 16 only without a palette. */
  lemma ModesOfTheStandard(colorType: byte, bitDepth: byte)
    ensures LegalMode(colorType, bitDepth) <==>
              && colorType < 8
              && (PaletteUsed(colorType) ==> ColorUsed(colorType) && !AlphaUsed(colorType))
              && bitDepth in {1, 2, 4, 8, 16}
              && (bitDepth < 8 ==> Samples(colorType) == 1)
              && (AlphaUsed(colorType) ==> bitDepth >= 8)
              && (PaletteUsed(colorType) ==> bitDepth <= 8)
  {
  }

  lemma ChannelsAreSamples(colorType: byte, bitDepth: byte)
    requires LegalMode(colorType, bitDepth)
    ensures Channels(colorType) == Samples(colorType)
  {
  }

  /** The least number of bytes that holds so many bits. */
  predicate Holds(bytes: nat, bits: nat) {
    bits <= 8 * bytes < bits + 8
  }

  // ----- passes

  /** The pattern of section 8.2, repeated over the image: the pass that each pixel belongs to. */
  const PATTERN: seq<seq<nat>> := [
    [1, 6, 4, 6, 2, 6, 4, 6],
    [7, 7, 7, 7, 7, 7, 7, 7],
    [5, 6, 5, 6, 5, 6, 5, 6],
    [7, 7, 7, 7, 7, 7, 7, 7],
    [3, 6, 4, 6, 3, 6, 4, 6],
    [7, 7, 7, 7, 7, 7, 7, 7],
    [5, 6, 5, 6, 5, 6, 5, 6],
    [7, 7, 7, 7, 7, 7, 7, 7]]

  lemma PatternRow(x: nat, y: nat)
    requires x < 8 && y < 8
    ensures PATTERN[y][x] == PassOf((x, y)) + 1
  {
    assert x == 0 || x == 1 || x == 2 || x == 3 || x == 4 || x == 5 || x == 6 || x == 7;
    assert y == 0 || y == 1 || y == 2 || y == 3 || y == 4 || y == 5 || y == 6 || y == 7;
  }

  lemma SamePattern(x: nat, y: nat)
    ensures PassOf((x, y)) == PassOf((x % 8, y % 8))
  {
    Residues(x);
    Residues(y);
    Residues(x % 8);
    Residues(y % 8);
  }

  /** An interlaced image has seven passes, which take the pixels of the pattern; any other has one. */
  lemma PassesFollowPattern(x: nat, y: nat, i: nat)
    ensures |Passes(1)| == 7 && |Passes(0)| == 1
    ensures i < 7 ==> Tabled(Passes(1)[i]) && (InPass(Passes(1)[i], (x, y)) <==> PATTERN[y % 8][x % 8] == i + 1)
    ensures InPass(Passes(0)[0], (x, y))
  {
    if i < 7 {
      PassOfIsUnique((x, y), i);
      SamePattern(x, y);
      PatternRow(x % 8, y % 8);
    }
  }

  // ----- the rows of the filtered image

  /** The passes that have pixels, in order. */
  function PassesWithPixels(passes: seq<Pass>, width: nat, height: nat): seq<Pass>
    requires forall p | p in passes :: Tabled(p)
  {
    if passes == [] then []
    else
      var p := passes[|passes| - 1];
      PassesWithPixels(passes[..|passes| - 1], width, height)
      + if |PassPixels(p, width, height)| == 0 then [] else [p]
  }

  /** One pass in the layout: as many rows as it has, each wide enough for its pixels. */
  ghost predicate RowsOf(rows: Rows, p: Pass, width: nat, height: nat, bitsPerPixel: nat)
    requires Tabled(p)
  {
    rows.count == PassHeight(p, height) && Holds(rows.rowBytes, PassWidth(p, width) * bitsPerPixel)
  }

  lemma EmptyPass(p: Pass, width: nat, height: nat)
    requires Tabled(p)
    ensures |PassPixels(p, width, height)| == 0 <==> PassWidth(p, width) == 0 || PassHeight(p, height) == 0
  {
    PassSizeCountsPixels(p, width, height);
    ProductIsZero(PassWidth(p, width), PassHeight(p, height));
  }

  lemma ProductIsZero(a: nat, b: nat)
    ensures a * b == 0 <==> a == 0 || b == 0
  {
  }

  lemma {:induction false} LayoutByPass(passes: seq<Pass>, width: nat, height: nat, bitsPerPixel: nat)
    requires forall p | p in passes :: Tabled(p)
    ensures var layout := Layout(passes, width, height, bitsPerPixel);
            var used := PassesWithPixels(passes, width, height);
            && |layout| == |used|
            && forall i | 0 <= i < |used| :: used[i] in passes && RowsOf(layout[i], used[i], width, height, bitsPerPixel)
  {
    if passes != [] {
      hide PassWidth, PassHeight, PassPixels, Tabled;
      var init, p := passes[..|passes| - 1], passes[|passes| - 1];
      LayoutByPass(init, width, height, bitsPerPixel);
      EmptyPass(p, width, height);
      RowBytesHold(PassWidth(p, width), bitsPerPixel);
    }
  }

  lemma RowBytesHold(width: nat, bitsPerPixel: nat)
    ensures Holds(RowBytes(width, bitsPerPixel), width * bitsPerPixel)
  {
  }

  /** The layout of an image: for each pass with pixels, its rows, each the least number of bytes that
      holds the samples of its pixels. */
  lemma ImageRows(header: Header, width: nat, height: nat)
    requires LegalMode(header.colorType, header.bitDepth)
    ensures forall p | p in Passes(header.interlaceMethod) :: Tabled(p)
    ensures var layout := ImageLayout(header, width, height);
            var used := PassesWithPixels(Passes(header.interlaceMethod), width, height);
            && |layout| == |used|
            && forall i | 0 <= i < |used| ::
                 used[i] in Passes(header.interlaceMethod)
                 && RowsOf(layout[i], used[i], width, height, Samples(header.colorType) * header.bitDepth)
  {
    PassesTabled(header.interlaceMethod);
    ChannelsAreSamples(header.colorType, header.bitDepth);
    LayoutByPass(Passes(header.interlaceMethod), width, height, Samples(header.colorType) * header.bitDepth);
  }

  // ----- its length

  /** The lengths of all rows, in order: a filter byte and the row's bytes. */
  function RowLengths(layout: seq<Rows>): seq<nat> {
    if layout == [] then []
    else
      var rows := layout[|layout| - 1];
      RowLengths(layout[..|layout| - 1]) + seq(rows.count, _ => 1 + rows.rowBytes)
  }

  function Sum(lengths: seq<nat>): nat {
    if lengths == [] then 0 else Sum(lengths[..|lengths| - 1]) + lengths[|lengths| - 1]
  }

  lemma {:induction false} SumOfCopies(lengths: seq<nat>, n: nat, length: nat)
    ensures Sum(lengths + seq(n, _ => length)) == Sum(lengths) + n * length
  {
    var more := lengths + seq(n, _ => length);
    if n > 0 {
      SumOfCopies(lengths, n - 1, length);
      assert more[..|more| - 1] == lengths + seq(n - 1, _ => length);
      assert n * length == (n - 1) * length + length;
    } else {
      assert more == lengths;
    }
  }

  /** One behind the other: each starts where the ones before it end. */
  ghost predicate Tiled(starts: seq<nat>, lengths: seq<nat>) {
    |starts| == |lengths| && forall i | 0 <= i < |starts| :: starts[i] == Sum(lengths[..i])
  }

  /** The rows of one more pass, behind those before it. */
  lemma PassTiles(starts: seq<nat>, before: seq<nat>, rows: Rows)
    requires Tiled(starts, before)
    ensures var lengths := before + seq(rows.count, _ => 1 + rows.rowBytes);
            && Sum(lengths) == Sum(before) + Length(rows)
            && Tiled(starts + StartsFrom(Sum(before), rows.count, rows.rowBytes), lengths)
  {
    hide Sum, Length;
    var length := 1 + rows.rowBytes;
    LengthIs(rows);
    SumOfCopies(before, rows.count, length);
    StartsInRange(Sum(before), rows.count, rows.rowBytes);
    var lengths := before + seq(rows.count, _ => length);
    var more := starts + StartsFrom(Sum(before), rows.count, rows.rowBytes);
    forall i | 0 <= i < |more| ensures more[i] == Sum(lengths[..i]) {
      if i < |starts| {
        assert lengths[..i] == before[..i];
      } else {
        var k := i - |starts|;
        assert lengths[..i] == before + seq(k, _ => length);
        SumOfCopies(before, k, length);
        LengthIs(Rows(k, rows.rowBytes));
      }
    }
  }

  /** The rows of an image lie one behind the other, and it ends with the last one. */
  lemma {:induction false} RowsTile(layout: seq<Rows>)
    ensures TotalLength(layout) == Sum(RowLengths(layout))
    ensures Tiled(RowStarts(layout), RowLengths(layout))
  {
    if layout != [] {
      hide Length, Sum, StartsFrom, Tiled;
      RowsTile(layout[..|layout| - 1]);
      PassTiles(RowStarts(layout[..|layout| - 1]), RowLengths(layout[..|layout| - 1]), layout[|layout| - 1]);
    }
  }

  lemma LengthIs(rows: Rows)
    ensures Length(rows) == rows.count * (1 + rows.rowBytes)
  {
  }

  /** An image that is not interlaced: as many rows as it is high, each a filter byte and the least
      number of bytes that holds its samples. */
  lemma PlainLength(header: Header, width: nat, height: nat) returns (bytes: nat)
    requires LegalMode(header.colorType, header.bitDepth) && header.interlaceMethod != 1
    requires width > 0 && height > 0
    ensures Holds(bytes, width * (Samples(header.colorType) * header.bitDepth))
    ensures TotalLength(ImageLayout(header, width, height)) == height * (1 + bytes)
  {
    ChannelsAreSamples(header.colorType, header.bitDepth);
    hide LegalMode, Samples, Channels, Holds, RowBytes;
    var bitsPerPixel := Samples(header.colorType) * header.bitDepth;
    bytes := RowBytes(width, bitsPerPixel);
    RowBytesHold(width, bitsPerPixel);
    WholeLayout(width, height, bitsPerPixel);
    assert Passes(header.interlaceMethod) == WHOLE;
  }

  lemma WholeLayout(width: nat, height: nat, bitsPerPixel: nat)
    requires width > 0 && height > 0
    ensures forall p | p in WHOLE :: Tabled(p)
    ensures TotalLength(Layout(WHOLE, width, height, bitsPerPixel)) == height * (1 + RowBytes(width, bitsPerPixel))
  {
    hide RowBytes;
    assert PassWidth(WHOLE[0], width) == width && PassHeight(WHOLE[0], height) == height;
    assert WHOLE[..0] == [] && Layout([], width, height, bitsPerPixel) == [];
    var layout := Layout(WHOLE, width, height, bitsPerPixel);
    assert layout == [Rows(height, RowBytes(width, bitsPerPixel))];
    assert layout[..0] == [] && TotalLength([]) == 0;
    LengthIs(layout[0]);
  }

  /** 8-bit images: three bytes a pixel in colour, one in grey, one more with alpha. */
  lemma EightBitLengths(width: nat, height: nat)
    requires width > 0 && height > 0
    ensures TotalLength(ImageLayout(Header(8, 2, 0), width, height)) == height * (1 + 3 * width)
    ensures TotalLength(ImageLayout(Header(8, 6, 0), width, height)) == height * (1 + 4 * width)
    ensures TotalLength(ImageLayout(Header(8, 0, 0), width, height)) == height * (1 + width)
    ensures TotalLength(ImageLayout(Header(8, 4, 0), width, height)) == height * (1 + 2 * width)
    ensures TotalLength(ImageLayout(Header(8, 3, 0), width, height)) == height * (1 + width)
  {
    hide ImageLayout, TotalLength;
    var rgb := PlainLength(Header(8, 2, 0), width, height);
    var rgba := PlainLength(Header(8, 6, 0), width, height);
    var grey := PlainLength(Header(8, 0, 0), width, height);
    var greyAlpha := PlainLength(Header(8, 4, 0), width, height);
    var indexed := PlainLength(Header(8, 3, 0), width, height);
    assert rgb == 3 * width && rgba == 4 * width && grey == width && greyAlpha == 2 * width && indexed == width;
  }

  // ----- chunk names, palettes, and the bytes of a file

  function AsciiByte(c: char): byte
    requires c < 128 as char
  {
    c as int
  }

  function Ascii(text: string): seq<byte>
    requires forall c | c in text :: c < 128 as char
  {
    seq(|text|, i requires 0 <= i < |text| => assert text[i] in text; AsciiByte(text[i]))
  }

  lemma Names()
    ensures IHDR == Ascii("IHDR") && PLTE == Ascii("PLTE") && IDAT == Ascii("IDAT") && IEND == Ascii("IEND")
    ensures SIGNATURE == [0x89] + Ascii("PNG") + [0x0D, 0x0A, 0x1A, 0x0A]
  {
  }

  /** A type is four ASCII letters, and a decoder may skip a chunk whose type starts in lower case. */
  lemma TypesAreLetters(c: Chunk)
    ensures LegalKind(c.kind) <==>
              |c.kind| == 4 && forall i | 0 <= i < 4 ::
                'A' <= c.kind[i] as char <= 'Z' || 'a' <= c.kind[i] as char <= 'z'
    ensures LegalKind(c.kind) ==> (Ancillary(c) <==> 'a' <= c.kind[0] as char <= 'z')
    ensures Legal(c) <==> LegalKind(c.kind) && |c.data| < 2147483648
  {
  }

  /** A palette has 1 to 256 entries of three bytes, no more than an index can name, and is for colour. */
  lemma PalettesOfTheStandard(c: Chunk, header: Header)
    requires LegalMode(header.colorType, header.bitDepth)
    ensures LegalPalette(c, header) <==>
              exists n: nat :: IsEntries(n, c) && 1 <= n <= 256 && ColorUsed(header.colorType)
                  && (PaletteUsed(header.colorType) ==>
                        n <= match header.bitDepth case 1 => 2 case 2 => 4 case 4 => 16 case _ => 256)
  {
    assert Pow2(1) == 2 && Pow2(2) == 4 && Pow2(4) == 16 && Pow2(8) == 16 * Pow2(4);
    if LegalPalette(c, header) {
      assert IsEntries(|c.data| / 3, c);
    }
  }

  predicate IsEntries(n: nat, c: Chunk) {
    |c.data| == 3 * n
  }

  /** The number that four bytes spell, most significant byte first. */
  function Number(b: seq<byte>): nat
    requires |b| == 4
  {
    (b[0] as int) * 16777216 + (b[1] as int) * 65536 + (b[2] as int) * 256 + (b[3] as int)
  }

  lemma SerializedFields(c: Chunk, crc: Checksum)
    requires Legal(c) && |c.data| == 13
    ensures |Serialize(c, crc)| == 25
    ensures Serialize(c, crc)[4..8] == c.kind && Serialize(c, crc)[8..21] == c.data
  {
  }

  lemma Middle(a: seq<byte>, b: seq<byte>, c: seq<byte>)
    ensures (a + (b + c))[..|a|] == a && (a + (b + c))[|a|..|a| + |b|] == b
  {
  }

  /** The first chunk of a file, after the eight bytes of the signature. */
  lemma FirstChunkBytes(decoded: seq<byte>, cs: seq<Chunk>, crc: Checksum, width: int, height: int)
    requires IsImage(decoded, cs, crc, width, height)
    ensures |decoded| >= 33 && decoded[..8] == SIGNATURE
    ensures LegalHeader(cs[0], width, height) && cs[0].kind == decoded[12..16] && cs[0].data == decoded[16..29]
    ensures decoded[8..33] == Serialize(cs[0], crc)
  {
    assert ChunkInPlace(cs, 0, width, height);
    assert cs[0] in cs && Legal(cs[0]);
    hide LegalMode, Serialize, WellFormed, Legal;
    var s, rest := Serialize(cs[0], crc), SerializeAll(cs[1..], crc);
    SerializedFields(cs[0], crc);
    Middle(SIGNATURE, s, rest);
    assert decoded == SIGNATURE + (s + rest);
    assert decoded[12..16] == decoded[8..33][4..8] && decoded[16..29] == decoded[8..33][8..21];
  }

  lemma SerializedHeader(c: Chunk, crc: Checksum)
    requires Legal(c) && |c.data| == 13
    ensures Serialize(c, crc)[..4] == [0, 0, 0, 13] && WordAt(Serialize(c, crc), 21) == crc(c.kind, c.data)
  {
    var s := Serialize(c, crc);
    assert s[..4] == WordBytes(13) && s[21..25] == WordBytes(crc(c.kind, c.data));
    assert WordAt(s, 21) == WordAt(s[21..25], 0);
  }

  /** The first 33 bytes of an accepted file: signature, the length and type of the header, its seven
      fields and checksum; and what the validator takes from them. */
  lemma FileBegins(decoded: seq<byte>, cs: seq<Chunk>, crc: Checksum, width: int, height: int)
    requires IsImage(decoded, cs, crc, width, height)
    ensures |decoded| >= 33
    ensures decoded[..16] == [137, 80, 78, 71, 13, 10, 26, 10, 0, 0, 0, 13, 73, 72, 68, 82]
    ensures Number(decoded[16..20]) == width > 0 && Number(decoded[20..24]) == height > 0
    ensures LegalMode(decoded[25], decoded[24])
    ensures decoded[26] == 0 && decoded[27] == 0 && decoded[28] in {0, 1}
    ensures Contents(cs).0 == Header(decoded[24], decoded[25], decoded[28])
    ensures Number(decoded[29..33]) == crc(decoded[12..16], decoded[16..29])
  {
    FirstChunkBytes(decoded, cs, crc, width, height);
    assert cs[0] in cs && Legal(cs[0]);
    SerializedHeader(cs[0], crc);
    hide IsImage, Serialize, LegalMode, WordAt, Number;
    var data := decoded[16..29];
    assert decoded[8..12] == decoded[8..33][..4];
    assert decoded[..16] == decoded[..8] + decoded[8..12] + decoded[12..16];
    NumberIsWord(data, 0);
    NumberIsWord(data, 4);
    assert decoded[16..20] == data[0..4] && decoded[20..24] == data[4..8];
    NumberIsWord(decoded[8..33], 21);
    assert decoded[29..33] == decoded[8..33][21..25];
    assert forall i | 0 <= i < 13 :: data[i] == decoded[16 + i];
  }

  lemma NumberIsWord(b: seq<byte>, at: nat)
    requires at + 4 <= |b|
    ensures Number(b[at..at + 4]) == WordAt(b, at)
  {
  }
}
