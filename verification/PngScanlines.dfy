/**
 The pixel side of the PNG validator: the passes of an interlaced image (ISO/IEC 15948,
 section 8.2), the length of the filtered image, and the walk over its filter bytes
 (section 9.2). Inflation is a given function.
 */
module PngScanlines {
  import opened Prelude
  import opened PngChunks

  datatype Pass = Pass(startX: nat, startY: nat, stepX: nat, stepY: nat)

  const WHOLE: seq<Pass> := [Pass(0, 0, 1, 1)]

  const ADAM7: seq<Pass> := [
    Pass(0, 0, 8, 8),
    Pass(4, 0, 8, 8),
    Pass(0, 4, 4, 8),
    Pass(2, 0, 4, 4),
    Pass(0, 2, 2, 4),
    Pass(1, 0, 2, 2),
    Pass(0, 1, 1, 2)]

  function Passes(interlaceMethod: int): seq<Pass> {
    if interlaceMethod == 1 then ADAM7 else WHOLE
  }

  predicate Step(n: nat) {
    n == 1 || n == 2 || n == 4 || n == 8
  }

  predicate Tabled(p: Pass) {
    Step(p.stepX) && Step(p.stepY) && p.startX < p.stepX && p.startY < p.stepY
  }

  function Extent(size: int, start: nat, step: nat): nat
    requires Step(step)
  {
    Max(0, CeilDiv(size - start, step))
  }

  /** `(n + step - 1) // step`, written out for the four steps of the table. */
  function CeilDiv(n: int, step: nat): int
    requires Step(step)
  {
    match step
    case 1 => n
    case 2 => (n + 1) / 2
    case 4 => (n + 3) / 4
    case 8 => (n + 7) / 8
  }

  function PassWidth(p: Pass, width: int): nat
    requires Tabled(p)
  {
    Extent(width, p.startX, p.stepX)
  }

  function PassHeight(p: Pass, height: int): nat
    requires Tabled(p)
  {
    Extent(height, p.startY, p.stepY)
  }

  // ----- pixels and passes

  type Pixel = (int, int)

  predicate InPass(p: Pass, pixel: Pixel)
    requires Tabled(p)
  {
    pixel.0 % p.stepX == p.startX && pixel.1 % p.stepY == p.startY
  }

  lemma PassesTabled(interlaceMethod: int)
    ensures forall p | p in Passes(interlaceMethod) :: Tabled(p)
  {
  }

  /** The number of the pass that a pixel of an interlaced image lies in. */
  function PassOf(pixel: Pixel): nat {
    if pixel.1 % 2 == 1 then 6
    else if pixel.0 % 2 == 1 then 5
    else if pixel.1 % 4 == 2 then 4
    else if pixel.0 % 4 == 2 then 3
    else if pixel.1 % 8 == 4 then 2
    else if pixel.0 % 8 == 4 then 1
    else 0
  }

  lemma FourOfEight(n: int, k: int, r: int)
    requires n == 8 * k + r && 0 <= r < 8
    ensures n % 4 == if r < 4 then r else r - 4
  {
    assert n == if r < 4 then 4 * (2 * k) + r else 4 * (2 * k + 1) + (r - 4);
  }

  lemma TwoOfFour(n: int, k: int, r: int)
    requires n == 4 * k + r && 0 <= r < 4
    ensures n % 2 == if r < 2 then r else r - 2
  {
    assert n == if r < 2 then 2 * (2 * k) + r else 2 * (2 * k + 1) + (r - 2);
  }

  /** The residues of a coordinate, all from the one modulo 8. */
  lemma Residues(n: int)
    ensures 0 <= n % 8 < 8
    ensures n % 4 == if n % 8 < 4 then n % 8 else n % 8 - 4
    ensures n % 2 == if n % 4 < 2 then n % 4 else n % 4 - 2
  {
    FourOfEight(n, n / 8, n % 8);
    TwoOfFour(n, n / 4, n % 4);
  }

  lemma PassOfIsUnique(pixel: Pixel, i: nat)
    requires i < |ADAM7|
    ensures InPass(ADAM7[i], pixel) <==> i == PassOf(pixel)
  {
    Residues(pixel.0);
    Residues(pixel.1);
  }

  /** Each pixel lies in exactly one pass. */
  lemma OnePassPerPixel(interlaceMethod: int, pixel: Pixel)
    ensures forall p | p in Passes(interlaceMethod) :: Tabled(p)
    ensures exists i :: 0 <= i < |Passes(interlaceMethod)| && InPass(Passes(interlaceMethod)[i], pixel)
    ensures forall i, j | 0 <= i < |Passes(interlaceMethod)| && 0 <= j < |Passes(interlaceMethod)| ::
              InPass(Passes(interlaceMethod)[i], pixel) && InPass(Passes(interlaceMethod)[j], pixel) ==> i == j
  {
    PassesTabled(interlaceMethod);
    if interlaceMethod == 1 {
      forall i: nat | i < |ADAM7| ensures InPass(ADAM7[i], pixel) <==> i == PassOf(pixel) {
        PassOfIsUnique(pixel, i);
      }
      assert InPass(Passes(interlaceMethod)[PassOf(pixel)], pixel);
    } else {
      assert InPass(Passes(interlaceMethod)[0], pixel);
    }
  }

  /** The pixels of an image, and those of one pass. */
  function Pixels(width: nat, height: nat): set<Pixel> {
    set x, y | 0 <= x < width && 0 <= y < height :: (x, y)
  }

  function PassPixels(p: Pass, width: nat, height: nat): set<Pixel>
    requires Tabled(p)
  {
    set pixel | pixel in Pixels(width, height) && InPass(p, pixel)
  }

  lemma ExtentNext2(size: nat, start: nat)
    requires start < 2
    ensures Extent(0, start, 2) == 0
    ensures Extent(size + 1, start, 2) == Extent(size, start, 2) + if size % 2 == start then 1 else 0
  {
    var k := size / 2;
    assert size == 2 * k + size % 2;
  }

  lemma ExtentNext4(size: nat, start: nat)
    requires start < 4
    ensures Extent(0, start, 4) == 0
    ensures Extent(size + 1, start, 4) == Extent(size, start, 4) + if size % 4 == start then 1 else 0
  {
    var k := size / 4;
    assert size == 4 * k + size % 4;
  }

  lemma ExtentNext8(size: nat, start: nat)
    requires start < 8
    ensures Extent(0, start, 8) == 0
    ensures Extent(size + 1, start, 8) == Extent(size, start, 8) + if size % 8 == start then 1 else 0
  {
    var k := size / 8;
    assert size == 8 * k + size % 8;
  }

  lemma ExtentNext(size: nat, start: nat, step: nat)
    requires Step(step) && start < step
    ensures Extent(0, start, step) == 0
    ensures Extent(size + 1, start, step) == Extent(size, start, step) + if size % step == start then 1 else 0
  {
    match step
    case 1 =>
    case 2 => ExtentNext2(size, start);
    case 4 => ExtentNext4(size, start);
    case 8 => ExtentNext8(size, start);
  }

  /** The pixels of a pass in one column. */
  function Column(p: Pass, x: nat, height: nat): set<Pixel>
    requires Tabled(p)
  {
    set y | 0 <= y < height && InPass(p, (x, y)) :: (x, y)
  }

  lemma ColumnNext(p: Pass, x: nat, height: nat)
    requires Tabled(p)
    ensures Column(p, x, height + 1) ==
              if InPass(p, (x, height)) then Column(p, x, height) + {(x, height)} else Column(p, x, height)
    ensures (x, height) !in Column(p, x, height)
  {
  }

  lemma {:induction false} CountColumn(p: Pass, x: nat, height: nat)
    requires Tabled(p)
    ensures |Column(p, x, height)| == if x % p.stepX == p.startX then PassHeight(p, height) else 0
  {
    if height == 0 {
      ExtentNext(0, p.startY, p.stepY);
      assert Column(p, x, 0) == {};
    } else {
      ExtentNext(height - 1, p.startY, p.stepY);
      CountColumn(p, x, height - 1);
      ColumnNext(p, x, height - 1);
    }
  }

  lemma PassPixelsNext(p: Pass, width: nat, height: nat)
    requires Tabled(p)
    ensures PassPixels(p, width + 1, height) == PassPixels(p, width, height) + Column(p, width, height)
    ensures PassPixels(p, width, height) !! Column(p, width, height)
  {
    assert Pixels(width + 1, height) == Pixels(width, height) + set y | 0 <= y < height :: (width, y);
  }

  lemma NoPixels(p: Pass, height: nat)
    requires Tabled(p)
    ensures PassPixels(p, 0, height) == {} && PassWidth(p, 0) == 0
  {
    ExtentNext(0, p.startX, p.stepX);
  }

  lemma OneMore(n: nat, m: nat)
    ensures (n + 1) * m == n * m + m
  {
  }

  /** The size of a pass counts the pixels that lie in it. */
  lemma {:induction false} PassSizeCountsPixels(p: Pass, width: nat, height: nat)
    requires Tabled(p)
    ensures PassWidth(p, width) * PassHeight(p, height) == |PassPixels(p, width, height)|
  {
    hide Extent, PassPixels, Column;
    if width == 0 {
      NoPixels(p, height);
    } else {
      ExtentNext(width - 1, p.startX, p.stepX);
      PassSizeCountsPixels(p, width - 1, height);
      PassPixelsNext(p, width - 1, height);
      CountColumn(p, width - 1, height);
      OneMore(PassWidth(p, width - 1), PassHeight(p, height));
    }
  }

  function PixelSum(passes: seq<Pass>, width: nat, height: nat): nat
    requires forall p | p in passes :: Tabled(p)
  {
    if passes == [] then 0
    else
      PassWidth(passes[0], width) * PassHeight(passes[0], height) + PixelSum(passes[1..], width, height)
  }

  /** The pixels that lie in some pass of a list. */
  function Covered(passes: seq<Pass>, width: nat, height: nat): set<Pixel>
    requires forall p | p in passes :: Tabled(p)
  {
    if passes == [] then {} else PassPixels(passes[0], width, height) + Covered(passes[1..], width, height)
  }

  lemma {:induction false} CoveredIff(passes: seq<Pass>, width: nat, height: nat, pixel: Pixel)
    requires forall p | p in passes :: Tabled(p)
    ensures pixel in Covered(passes, width, height) <==>
              pixel in Pixels(width, height) && exists i :: 0 <= i < |passes| && InPass(passes[i], pixel)
  {
    if passes != [] {
      var rest := passes[1..];
      CoveredIff(rest, width, height, pixel);
      if i :| 0 <= i < |passes| && InPass(passes[i], pixel) {
        assert i > 0 ==> rest[i - 1] == passes[i];
      }
      if i :| 0 <= i < |rest| && InPass(rest[i], pixel) {
        assert passes[i + 1] == rest[i];
      }
    }
  }

  /** No two passes of a list share a pixel. */
  ghost predicate Apart(passes: seq<Pass>)
    requires forall p | p in passes :: Tabled(p)
  {
    forall pixel: Pixel, i, j | 0 <= i < j < |passes| ::
      !(InPass(passes[i], pixel) && InPass(passes[j], pixel))
  }

  lemma {:induction false} ApartPassesAdd(passes: seq<Pass>, width: nat, height: nat)
    requires forall p | p in passes :: Tabled(p)
    requires Apart(passes)
    ensures PixelSum(passes, width, height) == |Covered(passes, width, height)|
  {
    if passes != [] {
      var first, rest := passes[0], passes[1..];
      assert Apart(rest) by {
        assert forall i | 0 <= i < |rest| :: rest[i] == passes[i + 1];
      }
      ApartPassesAdd(rest, width, height);
      PassSizeCountsPixels(first, width, height);
      forall pixel | pixel in PassPixels(first, width, height) ensures pixel !in Covered(rest, width, height) {
        CoveredIff(rest, width, height, pixel);
        assert forall i | 0 <= i < |rest| :: rest[i] == passes[i + 1];
      }
      assert PassPixels(first, width, height) !! Covered(rest, width, height);
    }
  }

  /** The passes together have exactly the pixels of the image. */
  lemma PassesCoverImage(interlaceMethod: int, width: nat, height: nat)
    ensures forall p | p in Passes(interlaceMethod) :: Tabled(p)
    ensures PixelSum(Passes(interlaceMethod), width, height) == width * height
  {
    var passes := Passes(interlaceMethod);
    OnePassPerPixel(interlaceMethod, (0, 0));
    assert Apart(passes) by {
      forall pixel: Pixel, i, j | 0 <= i < j < |passes|
        ensures !(InPass(passes[i], pixel) && InPass(passes[j], pixel))
      {
        OnePassPerPixel(interlaceMethod, pixel);
      }
    }
    ApartPassesAdd(passes, width, height);
    forall pixel ensures pixel in Covered(passes, width, height) <==> pixel in Pixels(width, height) {
      CoveredIff(passes, width, height, pixel);
      if pixel in Pixels(width, height) {
        OnePassPerPixel(interlaceMethod, pixel);
      }
    }
    assert Covered(passes, width, height) == Pixels(width, height);
    PassSizeCountsPixels(WHOLE[0], width, height);
    assert PassPixels(WHOLE[0], width, height) == Pixels(width, height);
  }

  // ----- scanlines

  function Channels(colorType: int): nat {
    match colorType
    case 2 => 3
    case 4 => 2
    case 6 => 4
    case _ => 1
  }

  function RowBytes(passWidth: nat, bitsPerPixel: nat): nat {
    (passWidth * bitsPerPixel + 7) / 8
  }

  /** The rows of one pass, each a filter byte and `rowBytes` bytes. */
  datatype Rows = Rows(count: nat, rowBytes: nat)

  function Length(rows: Rows): nat {
    rows.count * (rows.rowBytes + 1)
  }

  /** The rows of the passes that have pixels, in order. */
  function Layout(passes: seq<Pass>, width: int, height: int, bitsPerPixel: nat): seq<Rows>
    requires forall p | p in passes :: Tabled(p)
  {
    if passes == [] then []
    else
      var rest := Layout(passes[..|passes| - 1], width, height, bitsPerPixel);
      var p := passes[|passes| - 1];
      if PassWidth(p, width) == 0 || PassHeight(p, height) == 0 then rest
      else rest + [Rows(PassHeight(p, height), RowBytes(PassWidth(p, width), bitsPerPixel))]
  }

  function TotalLength(layout: seq<Rows>): nat {
    if layout == [] then 0 else TotalLength(layout[..|layout| - 1]) + Length(layout[|layout| - 1])
  }

  /** The offsets at which the rows of a layout start. */
  function RowStarts(layout: seq<Rows>): seq<nat> {
    if layout == [] then []
    else
      var rest := layout[..|layout| - 1];
      var rows := layout[|layout| - 1];
      RowStarts(rest) + StartsFrom(TotalLength(rest), rows.count, rows.rowBytes)
  }

  function StartsFrom(offset: nat, count: nat, rowBytes: nat): seq<nat> {
    if count == 0 then []
    else StartsFrom(offset, count - 1, rowBytes) + [offset + Length(Rows(count - 1, rowBytes))]
  }

  lemma LengthNext(count: nat, rowBytes: nat)
    ensures Length(Rows(count + 1, rowBytes)) == Length(Rows(count, rowBytes)) + rowBytes + 1
    ensures Length(Rows(0, rowBytes)) == 0
  {
    OneMore(count, rowBytes + 1);
  }

  lemma {:induction false} LengthGrows(m: nat, n: nat, rowBytes: nat)
    requires m <= n
    ensures Length(Rows(m, rowBytes)) <= Length(Rows(n, rowBytes))
  {
    if m < n {
      LengthGrows(m, n - 1, rowBytes);
      LengthNext(n - 1, rowBytes);
    }
  }

  lemma {:induction false} StartsInRange(offset: nat, count: nat, rowBytes: nat)
    ensures |StartsFrom(offset, count, rowBytes)| == count
    ensures forall k | 0 <= k < count ::
              && StartsFrom(offset, count, rowBytes)[k] == offset + Length(Rows(k, rowBytes))
              && StartsFrom(offset, count, rowBytes)[k] + rowBytes + 1 <= offset + Length(Rows(count, rowBytes))
  {
    if count > 0 {
      StartsInRange(offset, count - 1, rowBytes);
      LengthNext(count - 1, rowBytes);
    }
  }

  /** Every row starts inside the image. */
  lemma {:induction false} RowStartsInRange(layout: seq<Rows>)
    ensures forall s | s in RowStarts(layout) :: s < TotalLength(layout)
  {
    if layout != [] {
      var rest := layout[..|layout| - 1];
      var rows := layout[|layout| - 1];
      RowStartsInRange(rest);
      StartsInRange(TotalLength(rest), rows.count, rows.rowBytes);
    }
  }

  // ----- the whole validator

  /** The outcome of `decompress` with a length limit; None is the library's own error. */
  datatype Inflated = Inflated(output: seq<byte>, eof: bool, unconsumedTail: seq<byte>, unusedData: seq<byte>)

  type Inflate = (seq<byte>, nat) -> Option<Inflated>

  function ImageLayout(header: Header, width: int, height: int): seq<Rows> {
    PassesTabled(header.interlaceMethod);
    Layout(Passes(header.interlaceMethod), width, height, Channels(header.colorType) * header.bitDepth)
  }

  /** The data inflates to exactly the expected length, and every row has a known filter. */
  ghost predicate ScanlinesValid(header: Header, imageData: seq<byte>, width: int, height: int, inflate: Inflate) {
    var layout := ImageLayout(header, width, height);
    var total := TotalLength(layout);
    var result := inflate(imageData, total + 1);
    && result.Some?
    && |result.value.output| == total
    && result.value.eof && result.value.unconsumedTail == [] && result.value.unusedData == []
    && forall s | s in RowStarts(layout) :: s < total && result.value.output[s] <= 4
  }
}
