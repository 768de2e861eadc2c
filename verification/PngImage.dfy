/** The PNG validator as a whole: chunk loop, layout, inflation and filter walk. */
module PngImage {
  import opened Prelude
  import opened PngChunks
  import opened PngValidator
  import opened PngScanlines

  /** The loop over the passes: those without pixels are skipped. */
  method BuildLayout(passes: seq<Pass>, width: int, height: int, bitsPerPixel: nat)
    returns (layout: seq<Rows>, expectedScanlineBytes: nat)
    requires forall p | p in passes :: Tabled(p)
    ensures layout == Layout(passes, width, height, bitsPerPixel)
    ensures expectedScanlineBytes == TotalLength(layout)
  {
    layout, expectedScanlineBytes := [], 0;
    for i := 0 to |passes|
      invariant layout == Layout(passes[..i], width, height, bitsPerPixel)
      invariant expectedScanlineBytes == TotalLength(layout)
    {
      assert passes[..i + 1][..i] == passes[..i];
      var passWidth := PassWidth(passes[i], width);
      var passHeight := PassHeight(passes[i], height);
      if passWidth == 0 || passHeight == 0 {
        continue;
      }
      var rowBytes := RowBytes(passWidth, bitsPerPixel);
      ghost var before := layout;
      layout := layout + [Rows(passHeight, rowBytes)];
      assert layout[..|layout| - 1] == before;
      expectedScanlineBytes := expectedScanlineBytes + passHeight * (rowBytes + 1);
    }
    assert passes[..|passes|] == passes;
  }

  lemma RowsNext(layout: seq<Rows>, i: nat)
    requires i < |layout|
    ensures var base := TotalLength(layout[..i]);
            && TotalLength(layout[..i + 1]) == base + Length(layout[i])
            && RowStarts(layout[..i + 1]) ==
                 RowStarts(layout[..i]) + StartsFrom(base, layout[i].count, layout[i].rowBytes)
  {
    assert layout[..i + 1][..i] == layout[..i];
  }

  lemma RowIsStart(layout: seq<Rows>, i: nat, r: nat)
    requires i < |layout| && r < layout[i].count
    ensures var s := TotalLength(layout[..i]) + Length(Rows(r, layout[i].rowBytes));
            s in RowStarts(layout) && s < TotalLength(layout)
  {
    hide Length, RowStarts, TotalLength, StartsFrom;
    RowsNext(layout, i);
    StartsInRange(TotalLength(layout[..i]), layout[i].count, layout[i].rowBytes);
    var starts := StartsFrom(TotalLength(layout[..i]), layout[i].count, layout[i].rowBytes);
    assert starts[r] in RowStarts(layout[..i + 1]);
    PrefixStarts(layout, i + 1);
    RowStartsInRange(layout);
  }

  /** The filter walk: it reads only inside the image and ends exactly at its end. */
  method CheckFilters(scanlines: seq<byte>, layout: seq<Rows>) returns (ok: bool)
    requires |scanlines| == TotalLength(layout)
    ensures ok <==> forall s | s in RowStarts(layout) :: s < |scanlines| && scanlines[s] <= 4
  {
    hide Length;
    var offset := 0;
    for i := 0 to |layout|
      invariant offset == TotalLength(layout[..i])
      invariant forall s | s in RowStarts(layout[..i]) :: s < |scanlines| && scanlines[s] <= 4
    {
      var rows := layout[i];
      RowsNext(layout, i);
      ghost var base := offset;
      LengthNext(0, rows.rowBytes);
      for r := 0 to rows.count
        invariant offset == base + Length(Rows(r, rows.rowBytes))
        invariant forall s | s in StartsFrom(base, r, rows.rowBytes) :: s < |scanlines| && scanlines[s] <= 4
      {
        RowIsStart(layout, i, r);
        LengthNext(r, rows.rowBytes);
        if scanlines[offset] > 4 {
          return false;
        }
        offset := offset + rows.rowBytes + 1;
      }
    }
    assert layout[..|layout|] == layout;
    assert offset == |scanlines|;
    ok := true;
  }

  lemma {:induction false} PrefixStarts(layout: seq<Rows>, i: nat)
    requires i <= |layout|
    ensures forall s | s in RowStarts(layout[..i]) :: s in RowStarts(layout)
    decreases |layout| - i
  {
    if i == |layout| {
      assert layout[..i] == layout;
    } else {
      PrefixStarts(layout, i + 1);
      assert layout[..i + 1][..i] == layout[..i];
    }
  }

  /** Inflation and the filter walk, for the header and image data of a chunk list. */
  method CheckScanlines(header: Header, idat: seq<byte>, width: int, height: int, inflate: Inflate) returns (ok: bool)
    ensures ok <==> ScanlinesValid(header, idat, width, height, inflate)
  {
    hide Layout, TotalLength, RowStarts, Passes;
    PassesTabled(header.interlaceMethod);
    var bitsPerPixel := Channels(header.colorType) * header.bitDepth;
    var layout, expectedScanlineBytes := BuildLayout(Passes(header.interlaceMethod), width, height, bitsPerPixel);
    var result := inflate(idat, expectedScanlineBytes + 1);
    if result.None? {
      return false;
    }
    var scanlines := result.value.output;
    if |scanlines| != expectedScanlineBytes || !result.value.eof
       || result.value.unconsumedTail != [] || result.value.unusedData != []
    {
      return false;
    }
    ok := CheckFilters(scanlines, layout);
  }

  /**
   The validator accepts exactly the images: a well-formed chunk list whose data inflates
   to the scanlines of the expected size, each with a known filter.
   */
  method ValidatePng(decoded: seq<byte>, expectedWidth: int, expectedHeight: int, crc: Checksum, inflate: Inflate)
    returns (ok: bool)
    ensures ok <==> exists cs ::
              && IsImage(decoded, cs, crc, expectedWidth, expectedHeight)
              && ScanlinesValid(Contents(cs).0, Contents(cs).1, expectedWidth, expectedHeight, inflate)
  {
    hide IsImage, Contents, ScanlinesValid;
    var image := ReadChunks(decoded, expectedWidth, expectedHeight, crc);
    if image.None? {
      return false;
    }
    var (header, idat) := image.value;
    ok := CheckScanlines(header, idat, expectedWidth, expectedHeight, inflate);
  }
}
