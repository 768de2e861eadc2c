/**
 The chunk loop of the PNG validator: a walk over the bytes with a handful of flags,
 proved to accept exactly the serialisations of well-formed chunk lists.
 */
module PngValidator {
  import opened Prelude
  import opened PngChunks

  /** The flags and collected data of the loop. */
  datatype Machine = Machine(
    seenIhdr: bool,
    seenIdat: bool,
    seenIend: bool,
    seenPlte: bool,
    idatEnded: bool,
    header: Header,
    imageData: seq<byte>)

  const Fresh := Machine(false, false, false, false, false, Header(0, 0, 0), [])

  function ReadHeader(m: Machine, c: Chunk, width: int, height: int): Option<Machine> {
    if !m.seenIhdr then
      if LegalHeader(c, width, height) then Some(m.(seenIhdr := true, header := HeaderOf(c))) else None
    else if c.kind == IHDR then None
    else Some(m)
  }

  function ReadPalette(m: Machine, c: Chunk): Option<Machine> {
    if c.kind != PLTE then Some(m)
    else if m.seenIdat || m.seenPlte || !LegalPalette(c, m.header) then None
    else Some(m.(seenPlte := true))
  }

  function ReadImageData(m: Machine, c: Chunk): Option<Machine> {
    if c.kind == IDAT then
      if m.idatEnded || (m.header.colorType == 3 && !m.seenPlte) then None
      else Some(m.(seenIdat := true, imageData := m.imageData + c.data))
    else if m.seenIdat then Some(m.(idatEnded := true))
    else Some(m)
  }

  function ReadEnd(m: Machine, c: Chunk, last: bool): Option<Machine>
  {
    if c.kind == IEND then
      if c.data != [] || !last then None else Some(m.(seenIend := true))
    else if c.kind !in {IHDR, PLTE, IDAT} && !Ancillary(c) then None
    else Some(m)
  }

  /** One chunk: the checks of the loop body in their order. */
  function Advance(m: Machine, c: Chunk, last: bool, width: int, height: int): Option<Machine>
  {
    var m1 := ReadHeader(m, c, width, height);
    if m1.None? then None else
    var m2 := ReadPalette(m1.value, c);
    if m2.None? then None else
    var m3 := ReadImageData(m2.value, c);
    if m3.None? then None else
    ReadEnd(m3.value, c, last)
  }

  /** The machine after the first `n` chunks of a list. */
  function After(cs: seq<Chunk>, n: nat, width: int, height: int): Option<Machine>
    requires n <= |cs|
  {
    if n == 0 then Some(Fresh)
    else
      var before := After(cs, n - 1, width, height);
      if before.None? then None else Advance(before.value, cs[n - 1], n == |cs|, width, height)
  }

  predicate Complete(m: Machine) {
    m.seenIhdr && m.seenIdat && m.seenIend
  }

  // ----- the flags mean what the grammar says

  /** The flags describe the chunks read so far. */
  ghost predicate Describes(m: Machine, before: seq<Chunk>) {
    && m.seenIhdr == (before != [])
    && (before != [] ==> |before[0].data| == 13 && m.header == HeaderOf(before[0]))
    && m.seenIdat == Has(before, IDAT)
    && m.seenPlte == Has(before, PLTE)
    && m.seenIend == Has(before, IEND)
    && m.idatEnded == (Has(before, IDAT) && before[|before| - 1].kind != IDAT)
    && m.imageData == ImageData(before)
  }

  lemma HasNext(before: seq<Chunk>, c: Chunk, kind: seq<byte>)
    ensures Has(before + [c], kind) == (Has(before, kind) || c.kind == kind)
  {
    if Has(before, kind) {
      var d :| d in before && d.kind == kind;
      assert d in before + [c];
    }
    assert c in before + [c];
  }

  lemma AdvanceDescribes(m: Machine, before: seq<Chunk>, c: Chunk, last: bool, width: int, height: int)
    requires Describes(m, before)
    ensures Advance(m, c, last, width, height).Some? ==>
              Describes(Advance(m, c, last, width, height).value, before + [c])
  {
    HasNext(before, c, IDAT);
    HasNext(before, c, PLTE);
    HasNext(before, c, IEND);
    assert (before + [c])[..|before + [c]| - 1] == before;
  }

  lemma AdvanceIffInPlace(m: Machine, cs: seq<Chunk>, i: nat, width: int, height: int)
    requires i < |cs| && Describes(m, cs[..i])
    ensures Advance(m, cs[i], i + 1 == |cs|, width, height).Some? <==> ChunkInPlace(cs, i, width, height)
  {
  }

  /** The first `n` chunks satisfy the grammar. */
  ghost predicate AllInPlace(cs: seq<Chunk>, n: nat, width: int, height: int)
    requires n <= |cs|
  {
    n > 0 ==> AllInPlace(cs, n - 1, width, height) && ChunkInPlace(cs, n - 1, width, height)
  }

  lemma {:induction false} AllInPlaceEach(cs: seq<Chunk>, n: nat, width: int, height: int)
    requires n <= |cs|
    ensures AllInPlace(cs, n, width, height) <==> forall i | 0 <= i < n :: ChunkInPlace(cs, i, width, height)
  {
    if n > 0 {
      AllInPlaceEach(cs, n - 1, width, height);
    }
  }

  lemma StepInPlace(m: Machine, cs: seq<Chunk>, i: nat, width: int, height: int)
    requires i < |cs| && Describes(m, cs[..i])
    ensures var next := Advance(m, cs[i], i + 1 == |cs|, width, height);
            && (next.Some? <==> ChunkInPlace(cs, i, width, height))
            && (next.Some? ==> Describes(next.value, cs[..i + 1]))
  {
    assert cs[..i + 1] == cs[..i] + [cs[i]];
    AdvanceIffInPlace(m, cs, i, width, height);
    AdvanceDescribes(m, cs[..i], cs[i], i + 1 == |cs|, width, height);
  }

  lemma {:induction false} AfterIffInPlace(cs: seq<Chunk>, n: nat, width: int, height: int)
    requires n <= |cs|
    ensures After(cs, n, width, height).Some? <==> AllInPlace(cs, n, width, height)
    ensures After(cs, n, width, height).Some? ==> Describes(After(cs, n, width, height).value, cs[..n])
  {
    if n > 0 {
      AfterIffInPlace(cs, n - 1, width, height);
      if AllInPlace(cs, n - 1, width, height) {
        StepInPlace(After(cs, n - 1, width, height).value, cs, n - 1, width, height);
      }
    }
  }

  /** The machine accepts a chunk list exactly when the grammar does. */
  lemma MachineIffGrammar(cs: seq<Chunk>, width: int, height: int)
    requires |cs| <= MAX_CHUNKS
    ensures After(cs, |cs|, width, height).Some? && Complete(After(cs, |cs|, width, height).value)
            <==> WellFormed(cs, width, height)
    ensures WellFormed(cs, width, height) ==>
              var m := After(cs, |cs|, width, height).value;
              |cs[0].data| == 13 && m.header == HeaderOf(cs[0]) && m.imageData == ImageData(cs)
  {
    AfterIffInPlace(cs, |cs|, width, height);
    AllInPlaceEach(cs, |cs|, width, height);
    assert cs[..|cs|] == cs;
    if After(cs, |cs|, width, height).Some? && Has(cs, IEND) {
      var i :| 0 <= i < |cs| && cs[i].kind == IEND;
      assert ChunkInPlace(cs, i, width, height);
    }
    if cs != [] && cs[|cs| - 1].kind == IEND {
      assert cs[|cs| - 1] in cs;
    }
  }

  // ----- the walk over the bytes

  /** The chunks from an offset to the end, if the bytes are nothing but chunks. */
  function ReadAll(b: seq<byte>, offset: nat, crc: Checksum): Option<seq<Chunk>>
    requires offset <= |b|
    decreases |b| - offset
  {
    if offset == |b| then Some([])
    else
      var c := ReadChunk(b, offset, crc);
      if c.None? then None
      else
        var rest := ReadAll(b, offset + 12 + |c.value.data|, crc);
        if rest.None? then None else Some([c.value] + rest.value)
  }

  /** The bytes from an offset on are the chunks, one after the other. */
  ghost predicate Encodes(b: seq<byte>, offset: nat, crc: Checksum, cs: seq<Chunk>)
    decreases |cs|
  {
    if cs == [] then offset == |b|
    else
      var next := offset + 12 + |cs[0].data|;
      next <= |b| && ReadChunk(b, offset, crc) == Some(cs[0]) && Encodes(b, next, crc, cs[1..])
  }

  lemma FirstChunk(b: seq<byte>, offset: nat, crc: Checksum, c: Chunk, rest: seq<byte>)
    requires offset <= |b| && Legal(c)
    ensures b[offset..] == Serialize(c, crc) + rest <==>
              && offset + 12 + |c.data| <= |b|
              && ReadChunk(b, offset, crc) == Some(c)
              && b[offset + 12 + |c.data|..] == rest
  {
    ReadIffSerialized(b, offset, crc, c);
    if offset + 12 + |c.data| <= |b| {
      SplitAt(b, offset, Serialize(c, crc), rest);
    }
  }

  lemma {:induction false} LegalTail(cs: seq<Chunk>)
    requires cs != []
    ensures AllLegal(cs) <==> Legal(cs[0]) && AllLegal(cs[1..])
  {
    if AllLegal(cs[1..]) && Legal(cs[0]) {
      forall i | 0 <= i < |cs| ensures Legal(cs[i]) {
        assert i > 0 ==> cs[i] == cs[1..][i - 1];
      }
    }
  }

  lemma {:induction false} EncodedIsSerialized(b: seq<byte>, offset: nat, crc: Checksum, cs: seq<Chunk>)
    requires offset <= |b| && Encodes(b, offset, crc, cs)
    ensures AllLegal(cs) && b[offset..] == SerializeAll(cs, crc)
    decreases |cs|
  {
    if cs != [] {
      EncodedIsSerialized(b, offset + 12 + |cs[0].data|, crc, cs[1..]);
      ReadIsSerialized(b, offset, crc, cs[0]);
      LegalTail(cs);
      FirstChunk(b, offset, crc, cs[0], SerializeAll(cs[1..], crc));
    }
  }

  lemma {:induction false} SerializedFirst(b: seq<byte>, offset: nat, crc: Checksum, cs: seq<Chunk>)
    requires offset <= |b| && cs != [] && AllLegal(cs) && b[offset..] == SerializeAll(cs, crc)
    ensures offset + 12 + |cs[0].data| <= |b| && ReadChunk(b, offset, crc) == Some(cs[0])
    ensures AllLegal(cs[1..]) && b[offset + 12 + |cs[0].data|..] == SerializeAll(cs[1..], crc)
  {
    FirstChunk(b, offset, crc, cs[0], SerializeAll(cs[1..], crc));
  }

  lemma {:induction false} SerializedIsEncoded(b: seq<byte>, offset: nat, crc: Checksum, cs: seq<Chunk>)
    requires offset <= |b| && AllLegal(cs) && b[offset..] == SerializeAll(cs, crc)
    ensures Encodes(b, offset, crc, cs)
    decreases |cs|
  {
    hide ReadChunk;
    if cs != [] {
      SerializedFirst(b, offset, crc, cs);
      SerializedIsEncoded(b, offset + 12 + |cs[0].data|, crc, cs[1..]);
    }
  }

  lemma SplitAt(b: seq<byte>, offset: nat, x: seq<byte>, y: seq<byte>)
    requires offset + |x| <= |b|
    ensures b[offset..] == x + y <==> b[offset..offset + |x|] == x && b[offset + |x|..] == y
  {
    assert b[offset..offset + |x|] == b[offset..][..|x|];
    assert b[offset + |x|..] == b[offset..][|x|..];
    assert b[offset..] == b[offset..offset + |x|] + b[offset + |x|..];
  }

  lemma ConsIff(c: Chunk, rest: seq<Chunk>, cs: seq<Chunk>)
    requires cs != []
    ensures [c] + rest == cs <==> c == cs[0] && rest == cs[1..]
  {
    assert ([c] + rest)[1..] == rest;
  }

  lemma ReadChunkFits(b: seq<byte>, offset: nat, crc: Checksum)
    requires offset <= |b| && ReadChunk(b, offset, crc).Some?
    ensures offset + 12 + |ReadChunk(b, offset, crc).value.data| <= |b|
  {
  }

  lemma {:induction false} ReadAllNext(b: seq<byte>, offset: nat, crc: Checksum, cs: seq<Chunk>)
    requires offset <= |b| && cs != []
    ensures ReadAll(b, offset, crc) == Some(cs) <==>
              && ReadChunk(b, offset, crc) == Some(cs[0])
              && offset + 12 + |cs[0].data| <= |b|
              && ReadAll(b, offset + 12 + |cs[0].data|, crc) == Some(cs[1..])
  {
    hide ReadChunk;
    if offset < |b| && ReadChunk(b, offset, crc).Some? {
      ReadChunkFits(b, offset, crc);
      var c := ReadChunk(b, offset, crc).value;
      var rest := ReadAll(b, offset + 12 + |c.data|, crc);
      if rest.Some? {
        ConsIff(c, rest.value, cs);
      }
    }
  }

  /** Reading to the end finds exactly the chunk list that the bytes encode. */
  lemma {:induction false} ReadAllIffEncodes(b: seq<byte>, offset: nat, crc: Checksum, cs: seq<Chunk>)
    requires offset <= |b|
    ensures ReadAll(b, offset, crc) == Some(cs) <==> Encodes(b, offset, crc, cs)
    decreases |cs|
  {
    if cs != [] {
      ReadAllNext(b, offset, crc, cs);
      var next := offset + 12 + |cs[0].data|;
      if next <= |b| {
        ReadAllIffEncodes(b, next, crc, cs[1..]);
      }
    }
  }

  // ----- the loop

  /** The loop from one of its states: read a chunk, count it, check it, go on. */
  function Walk(b: seq<byte>, offset: nat, count: nat, m: Machine, crc: Checksum, width: int, height: int): Option<Machine>
    requires offset <= |b|
    decreases |b| - offset
  {
    if offset == |b| then Some(m)
    else
      var c := ReadChunk(b, offset, crc);
      if c.None? || count + 1 > MAX_CHUNKS then None
      else
        var end := offset + 12 + |c.value.data|;
        var next := Advance(m, c.value, end == |b|, width, height);
        if next.None? then None else Walk(b, end, count + 1, next.value, crc, width, height)
  }

  lemma {:induction false} WalkNeedsChunks(b: seq<byte>, offset: nat, count: nat, m: Machine, crc: Checksum, width: int, height: int)
    requires offset <= |b| && ReadAll(b, offset, crc).None?
    ensures Walk(b, offset, count, m, crc, width, height).None?
    decreases |b| - offset
  {
    var c := ReadChunk(b, offset, crc);
    if c.Some? {
      var end := offset + 12 + |c.value.data|;
      var next := Advance(m, c.value, end == |b|, width, height);
      if next.Some? {
        WalkNeedsChunks(b, end, count + 1, next.value, crc, width, height);
      }
    }
  }

  lemma {:induction false} AfterStops(cs: seq<Chunk>, n: nat, k: nat, width: int, height: int)
    requires n <= k <= |cs| && After(cs, n, width, height).None?
    ensures After(cs, k, width, height).None?
  {
    if n < k {
      AfterStops(cs, n, k - 1, width, height);
    }
  }

  lemma {:induction false} WalkOfChunks(b: seq<byte>, offset: nat, cs: seq<Chunk>, n: nat, m: Machine,
                                        crc: Checksum, width: int, height: int)
    requires offset <= |b| && n <= |cs| && n <= MAX_CHUNKS
    requires Encodes(b, offset, crc, cs[n..]) && After(cs, n, width, height) == Some(m)
    ensures Walk(b, offset, n, m, crc, width, height) ==
              if |cs| <= MAX_CHUNKS then After(cs, |cs|, width, height) else None
    decreases |cs| - n
  {
    hide ReadChunk, Advance;
    if n < |cs| {
      assert cs[n..][0] == cs[n] && cs[n..][1..] == cs[n + 1..];
      var end := offset + 12 + |cs[n].data|;
      assert end == |b| <==> n + 1 == |cs|;
      var next := Advance(m, cs[n], end == |b|, width, height);
      assert After(cs, n + 1, width, height) == next;
      if next.None? {
        AfterStops(cs, n + 1, |cs|, width, height);
      } else if n < MAX_CHUNKS {
        WalkOfChunks(b, end, cs, n + 1, next.value, crc, width, height);
      }
    }
  }

  /** The bytes are a signature and a well-formed chunk list. */
  ghost predicate IsImage(b: seq<byte>, cs: seq<Chunk>, crc: Checksum, width: int, height: int) {
    AllLegal(cs) && b == SIGNATURE + SerializeAll(cs, crc) && WellFormed(cs, width, height)
  }

  /** The header and the joined image data of a chunk list. */
  function Contents(cs: seq<Chunk>): (Header, seq<byte>) {
    (if cs != [] && |cs[0].data| == 13 then HeaderOf(cs[0]) else Header(0, 0, 0), ImageData(cs))
  }

  lemma IsImageIffEncodes(b: seq<byte>, cs: seq<Chunk>, crc: Checksum, width: int, height: int)
    requires SIGNATURE <= b
    ensures IsImage(b, cs, crc, width, height) <==>
              ReadAll(b, |SIGNATURE|, crc) == Some(cs) && WellFormed(cs, width, height)
  {
    assert b == SIGNATURE + b[|SIGNATURE|..];
    ReadAllIffEncodes(b, |SIGNATURE|, crc, cs);
    if Encodes(b, |SIGNATURE|, crc, cs) {
      EncodedIsSerialized(b, |SIGNATURE|, crc, cs);
    }
    if AllLegal(cs) && b == SIGNATURE + SerializeAll(cs, crc) {
      assert b[|SIGNATURE|..] == SerializeAll(cs, crc);
      SerializedIsEncoded(b, |SIGNATURE|, crc, cs);
    }
  }

  /** The whole loop accepts exactly the images, and collects their header and data. */
  lemma WalkIffImage(b: seq<byte>, crc: Checksum, width: int, height: int)
    requires SIGNATURE <= b
    ensures var m := Walk(b, |SIGNATURE|, 0, Fresh, crc, width, height);
            && (m.Some? && Complete(m.value) <==> exists cs :: IsImage(b, cs, crc, width, height))
            && forall cs | IsImage(b, cs, crc, width, height) ::
                 m.Some? && Contents(cs) == (m.value.header, m.value.imageData)
  {
    var all := ReadAll(b, |SIGNATURE|, crc);
    if all.None? {
      WalkNeedsChunks(b, |SIGNATURE|, 0, Fresh, crc, width, height);
      forall cs ensures !IsImage(b, cs, crc, width, height) {
        IsImageIffEncodes(b, cs, crc, width, height);
      }
    } else {
      var cs := all.value;
      ReadAllIffEncodes(b, |SIGNATURE|, crc, cs);
      assert cs[0..] == cs;
      WalkOfChunks(b, |SIGNATURE|, cs, 0, Fresh, crc, width, height);
      IsImageIffEncodes(b, cs, crc, width, height);
      if |cs| <= MAX_CHUNKS {
        MachineIffGrammar(cs, width, height);
      }
      forall other | IsImage(b, other, crc, width, height) ensures other == cs {
        IsImageIffEncodes(b, other, crc, width, height);
      }
    }
  }

  lemma NoSignature(b: seq<byte>, crc: Checksum, width: int, height: int)
    requires !(SIGNATURE <= b)
    ensures forall cs :: !IsImage(b, cs, crc, width, height)
  {
  }

  /** The part of the loop body that takes the next chunk off the bytes. */
  method TakeChunk(decoded: seq<byte>, offset: nat, crc: Checksum) returns (chunk: Option<Chunk>)
    requires offset < |decoded|
    ensures chunk == ReadChunk(decoded, offset, crc)
    ensures chunk.Some? ==> offset + 12 + |chunk.value.data| <= |decoded|
  {
    if offset + 12 > |decoded| {
      return None;
    }
    var chunkLength := WordAt(decoded, offset);
    var chunkType := decoded[offset + 4..offset + 8];
    if chunkLength > MAX_CHUNK_LENGTH || !LegalKind(chunkType) {
      return None;
    }
    var chunkEnd := offset + 12 + chunkLength;
    if chunkEnd > |decoded| {
      return None;
    }
    var chunkData := decoded[offset + 8..offset + 8 + chunkLength];
    var expectedCrc := WordAt(decoded, chunkEnd - 4);
    var actualCrc := crc(chunkType, chunkData);
    if actualCrc != expectedCrc {
      return None;
    }
    chunk := Some(Chunk(chunkType, chunkData));
  }

  /** The part of the loop body that checks a chunk and sets the flags. */
  method CheckChunk(flags: Machine, chunk: Chunk, last: bool, expectedWidth: int, expectedHeight: int)
    returns (next: Option<Machine>)
    ensures next == Advance(flags, chunk, last, expectedWidth, expectedHeight)
  {
    var m := flags;
    if !m.seenIhdr {
      if !LegalHeader(chunk, expectedWidth, expectedHeight) {
        return None;
      }
      m := m.(header := HeaderOf(chunk), seenIhdr := true);
    } else if chunk.kind == IHDR {
      return None;
    }
    if chunk.kind == PLTE {
      if m.seenIdat || m.seenPlte || !LegalPalette(chunk, m.header) {
        return None;
      }
      m := m.(seenPlte := true);
    }
    if chunk.kind == IDAT {
      if m.idatEnded || (m.header.colorType == 3 && !m.seenPlte) {
        return None;
      }
      m := m.(seenIdat := true, imageData := m.imageData + chunk.data);
    } else if m.seenIdat {
      m := m.(idatEnded := true);
    }
    if chunk.kind == IEND {
      if |chunk.data| != 0 || !last {
        return None;
      }
      m := m.(seenIend := true);
    } else if chunk.kind !in {IHDR, PLTE, IDAT} && !Ancillary(chunk) {
      return None;
    }
    next := Some(m);
  }

  /**
   The chunk loop of the validator. None stands for its exception; otherwise the result
   is the header and the joined image data.
   */
  method ReadChunks(decoded: seq<byte>, expectedWidth: int, expectedHeight: int, crc: Checksum)
    returns (image: Option<(Header, seq<byte>)>)
    ensures image.Some? <==> exists cs :: IsImage(decoded, cs, crc, expectedWidth, expectedHeight)
    ensures forall cs | IsImage(decoded, cs, crc, expectedWidth, expectedHeight) :: image == Some(Contents(cs))
  {
    hide ReadChunk, Advance, IsImage, Contents;
    if !(SIGNATURE <= decoded) {
      NoSignature(decoded, crc, expectedWidth, expectedHeight);
      return None;
    }
    WalkIffImage(decoded, crc, expectedWidth, expectedHeight);
    ghost var verdict := Walk(decoded, |SIGNATURE|, 0, Fresh, crc, expectedWidth, expectedHeight);
    var offset: nat := |SIGNATURE|;
    var chunkCount := 0;
    var flags := Fresh;
    while offset < |decoded|
      invariant offset <= |decoded|
      invariant verdict == Walk(decoded, offset, chunkCount, flags, crc, expectedWidth, expectedHeight)
      decreases |decoded| - offset
    {
      var chunk := TakeChunk(decoded, offset, crc);
      if chunk.None? {
        return None;
      }
      chunkCount := chunkCount + 1;
      if chunkCount > MAX_CHUNKS {
        return None;
      }
      var chunkEnd := offset + 12 + |chunk.value.data|;
      var next := CheckChunk(flags, chunk.value, chunkEnd == |decoded|, expectedWidth, expectedHeight);
      if next.None? {
        return None;
      }
      flags := next.value;
      offset := chunkEnd;
    }
    if !flags.seenIhdr || !flags.seenIdat || !flags.seenIend {
      return None;
    }
    image := Some((flags.header, flags.imageData));
  }
}
