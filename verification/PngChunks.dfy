/**
 The chunk structure of a PNG image (ISO/IEC 15948, sections 5.3, 5.6 and 11.2): bytes,
 chunks, their serialisation, and the grammar a validated image must satisfy.
 The checksum is a given function of a chunk's type and data.
 */
module PngChunks {
  import opened Prelude

  type word = x: int | 0 <= x < 0x1_0000_0000

  type Checksum = (seq<byte>, seq<byte>) -> word

  const SIGNATURE: seq<byte> := [137, 80, 78, 71, 13, 10, 26, 10]
  const IHDR: seq<byte> := [73, 72, 68, 82]
  const PLTE: seq<byte> := [80, 76, 84, 69]
  const IDAT: seq<byte> := [73, 68, 65, 84]
  const IEND: seq<byte> := [73, 69, 78, 68]
  const MAX_CHUNKS: nat := 4096
  const MAX_CHUNK_LENGTH: nat := 0x7FFF_FFFF

  // ----- big-endian words

  function BigEndian(b0: int, b1: int, b2: int, b3: int): int {
    ((b0 * 256 + b1) * 256 + b2) * 256 + b3
  }

  function WordAt(b: seq<byte>, at: nat): (w: word)
    requires at + 4 <= |b|
  {
    BigEndian(b[at], b[at + 1], b[at + 2], b[at + 3])
  }

  function WordBytes(w: word): (b: seq<byte>)
    ensures |b| == 4 && WordAt(b, 0) == w
  {
    [w / 256 / 256 / 256, w / 256 / 256 % 256, w / 256 % 256, w % 256]
  }

  lemma LowByte(high: int, low: byte)
    ensures (high * 256 + low) / 256 == high && (high * 256 + low) % 256 == low
  {
  }

  lemma BigEndianUnique(b0: byte, b1: byte, b2: byte, b3: byte)
    ensures WordBytes(BigEndian(b0, b1, b2, b3)) == [b0, b1, b2, b3]
  {
    var v1: int := b0;
    var v2 := v1 * 256 + b1;
    var v3 := v2 * 256 + b2;
    LowByte(v3, b3);
    LowByte(v2, b2);
    LowByte(v1, b1);
  }

  lemma WordBytesUnique(b: seq<byte>, at: nat)
    requires at + 4 <= |b|
    ensures b[at..at + 4] == WordBytes(WordAt(b, at))
  {
    BigEndianUnique(b[at], b[at + 1], b[at + 2], b[at + 3]);
  }

  // ----- chunks

  datatype Chunk = Chunk(kind: seq<byte>, data: seq<byte>)

  predicate IsLetter(b: byte) {
    65 <= b <= 90 || 97 <= b <= 122
  }

  predicate LegalKind(kind: seq<byte>) {
    |kind| == 4 && IsLetter(kind[0]) && IsLetter(kind[1]) && IsLetter(kind[2]) && IsLetter(kind[3])
  }

  predicate Legal(c: Chunk) {
    LegalKind(c.kind) && |c.data| <= MAX_CHUNK_LENGTH
  }

  /** A chunk on the wire: length, type, data, checksum. */
  function Serialize(c: Chunk, crc: Checksum): (b: seq<byte>)
    requires Legal(c)
    ensures |b| == 12 + |c.data|
  {
    WordBytes(|c.data|) + c.kind + c.data + WordBytes(crc(c.kind, c.data))
  }

  ghost predicate AllLegal(cs: seq<Chunk>) {
    forall i | 0 <= i < |cs| :: Legal(cs[i])
  }

  function SerializeAll(cs: seq<Chunk>, crc: Checksum): seq<byte>
    requires AllLegal(cs)
  {
    if cs == [] then [] else Serialize(cs[0], crc) + SerializeAll(cs[1..], crc)
  }

  /** The chunk that starts at an offset, if it is complete, legal and its checksum is right. */
  function ReadChunk(b: seq<byte>, offset: nat, crc: Checksum): Option<Chunk>
    requires offset <= |b|
  {
    if offset + 12 > |b| then None
    else
      var length := WordAt(b, offset);
      var kind := b[offset + 4..offset + 8];
      var end := offset + 12 + length;
      if length > MAX_CHUNK_LENGTH || !LegalKind(kind) || end > |b| then None
      else
        var data := b[offset + 8..offset + 8 + length];
        if crc(kind, data) != WordAt(b, end - 4) then None else Some(Chunk(kind, data))
  }

  /** Reading inverts serialisation, in both directions. */
  lemma ReadIffSerialized(b: seq<byte>, offset: nat, crc: Checksum, c: Chunk)
    requires offset <= |b|
    ensures ReadChunk(b, offset, crc) == Some(c) <==>
              Legal(c) && offset + 12 + |c.data| <= |b|
              && b[offset..offset + 12 + |c.data|] == Serialize(c, crc)
  {
    if ReadChunk(b, offset, crc) == Some(c) {
      ReadIsSerialized(b, offset, crc, c);
    }
    if Legal(c) && offset + 12 + |c.data| <= |b| && b[offset..offset + 12 + |c.data|] == Serialize(c, crc) {
      SerializedIsRead(b, offset, crc, c);
    }
  }

  lemma FourParts(b: seq<byte>, i: nat, j: nat, k: nat, l: nat, m: nat)
    requires i <= j <= k <= l <= m <= |b|
    ensures b[i..m] == b[i..j] + b[j..k] + b[k..l] + b[l..m]
  {
    assert b[i..k] == b[i..j] + b[j..k];
    assert b[i..l] == b[i..k] + b[k..l];
    assert b[i..m] == b[i..l] + b[l..m];
  }

  lemma ReadIsSerialized(b: seq<byte>, offset: nat, crc: Checksum, c: Chunk)
    requires offset <= |b| && ReadChunk(b, offset, crc) == Some(c)
    ensures Legal(c) && offset + 12 + |c.data| <= |b|
    ensures b[offset..offset + 12 + |c.data|] == Serialize(c, crc)
  {
    var end := offset + 12 + |c.data|;
    assert b[offset..offset + 4] == WordBytes(|c.data|) by { WordBytesUnique(b, offset); }
    assert b[end - 4..end] == WordBytes(crc(c.kind, c.data)) by { WordBytesUnique(b, end - 4); }
    FourParts(b, offset, offset + 4, offset + 8, end - 4, end);
  }

  lemma SerializedIsRead(b: seq<byte>, offset: nat, crc: Checksum, c: Chunk)
    requires offset <= |b| && Legal(c) && offset + 12 + |c.data| <= |b|
    requires b[offset..offset + 12 + |c.data|] == Serialize(c, crc)
    ensures ReadChunk(b, offset, crc) == Some(c)
  {
    var n := |c.data|;
    var s := Serialize(c, crc);
    var slice := b[offset..offset + 12 + n];
    assert forall i | 0 <= i < 12 + n :: b[offset + i] == slice[i];
    assert WordAt(b, offset) == WordAt(s, 0) == WordAt(WordBytes(n), 0);
    assert s[4..8] == c.kind;
    assert b[offset + 4..offset + 8] == slice[4..8];
    assert s[8..8 + n] == c.data;
    assert b[offset + 8..offset + 8 + n] == slice[8..8 + n];
    assert s[8 + n..] == WordBytes(crc(c.kind, c.data));
    assert WordAt(b, offset + 8 + n) == WordAt(s, 8 + n);
  }

  // ----- the grammar

  datatype Header = Header(bitDepth: byte, colorType: byte, interlaceMethod: byte)

  predicate LegalMode(colorType: byte, bitDepth: byte) {
    match colorType
    case 0 => bitDepth in {1, 2, 4, 8, 16}
    case 2 => bitDepth in {8, 16}
    case 3 => bitDepth in {1, 2, 4, 8}
    case 4 => bitDepth in {8, 16}
    case 6 => bitDepth in {8, 16}
    case _ => false
  }

  predicate LegalHeader(c: Chunk, width: int, height: int) {
    && c.kind == IHDR && |c.data| == 13
    && WordAt(c.data, 0) == width > 0 && WordAt(c.data, 4) == height > 0
    && LegalMode(c.data[9], c.data[8])
    && c.data[10] == 0 && c.data[11] == 0
    && c.data[12] in {0, 1}
  }

  function HeaderOf(c: Chunk): Header
    requires |c.data| == 13
  {
    Header(c.data[8], c.data[9], c.data[12])
  }

  function Pow2(n: nat): nat {
    if n == 0 then 1 else 2 * Pow2(n - 1)
  }

  predicate LegalPalette(c: Chunk, header: Header) {
    && 3 <= |c.data| <= 768 && |c.data| % 3 == 0
    && header.colorType !in {0, 4}
    && (header.colorType == 3 ==> |c.data| / 3 <= Pow2(header.bitDepth))
  }

  /** Bit 5 of the first letter marks a chunk that a decoder may skip. */
  predicate Ancillary(c: Chunk) {
    c.kind != [] && c.kind[0] / 32 % 2 == 1
  }

  predicate Has(cs: seq<Chunk>, kind: seq<byte>) {
    exists c | c in cs :: c.kind == kind
  }

  /** What chunk `i` must satisfy, given the header, the chunks before it, and its place. */
  predicate ChunkInPlace(cs: seq<Chunk>, i: nat, width: int, height: int)
    requires i < |cs|
  {
    var c := cs[i];
    var before := cs[..i];
    if i == 0 then LegalHeader(c, width, height)
    else
      && |cs[0].data| == 13
      && var header := HeaderOf(cs[0]);
      if c.kind == IHDR then false
      else if c.kind == PLTE then LegalPalette(c, header) && !Has(before, PLTE) && !Has(before, IDAT)
      else if c.kind == IDAT then
        && (header.colorType == 3 ==> Has(before, PLTE))
        && (Has(before, IDAT) ==> cs[i - 1].kind == IDAT)
      else if c.kind == IEND then c.data == [] && i == |cs| - 1
      else Ancillary(c)
  }

  /**
   The grammar: a header first and only there, at most one palette and before the image
   data, image data present and consecutive, no unknown critical chunk, one empty end
   chunk and nothing after it.
   */
  ghost predicate WellFormed(cs: seq<Chunk>, width: int, height: int) {
    && 1 <= |cs| <= 4096
    && (forall i | 0 <= i < |cs| :: ChunkInPlace(cs, i, width, height))
    && Has(cs, IDAT)
    && cs[|cs| - 1].kind == IEND
  }

  /** The compressed image: the data of the IDAT chunks, joined. */
  function ImageData(cs: seq<Chunk>): seq<byte> {
    if cs == [] then []
    else
      var last := cs[|cs| - 1];
      ImageData(cs[..|cs| - 1]) + if last.kind == IDAT then last.data else []
  }
}
