/**
 Finding the package manifest in an unpacked tarball: the walk over 512-byte blocks, and
 the ustar entries it is meant to read. Decoding bytes to text is a given function.
 */
module TarWalker {
  import opened Prelude

  type Decode = seq<byte> -> string

  const BLOCK: nat := 512

  datatype Outcome = Found(content: seq<byte>) | Missing | InvalidSize

  // ----- text fields

  predicate IsSpace(c: char) {
    c in "\t\n\U{0B}\U{0C}\r \U{A0}\U{1680}\U{2028}\U{2029}\U{202F}\U{205F}\U{3000}\U{FEFF}"
    || '\U{2000}' <= c <= '\U{200A}'
  }

  function TrimStart(s: string): string {
    if s != "" && IsSpace(s[0]) then TrimStart(s[1..]) else s
  }

  function TrimEnd(s: string): string {
    if s != "" && IsSpace(s[|s| - 1]) then TrimEnd(s[..|s| - 1]) else s
  }

  function Trim(s: string): string {
    TrimEnd(TrimStart(s))
  }

  /** The first zero byte at or after an index. */
  function IndexOfZero(buffer: seq<byte>, start: nat): Option<nat>
    decreases |buffer| - start
  {
    if start >= |buffer| then None
    else if buffer[start] == 0 then Some(start)
    else IndexOfZero(buffer, start + 1)
  }

  function FieldEnd(buffer: seq<byte>, start: nat, length: nat): nat {
    var end := IndexOfZero(buffer, start);
    if end.None? || end.value > start + length then start + length else end.value
  }

  function ReadTarString(buffer: seq<byte>, start: nat, length: nat, decode: Decode): string
    requires start + length <= |buffer|
  {
    IndexOfZeroAfter(buffer, start);
    Trim(decode(buffer[start..FieldEnd(buffer, start, length)]))
  }

  lemma {:induction false} IndexOfZeroAfter(buffer: seq<byte>, start: nat)
    ensures IndexOfZero(buffer, start).Some? ==> start <= IndexOfZero(buffer, start).value < |buffer|
    decreases |buffer| - start
  {
    if start < |buffer| && buffer[start] != 0 {
      IndexOfZeroAfter(buffer, start + 1);
    }
  }

  // ----- octal sizes

  predicate IsOctal(c: char) {
    '0' <= c <= '7'
  }

  function DigitValue(c: char): (n: nat)
    requires IsOctal(c)
    ensures n < 8
  {
    var code := c as int;
    assert '0' as int <= code <= '7' as int;
    code - 48
  }

  /** The longest prefix of octal digits. */
  function OctalPrefix(s: string): string {
    if s != "" && IsOctal(s[0]) then [s[0]] + OctalPrefix(s[1..]) else ""
  }

  function OctalValue(digits: string): nat
    requires forall c | c in digits :: IsOctal(c)
  {
    if digits == "" then 0
    else
      var last := digits[|digits| - 1];
      assert last in digits;
      8 * OctalValue(digits[..|digits| - 1]) + DigitValue(last)
  }

  lemma {:induction false} OctalPrefixIsOctal(s: string)
    ensures forall c | c in OctalPrefix(s) :: IsOctal(c)
  {
    if s != "" && IsOctal(s[0]) {
      OctalPrefixIsOctal(s[1..]);
    }
  }

  /** `Number.parseInt(text, 8)` of a trimmed text; None is NaN. */
  function ParseOctal(text: string): Option<int> {
    var negative := text != "" && text[0] == '-';
    var digits := OctalPrefix(if text != "" && text[0] in "+-" then text[1..] else text);
    if digits == "" then None
    else
      OctalPrefixIsOctal(if text != "" && text[0] in "+-" then text[1..] else text);
      var value: int := OctalValue(digits);
      Some(if negative then -value else value)
  }

  /** The size of an entry; None is the error for a text that is not a size. */
  function EntrySize(text: string): Option<nat> {
    if text == "" then Some(0)
    else
      var parsed := ParseOctal(text);
      if parsed.None? || parsed.value < 0 then None else Some(parsed.value)
  }

  /** Trimming drops white space at both ends, all of it, and nothing else. */
  lemma {:induction false} TrimIs(text: string)
    ensures exists a, b :: text == a + Trim(text) + b && (forall c | c in a + b :: IsSpace(c))
    ensures Trim(text) != "" ==> !IsSpace(Trim(text)[0]) && !IsSpace(Trim(text)[|Trim(text)| - 1])
  {
    hide IsSpace;
    var a := StartTrimmed(text);
    var b := EndTrimmed(TrimStart(text));
    assert text == a + Trim(text) + b;
    if Trim(text) != "" {
      assert Trim(text)[0] == TrimStart(text)[0];
    }
  }

  lemma {:induction false} StartTrimmed(text: string) returns (a: string)
    ensures text == a + TrimStart(text) && forall c | c in a :: IsSpace(c)
    ensures TrimStart(text) != "" ==> !IsSpace(TrimStart(text)[0])
  {
    hide IsSpace;
    a := "";
    if text != "" && IsSpace(text[0]) {
      a := StartTrimmed(text[1..]);
      assert text == [text[0]] + text[1..];
      a := [text[0]] + a;
    }
  }

  lemma {:induction false} EndTrimmed(text: string) returns (b: string)
    ensures text == TrimEnd(text) + b && forall c | c in b :: IsSpace(c)
    ensures TrimEnd(text) != "" ==> !IsSpace(TrimEnd(text)[|TrimEnd(text)| - 1])
  {
    hide IsSpace;
    b := "";
    if text != "" && IsSpace(text[|text| - 1]) {
      b := EndTrimmed(text[..|text| - 1]);
      assert text == text[..|text| - 1] + [text[|text| - 1]];
      b := b + [text[|text| - 1]];
    }
  }

  /** The text from its first digit on: a sign is no part of it. */
  function Unsigned(text: string): string {
    if text != "" && (text[0] == '+' || text[0] == '-') then text[1..] else text
  }

  /** The first `n` characters are octal digits, and no more of them. */
  predicate StartsWithDigits(s: string, n: nat) {
    n <= |s| && (forall i | 0 <= i < n :: '0' <= s[i] <= '7') && (n < |s| ==> !('0' <= s[n] <= '7'))
  }

  lemma {:induction false} PrefixIsRun(s: string, n: nat)
    requires StartsWithDigits(s, n)
    ensures OctalPrefix(s) == s[..n]
  {
    if n > 0 {
      assert s == [s[0]] + s[1..];
      PrefixIsRun(s[1..], n - 1);
    }
  }

  /** A size is refused if and only if it does not start with an octal digit or is below zero;
      an absent size is zero, and characters behind the digits are ignored. */
  lemma SizeErrorIff(text: string, n: nat)
    requires StartsWithDigits(Unsigned(text), n)
    ensures EntrySize(text).None? <==>
              text != "" && (n == 0 || (text[0] == '-' && exists i | 0 <= i < n :: Unsigned(text)[i] != '0'))
    ensures EntrySize(text).Some? ==>
              (forall i | 0 <= i < n :: IsOctal(Unsigned(text)[i])) && EntrySize(text).value == OctalValue(Unsigned(text)[..n])
  {
    hide OctalValue;
    var digits := Unsigned(text)[..n];
    PrefixIsRun(Unsigned(text), n);
    ValueIsPositive(digits);
    assert forall i | 0 <= i < n :: digits[i] == Unsigned(text)[i];
    NoDigits();
  }

  lemma NoDigits()
    ensures OctalValue("") == 0
  {
  }

  lemma {:induction false} ValueIsPositive(digits: string)
    requires forall c | c in digits :: IsOctal(c)
    ensures OctalValue(digits) > 0 <==> exists i | 0 <= i < |digits| :: digits[i] != '0'
  {
    if digits != "" {
      var init, last := digits[..|digits| - 1], digits[|digits| - 1];
      ValueIsPositive(init);
      assert last in digits;
      assert forall i | 0 <= i < |init| :: init[i] == digits[i];
      assert DigitValue(last) > 0 <==> last != '0';
    }
  }

  // ----- the walk

  predicate AllZero(b: seq<byte>) {
    forall i | 0 <= i < |b| :: b[i] == 0
  }

  function Blocks(size: nat): nat {
    (size + 511) / 512 * 512
  }

  lemma BlocksCover(size: nat)
    ensures size <= Blocks(size) < size + 512 && Blocks(size) % 512 == 0
  {
  }

  function EntryPath(header: seq<byte>, decode: Decode): string
    requires |header| == BLOCK
  {
    Joined(ReadTarString(header, 345, 155, decode), ReadTarString(header, 0, 100, decode))
  }

  function Joined(prefix: string, name: string): string {
    if prefix != "" then prefix + "/" + name else name
  }

  predicate IsManifest(path: string) {
    path == "package/package.json" || path == "package.json"
  }

  /** The content of an entry, cut off where the archive ends. */
  function ContentAt(archive: seq<byte>, start: nat, size: nat): seq<byte>
    requires start <= |archive|
  {
    archive[start..Min(start + size, |archive|)]
  }

  /** The loop from an offset. */
  function Walk(archive: seq<byte>, offset: nat, decode: Decode): Outcome
    decreases |archive| - offset
  {
    if offset + 512 > |archive| then Missing
    else
      var header := archive[offset..offset + 512];
      if AllZero(header) then Missing
      else
        var size := EntrySize(ReadTarString(header, 124, 12, decode));
        if size.None? then InvalidSize
        else if IsManifest(EntryPath(header, decode)) then Found(ContentAt(archive, offset + 512, size.value))
        else Walk(archive, offset + 512 + Blocks(size.value), decode)
  }

  /** A walk over headers: each is a whole block, and the next one at least 512 bytes on. */
  ghost predicate BlockWise(offsets: seq<nat>, archive: seq<byte>) {
    && (forall i | 0 <= i < |offsets| :: offsets[i] % 512 == 0 && offsets[i] + 512 <= |archive|)
    && (forall i | 0 < i < |offsets| :: offsets[i - 1] + 512 <= offsets[i])
    && (offsets != [] ==> offsets[0] == 0)
  }

  /** The loop stands at the first block, or at least a block behind the last header it read. */
  ghost predicate StandsAt(offsets: seq<nat>, archive: seq<byte>, offset: nat) {
    && BlockWise(offsets, archive) && offset % 512 == 0 && 512 * |offsets| <= offset
    && (if offsets == [] then offset == 0 else offsets[|offsets| - 1] + 512 <= offset)
  }

  lemma ReadsHeader(offsets: seq<nat>, archive: seq<byte>, offset: nat)
    requires StandsAt(offsets, archive, offset) && offset + 512 <= |archive|
    ensures BlockWise(offsets + [offset], archive) && 512 * |offsets + [offset]| <= |archive|
    ensures forall size: nat :: StandsAt(offsets + [offset], archive, offset + 512 + Blocks(size))
  {
    forall size: nat ensures Blocks(size) % 512 == 0 {
      BlocksCover(size);
    }
  }

  lemma NothingRead(archive: seq<byte>)
    ensures BlockWise([], archive) && StandsAt([], archive, 0)
  {
  }

  /** `readPackedPackageJson` up to the JSON parser; `offsets` are those of the headers it reads. */
  method ReadPackedPackageJson(archive: seq<byte>, decode: Decode) returns (outcome: Outcome, ghost offsets: seq<nat>)
    ensures outcome == Walk(archive, 0, decode)
    ensures BlockWise(offsets, archive) && 512 * |offsets| <= |archive|
  {
    hide ReadTarString, EntrySize, AllZero, BlockWise, StandsAt;
    var offset := 0;
    offsets := [];
    NothingRead(archive);
    while offset + 512 <= |archive|
      invariant StandsAt(offsets, archive, offset)
      invariant BlockWise(offsets, archive) && 512 * |offsets| <= |archive|
      invariant Walk(archive, 0, decode) == Walk(archive, offset, decode)
      decreases |archive| - offset
    {
      var header := archive[offset..offset + 512];
      ReadsHeader(offsets, archive, offset);
      offsets := offsets + [offset];
      if AllZero(header) {
        break;
      }
      var name := ReadTarString(header, 0, 100, decode);
      var prefix := ReadTarString(header, 345, 155, decode);
      var entryPath := if prefix != "" then prefix + "/" + name else name;
      var sizeText := ReadTarString(header, 124, 12, decode);
      var size := EntrySize(sizeText);
      if size.None? {
        return InvalidSize, offsets;
      }
      var contentStart := offset + 512;
      if entryPath == "package/package.json" || entryPath == "package.json" {
        return Found(archive[contentStart..Min(contentStart + size.value, |archive|)]), offsets;
      }
      offset := contentStart + Blocks(size.value);
    }
    outcome := Missing;
  }

  // ----- archives

  /** An entry of a ustar archive; the fields the walk does not read are kept as bytes. */
  datatype Entry = Entry(
    name: seq<byte>,
    prefix: seq<byte>,
    ids: seq<byte>,
    rest: seq<byte>,
    tail: seq<byte>,
    content: seq<byte>)

  const MAX_SIZE: nat := 0x2_0000_0000  // eleven octal digits

  predicate NoZero(b: seq<byte>) {
    forall i | 0 <= i < |b| :: b[i] != 0
  }

  predicate ValidEntry(e: Entry) {
    && |e.name| <= 100 && NoZero(e.name)
    && |e.prefix| <= 155 && NoZero(e.prefix)
    && |e.ids| == 24 && |e.rest| == 209 && |e.tail| == 12
    && |e.content| < MAX_SIZE
  }

  function Zeros(n: nat): seq<byte> {
    seq(n, _ => 0)
  }

  function OctalText(n: nat, width: nat): (s: string)
    ensures |s| == width && forall c | c in s :: IsOctal(c)
  {
    if width == 0 then ""
    else OctalText(n / 8, width - 1) + [['0', '1', '2', '3', '4', '5', '6', '7'][n % 8]]
  }

  function DigitByte(c: char): byte
    requires IsOctal(c)
  {
    48 + DigitValue(c)
  }

  /** Octal digits as bytes. */
  function AsciiBytes(s: string): (b: seq<byte>)
    requires forall c | c in s :: IsOctal(c)
    ensures |b| == |s| && NoZero(b)
  {
    seq(|s|, i requires 0 <= i < |s| => assert s[i] in s; DigitByte(s[i]))
  }

  /** A header block: name, ids, size, other fields, prefix, padding. */
  function Header(e: Entry): (h: seq<byte>)
    requires ValidEntry(e)
    ensures |h| == BLOCK
  {
    e.name + Zeros(100 - |e.name|) + e.ids
    + AsciiBytes(OctalText(|e.content|, 11)) + [0]
    + e.rest + e.prefix + Zeros(155 - |e.prefix|) + e.tail
  }

  function Padded(content: seq<byte>): seq<byte> {
    BlocksCover(|content|);
    content + Zeros(Blocks(|content|) - |content|)
  }

  function Serialize(entries: seq<Entry>): seq<byte>
    requires forall e | e in entries :: ValidEntry(e)
  {
    if entries == [] then [] else Header(entries[0]) + Padded(entries[0].content) + Serialize(entries[1..])
  }

  /** The path of an entry, as its own name and prefix give it. */
  function PathOf(e: Entry, decode: Decode): string {
    Joined(decode(e.prefix), decode(e.name))
  }

  /** The path as the walk reads it: white space around name and prefix is dropped. */
  function PathRead(e: Entry, decode: Decode): string {
    Joined(Trim(decode(e.prefix)), Trim(decode(e.name)))
  }

  predicate NamesManifest(e: Entry, decode: Decode) {
    PathOf(e, decode) in {"package/package.json", "package.json"}
  }

  predicate TakenForManifest(e: Entry, decode: Decode) {
    IsManifest(PathRead(e, decode))
  }

  /** An entry that is taken for the manifest because of the trimming. */
  predicate Mistaken(e: Entry, decode: Decode) {
    TakenForManifest(e, decode) && !NamesManifest(e, decode)
  }

  /** The first entry with a property, or the number of entries. */
  function FirstWith(entries: seq<Entry>, p: Entry -> bool): (i: nat)
    ensures i <= |entries|
    ensures i < |entries| ==> p(entries[i])
    ensures forall j | 0 <= j < i :: !p(entries[j])
  {
    if entries == [] || p(entries[0]) then 0
    else
      FirstWith(entries[1..], p) + 1
  }

  /** What a reader wants: the first entry with a manifest's path. */
  function FirstManifest(entries: seq<Entry>, decode: Decode): nat {
    FirstWith(entries, (e: Entry) => NamesManifest(e, decode))
  }

  /** The entry that the walk takes. */
  function FirstTaken(entries: seq<Entry>, decode: Decode): nat {
    FirstWith(entries, (e: Entry) => TakenForManifest(e, decode))
  }

  function ContentOf(entries: seq<Entry>, i: nat): Outcome {
    if i < |entries| then Found(entries[i].content) else Missing
  }

  /** The decoder reads octal digits as themselves, and nothing as nothing. */
  ghost predicate DecodesDigits(decode: Decode) {
    forall s: string | forall c | c in s :: IsOctal(c) :: decode(AsciiBytes(s)) == s
  }

  // ----- reading back what was written

  lemma {:induction false} NoZeroSkipped(buffer: seq<byte>, start: nat, n: nat)
    requires start + n <= |buffer| && forall i | start <= i < start + n :: buffer[i] != 0
    ensures IndexOfZero(buffer, start) == IndexOfZero(buffer, start + n)
    decreases n
  {
    if n > 0 {
      NoZeroSkipped(buffer, start + 1, n - 1);
    }
  }

  /** A field holds its text up to the first zero byte, or to its full length. */
  lemma {:induction false} FieldRead(buffer: seq<byte>, start: nat, length: nat, text: seq<byte>)
    requires start + length <= |buffer| && |text| <= length && NoZero(text)
    requires buffer[start..start + |text|] == text
    requires |text| < length ==> buffer[start + |text|] == 0
    ensures FieldEnd(buffer, start, length) == start + |text|
  {
    forall i | start <= i < start + |text| ensures buffer[i] != 0 {
      assert buffer[i] == buffer[start..start + |text|][i - start];
    }
    NoZeroSkipped(buffer, start, |text|);
    IndexOfZeroAfter(buffer, start + |text|);
  }

  function Front(e: Entry): seq<byte>
    requires ValidEntry(e)
  {
    e.name + Zeros(100 - |e.name|) + e.ids
  }

  function Back(e: Entry): seq<byte>
    requires ValidEntry(e)
  {
    e.rest + e.prefix + Zeros(155 - |e.prefix|) + e.tail
  }

  lemma {:induction false} HeaderSplits(e: Entry)
    requires ValidEntry(e)
    ensures var h := Header(e);
            && h[124..135] == AsciiBytes(OctalText(|e.content|, 11)) && h[135] == 0
            && |Front(e)| == 124 && |Back(e)| == 376
            && (forall i | 0 <= i < 124 :: h[i] == Front(e)[i])
            && forall i | 0 <= i < 376 :: h[136 + i] == Back(e)[i]
  {
    var size := AsciiBytes(OctalText(|e.content|, 11));
    assert Header(e) == Front(e) + size + [0] + Back(e);
    HeaderParts(Header(e), Front(e), size, Back(e));
  }

  lemma {:induction false} NameField(e: Entry)
    requires ValidEntry(e)
    ensures FieldEnd(Header(e), 0, 100) == |e.name| && Header(e)[0..|e.name|] == e.name
  {
    hide Header, FieldEnd;
    HeaderSplits(e);
    FieldRead(Header(e), 0, 100, e.name);
  }

  lemma {:induction false} PrefixField(e: Entry)
    requires ValidEntry(e)
    ensures FieldEnd(Header(e), 345, 155) == 345 + |e.prefix| && Header(e)[345..345 + |e.prefix|] == e.prefix
  {
    hide Header, FieldEnd;
    HeaderSplits(e);
    var h, back := Header(e), Back(e);
    assert forall i | 0 <= i < |e.prefix| :: h[345 + i] == back[209 + i] == e.prefix[i];
    assert |e.prefix| < 155 ==> h[345 + |e.prefix|] == back[209 + |e.prefix|] == 0;
    FieldRead(h, 345, 155, e.prefix);
  }

  lemma {:induction false} SizeField(e: Entry)
    requires ValidEntry(e)
    ensures FieldEnd(Header(e), 124, 12) == 135
    ensures Header(e)[124..135] == AsciiBytes(OctalText(|e.content|, 11)) && !AllZero(Header(e))
  {
    hide Header, FieldEnd;
    HeaderSplits(e);
    var size := AsciiBytes(OctalText(|e.content|, 11));
    FieldRead(Header(e), 124, 12, size);
    assert Header(e)[124] == size[0] != 0;
  }

  lemma {:induction false} HeaderParts(h: seq<byte>, front: seq<byte>, size: seq<byte>, back: seq<byte>)
    requires |front| == 124 && |size| == 11 && h == front + size + [0] + back
    ensures h[124..135] == size && h[135] == 0
    ensures forall i | 0 <= i < 124 :: h[i] == front[i]
    ensures forall i | 0 <= i < |back| :: h[136 + i] == back[i]
    ensures |h| == 136 + |back|
  {
  }

  function Pow8(n: nat): nat {
    if n == 0 then 1 else 8 * Pow8(n - 1)
  }

  lemma {:induction false} OctalRoundTrip(n: nat, width: nat)
    requires n < Pow8(width)
    ensures OctalValue(OctalText(n, width)) == n
  {
    if width > 0 {
      OctalRoundTrip(n / 8, width - 1);
      var text := OctalText(n, width);
      assert text[..|text| - 1] == OctalText(n / 8, width - 1);
      assert DigitValue(text[|text| - 1]) == n % 8;
    }
  }

  lemma OctalIsNoSpace(c: char)
    requires IsOctal(c)
    ensures !IsSpace(c)
  {
  }

  lemma {:induction false} AllOctal(s: string)
    requires forall c | c in s :: IsOctal(c)
    ensures OctalPrefix(s) == s && Trim(s) == s
  {
    hide IsSpace, IsOctal;
    if s != "" {
      OctalIsNoSpace(s[0]);
      OctalIsNoSpace(s[|s| - 1]);
      assert s == [s[0]] + s[1..];
      PrefixOfOctal(s);
    }
  }

  lemma {:induction false} PrefixOfOctal(s: string)
    requires forall c | c in s :: IsOctal(c)
    ensures OctalPrefix(s) == s
  {
    if s != "" {
      PrefixOfOctal(s[1..]);
      assert s == [s[0]] + s[1..];
    }
  }

  lemma {:induction false} SizeRoundTrip(n: nat)
    requires n < MAX_SIZE
    ensures EntrySize(OctalText(n, 11)) == Some(n)
  {
    var text := OctalText(n, 11);
    assert text[0] in text;
    assert Pow8(11) == MAX_SIZE by {
      assert Pow8(4) == 4096;
      assert Pow8(8) == 4096 * 4096;
    }
    AllOctal(text);
    OctalRoundTrip(n, 11);
  }

  /** The header of an entry reads back as its path and its size. */
  lemma {:induction false} HeaderRoundTrip(e: Entry, decode: Decode)
    requires ValidEntry(e) && DecodesDigits(decode)
    ensures !AllZero(Header(e))
    ensures EntryPath(Header(e), decode) == PathRead(e, decode)
    ensures EntrySize(ReadTarString(Header(e), 124, 12, decode)) == Some(|e.content|)
  {
    hide Header, FieldEnd, AllZero, EntrySize, Trim;
    NameField(e);
    PrefixField(e);
    SizeField(e);
    SizeRoundTrip(|e.content|);
    AllOctal(OctalText(|e.content|, 11));
  }

  /** One turn of the loop at an entry. */
  lemma {:induction false} WalkAtEntry(archive: seq<byte>, offset: nat, e: Entry, more: seq<byte>, decode: Decode)
    requires ValidEntry(e) && DecodesDigits(decode) && offset <= |archive|
    requires archive[offset..] == Header(e) + Padded(e.content) + more
    ensures var next := offset + 512 + Blocks(|e.content|);
            && next <= |archive| && archive[next..] == more
            && Walk(archive, offset, decode) ==
                 if TakenForManifest(e, decode) then Found(e.content) else Walk(archive, next, decode)
  {
    hide Header, EntryPath, PathRead, IsManifest, EntrySize, ReadTarString, AllZero, Blocks;
    BlocksCover(|e.content|);
    HeaderRoundTrip(e, decode);
    var next := offset + 512 + Blocks(|e.content|);
    var tail := archive[offset..];
    assert archive[offset..offset + 512] == tail[..512] == Header(e);
    assert tail[512..] == Padded(e.content) + more && Padded(e.content)[..|e.content|] == e.content;
    assert archive[offset + 512..offset + 512 + |e.content|] == tail[512..][..|e.content|] == e.content;
    assert archive[next..] == tail[512 + Blocks(|e.content|)..] == more;
  }

  /** Nothing but zero bytes: the end marker of an archive, of any length. */
  lemma {:induction false} WalkAtEnd(archive: seq<byte>, offset: nat, decode: Decode)
    requires offset <= |archive| && AllZero(archive[offset..])
    ensures Walk(archive, offset, decode) == Missing
  {
    if offset + 512 <= |archive| {
      assert forall i | 0 <= i < 512 :: archive[offset..offset + 512][i] == archive[offset..][i];
    }
  }

  /** The walk over any archive, written as headers and zero-padded contents and closed by zero
      bytes, returns the content of the entry it takes for the manifest, or finds none. */
  lemma {:induction false} WalkTakesFirst(archive: seq<byte>, offset: nat, entries: seq<Entry>, trailer: seq<byte>,
                                          decode: Decode)
    requires forall e | e in entries :: ValidEntry(e)
    requires DecodesDigits(decode) && AllZero(trailer) && offset <= |archive|
    requires archive[offset..] == Serialize(entries) + trailer
    ensures Walk(archive, offset, decode) == ContentOf(entries, FirstTaken(entries, decode))
    decreases |entries|
  {
    hide Header, Walk, ValidEntry, Padded, TakenForManifest;
    if entries == [] {
      assert archive[offset..] == trailer;
      WalkAtEnd(archive, offset, decode);
    } else {
      var e, rest := entries[0], entries[1..];
      var more := Serialize(rest) + trailer;
      assert archive[offset..] == Header(e) + Padded(e.content) + more;
      WalkAtEntry(archive, offset, e, more, decode);
      WalkTakesFirst(archive, offset + 512 + Blocks(|e.content|), rest, trailer, decode);
    }
  }

  // ----- trimming

  predicate Outer(text: string) {
    text != "" && (IsSpace(text[0]) || IsSpace(text[|text| - 1]))
  }

  /** A name or prefix that begins or ends with white space. */
  predicate Spaced(e: Entry, decode: Decode) {
    Outer(decode(e.name)) || Outer(decode(e.prefix))
  }

  lemma ManifestSplits(prefix: string, name: string)
    requires prefix != "" && IsManifest(prefix + "/" + name)
    ensures prefix == "package" && name == "package.json"
  {
    var path := prefix + "/" + name;
    assert path[|prefix|] == '/' && |path| == |prefix| + 1 + |name|;
    if path == "package/package.json" {
      assert |prefix| == 7;
      assert prefix == path[..7] && name == path[8..];
    }
  }

  /** A manifest's path has no white space to lose, however it is split. */
  lemma ManifestParts(prefix: string, name: string)
    requires IsManifest(Joined(prefix, name))
    ensures !Outer(name) && !Outer(prefix)
  {
    assert !IsSpace('p') && !IsSpace('n') && !IsSpace('e');
    hide IsSpace;
    if prefix != "" {
      ManifestSplits(prefix, name);
    }
  }

  lemma TrimKeeps(text: string)
    requires !Outer(text)
    ensures Trim(text) == text
  {
  }

  /** Without outer white space the walk reads the path itself. */
  lemma UnspacedPath(e: Entry, decode: Decode)
    requires !Spaced(e, decode)
    ensures PathRead(e, decode) == PathOf(e, decode)
  {
    TrimKeeps(decode(e.name));
    TrimKeeps(decode(e.prefix));
  }

  /** A manifest is always taken for one; what is mistaken for one has outer white space. */
  lemma ManifestIsTaken(e: Entry, decode: Decode)
    ensures NamesManifest(e, decode) ==> TakenForManifest(e, decode)
    ensures Mistaken(e, decode) ==> Spaced(e, decode)
  {
    if NamesManifest(e, decode) {
      ManifestParts(decode(e.prefix), decode(e.name));
      UnspacedPath(e, decode);
    } else if !Spaced(e, decode) {
      UnspacedPath(e, decode);
    }
  }

  /** The walk takes the first manifest, if and only if no entry before it is mistaken for one. */
  lemma TakesManifestIff(entries: seq<Entry>, decode: Decode)
    ensures FirstTaken(entries, decode) == FirstManifest(entries, decode)
            <==> forall j | 0 <= j < FirstManifest(entries, decode) :: !Mistaken(entries[j], decode)
  {
    hide TakenForManifest, NamesManifest;
    var wanted, taken := FirstManifest(entries, decode), FirstTaken(entries, decode);
    if wanted < |entries| {
      ManifestIsTaken(entries[wanted], decode);
    }
    if taken < wanted {
      assert Mistaken(entries[taken], decode);
    }
  }

  /**
   Round trip: over any archive whose names and prefixes neither begin nor end with white space,
   the walk returns the content of the first entry whose path is a manifest's, or finds none.
   */
  lemma WalkFindsFirstManifest(archive: seq<byte>, entries: seq<Entry>, trailer: seq<byte>, decode: Decode)
    requires forall e | e in entries :: ValidEntry(e) && !Spaced(e, decode)
    requires DecodesDigits(decode) && AllZero(trailer)
    requires archive == Serialize(entries) + trailer
    ensures Walk(archive, 0, decode) == ContentOf(entries, FirstManifest(entries, decode))
  {
    hide Walk, Serialize, Mistaken, Spaced;
    assert archive[0..] == archive;
    WalkTakesFirst(archive, 0, entries, trailer, decode);
    forall j | 0 <= j < |entries| ensures !Mistaken(entries[j], decode) {
      ManifestIsTaken(entries[j], decode);
    }
    TakesManifestIff(entries, decode);
  }

  /** Each byte is one character. */
  function Latin1(b: seq<byte>): string {
    seq(|b|, i requires 0 <= i < |b| => b[i] as char)
  }

  const MANIFEST_BYTES: seq<byte> := [112, 97, 99, 107, 97, 103, 101, 46, 106, 115, 111, 110]

  function Plain(name: seq<byte>, content: seq<byte>): Entry {
    Entry(name, [], Zeros(24), Zeros(209), Zeros(12), content)
  }

  lemma Latin1Names()
    ensures Latin1(MANIFEST_BYTES) == "package.json"
    ensures Latin1(MANIFEST_BYTES + [32]) == "package.json "
    ensures Trim("package.json ") == "package.json"
  {
    assert !IsSpace('p') && IsSpace(' ');
    assert "package.json "[..12] == "package.json";
    TrimKeeps("package.json");
  }

  /** An archive where the first manifest is not found: the entry before it has a blank after its name. */
  lemma BlankHidesManifest()
    ensures var entries := [Plain(MANIFEST_BYTES + [32], [1]), Plain(MANIFEST_BYTES, [2])];
            && (forall e | e in entries :: ValidEntry(e)) && DecodesDigits(Latin1)
            && ContentOf(entries, FirstManifest(entries, Latin1)) == Found([2])
            && Walk(Serialize(entries) + Zeros(1024), 0, Latin1) == Found([1])
  {
    hide Walk, Serialize, Trim, IsSpace;
    var entries := [Plain(MANIFEST_BYTES + [32], [1]), Plain(MANIFEST_BYTES, [2])];
    Latin1Names();
    Latin1Digits();
    assert Latin1([]) == "" && Trim("") == "" by { TrimKeeps(""); }
    assert !NamesManifest(entries[0], Latin1) && NamesManifest(entries[1], Latin1);
    assert FirstManifest(entries, Latin1) == 1 && FirstTaken(entries, Latin1) == 0;
    var archive := Serialize(entries) + Zeros(1024);
    assert archive[0..] == archive;
    WalkTakesFirst(archive, 0, entries, Zeros(1024), Latin1);
  }

  lemma Latin1Digits()
    ensures DecodesDigits(Latin1)
  {
    forall s: string | forall c | c in s :: IsOctal(c) ensures Latin1(AsciiBytes(s)) == s {
      forall i | 0 <= i < |s| ensures Latin1(AsciiBytes(s))[i] == s[i] {
        assert s[i] in s;
      }
    }
  }
}
