/**
 Base64 (RFC 4648, section 4) and base64url without padding (section 5), and the two
 length computations that stand in for decoding and encoding.
 */
module Base64 {
  import opened Prelude

  const RESPONSE_JSON_OVERHEAD_BYTES: nat := 64 * 1024
  const MAX_SAFE_INTEGER: nat := 0x1F_FFFF_FFFF_FFFF

  type sextet = x: int | 0 <= x < 64

  // ----- one character

  function CharOf(v: sextet): char {
    if v < 26 then 'A' + v as char
    else if v < 52 then 'a' + (v - 26) as char
    else if v < 62 then '0' + (v - 52) as char
    else if v == 62 then '+'
    else '/'
  }

  predicate InAlphabet(c: char) {
    'A' <= c <= 'Z' || 'a' <= c <= 'z' || '0' <= c <= '9' || c == '+' || c == '/'
  }

  function ValueOf(c: char): sextet {
    if 'A' <= c <= 'Z' then (c - 'A') as int
    else if 'a' <= c <= 'z' then (c - 'a') as int + 26
    else if '0' <= c <= '9' then (c - '0') as int + 52
    else if c == '+' then 62
    else if c == '/' then 63
    else 0
  }

  lemma CharRoundTrip(v: sextet)
    ensures InAlphabet(CharOf(v)) && CharOf(v) != '=' && ValueOf(CharOf(v)) == v
  {
  }

  const ALPHABET: string := "ABCDEFGHIJKLMNOPQRSTUVWXYZ" + "abcdefghijklmnopqrstuvwxyz" + "0123456789+/"

  /** Each value is written as the character at its place in the alphabet, and read back from it. */
  lemma AlphabetOfTheStandard()
    ensures |ALPHABET| == 64
    ensures forall v: sextet :: CharOf(v) == ALPHABET[v] && ValueOf(ALPHABET[v]) == v
    ensures forall c :: InAlphabet(c) <==> c in ALPHABET
  {
    AlphabetRanges();
    forall v: sextet ensures CharOf(v) == ALPHABET[v] && ValueOf(ALPHABET[v]) == v {
      CharRoundTrip(v);
    }
    forall c ensures InAlphabet(c) <==> c in ALPHABET {
      if InAlphabet(c) {
        assert CharOf(ValueOf(c)) == c;
        assert ALPHABET[ValueOf(c)] == c;
      }
    }
  }

  lemma AlphabetRanges()
    ensures |ALPHABET| == 64 && ALPHABET[62] == '+' && ALPHABET[63] == '/'
    ensures forall v | 0 <= v < 26 :: ALPHABET[v] == 'A' + v as char
    ensures forall v | 26 <= v < 52 :: ALPHABET[v] == 'a' + (v - 26) as char
    ensures forall v | 52 <= v < 62 :: ALPHABET[v] == '0' + (v - 52) as char
  {
    UpperCase("ABCDEFGHIJKLMNOPQRSTUVWXYZ");
  }

  lemma UpperCase(letters: string)
    requires letters == "ABCDEFGHIJKLMNOPQRSTUVWXYZ"
    ensures forall v | 0 <= v < 26 :: letters[v] == 'A' + v as char
  {
  }

  // ----- groups of three bytes and four characters

  function Quad(b0: byte, b1: byte, b2: byte): (q: string)
    ensures |q| == 4
  {
    [CharOf(b0 / 4), CharOf(b0 % 4 * 16 + b1 / 16), CharOf(b1 % 16 * 4 + b2 / 64), CharOf(b2 % 64)]
  }

  function ToBase64(b: seq<byte>): string {
    if b == [] then ""
    else if |b| == 1 then Quad(b[0], 0, 0)[..2] + "=="
    else if |b| == 2 then Quad(b[0], b[1], 0)[..3] + "="
    else Quad(b[0], b[1], b[2]) + ToBase64(b[3..])
  }

  function FirstByte(c0: char, c1: char): byte {
    ValueOf(c0) * 4 + ValueOf(c1) / 16
  }

  function SecondByte(c1: char, c2: char): byte {
    ValueOf(c1) % 16 * 16 + ValueOf(c2) / 4
  }

  function ThirdByte(c2: char, c3: char): byte {
    ValueOf(c2) % 4 * 64 + ValueOf(c3)
  }

  /** The bytes of a string of whole groups; a trailing part of a group is ignored. */
  function FromBase64(s: string): seq<byte> {
    if |s| < 4 then []
    else if s[2] == '=' then [FirstByte(s[0], s[1])]
    else if s[3] == '=' then [FirstByte(s[0], s[1]), SecondByte(s[1], s[2])]
    else [FirstByte(s[0], s[1]), SecondByte(s[1], s[2]), ThirdByte(s[2], s[3])] + FromBase64(s[4..])
  }

  /** Four characters of the alphabet spell the same 24 bits as the three bytes. */
  lemma QuadSpellsBits(b0: byte, b1: byte, b2: byte)
    ensures exists v0: sextet, v1: sextet, v2: sextet, v3: sextet ::
              && Quad(b0, b1, b2) == [ALPHABET[v0], ALPHABET[v1], ALPHABET[v2], ALPHABET[v3]]
              && ((v0 * 64 + v1) * 64 + v2) * 64 + v3 == (b0 * 256 + b1) * 256 + b2
  {
    hide CharOf;
    AlphabetOfTheStandard();
    var v0: sextet, v1: sextet, v2: sextet, v3: sextet :=
      b0 / 4, b0 % 4 * 16 + b1 / 16, b1 % 16 * 4 + b2 / 64, b2 % 64;
    assert ((v0 * 64 + v1) * 64 + v2) * 64 + v3 == (b0 * 256 + b1) * 256 + b2;
    assert Quad(b0, b1, b2) == [ALPHABET[v0], ALPHABET[v1], ALPHABET[v2], ALPHABET[v3]];
  }

  lemma QuadRoundTrip(b0: byte, b1: byte, b2: byte)
    ensures var q := Quad(b0, b1, b2);
            && FirstByte(q[0], q[1]) == b0 && SecondByte(q[1], q[2]) == b1 && ThirdByte(q[2], q[3]) == b2
            && forall i | 0 <= i < 4 :: InAlphabet(q[i]) && q[i] != '='
  {
    hide CharOf, ValueOf, InAlphabet;
    var v0, v1, v2, v3 := b0 / 4, b0 % 4 * 16 + b1 / 16, b1 % 16 * 4 + b2 / 64, b2 % 64;
    CharRoundTrip(v0);
    CharRoundTrip(v1);
    CharRoundTrip(v2);
    CharRoundTrip(v3);
    BytesOfSextets(b0, b1, b2);
  }

  lemma BytesOfSextets(b0: byte, b1: byte, b2: byte)
    ensures var v0, v1, v2, v3 := b0 / 4, b0 % 4 * 16 + b1 / 16, b1 % 16 * 4 + b2 / 64, b2 % 64;
            v0 * 4 + v1 / 16 == b0 && v1 % 16 * 16 + v2 / 4 == b1 && v2 % 4 * 64 + v3 == b2
  {
  }

  lemma {:induction false} QuadThenRest(q: string, s: string)
    requires |q| == 4 && q[2] != '=' && q[3] != '='
    ensures FromBase64(q + s) == [FirstByte(q[0], q[1]), SecondByte(q[1], q[2]), ThirdByte(q[2], q[3])] + FromBase64(s)
  {
    hide FirstByte, SecondByte, ThirdByte;
    assert (q + s)[4..] == s;
  }

  lemma {:induction false} ShortRoundTrip(b: seq<byte>)
    requires |b| == 1 || |b| == 2
    ensures FromBase64(ToBase64(b)) == b
  {
    hide Quad, FirstByte, SecondByte, ThirdByte, InAlphabet;
    QuadRoundTrip(b[0], if |b| == 2 then b[1] else 0, 0);
  }

  /** Decoding undoes encoding. */
  lemma {:induction false} RoundTrip(b: seq<byte>)
    ensures FromBase64(ToBase64(b)) == b
  {
    hide Quad, FirstByte, SecondByte, ThirdByte, InAlphabet, FromBase64;
    if |b| > 2 {
      QuadRoundTrip(b[0], b[1], b[2]);
      QuadThenRest(Quad(b[0], b[1], b[2]), ToBase64(b[3..]));
      RoundTrip(b[3..]);
      assert b == [b[0], b[1], b[2]] + b[3..];
    } else if b != [] {
      ShortRoundTrip(b);
    } else {
      assert FromBase64("") == [] by { NothingDecoded(); }
    }
  }

  lemma NothingDecoded()
    ensures FromBase64("") == []
  {
  }

  /** Examples of the standard, section 10: "f", "fo", "foo", "foobar". */
  lemma ExamplesOfTheStandard()
    ensures ToBase64([102]) == "Zg==" && ToBase64([102, 111]) == "Zm8=" && ToBase64([102, 111, 111]) == "Zm9v"
    ensures ToBase64([102, 111, 111, 98, 97, 114]) == "Zm9vYmFy"
  {
    assert ToBase64([98, 97, 114]) == "YmFy";
    assert [102, 111, 111, 98, 97, 114][3..] == [98, 97, 114];
  }

  // ----- the shape of encoded text

  /** Characters of the alphabet, then at most two padding signs, in whole groups. */
  ghost predicate Shaped(s: string, padding: nat) {
    && padding <= 2 && padding <= |s| && |s| % 4 == 0
    && (forall i | 0 <= i < |s| - padding :: InAlphabet(s[i]) && s[i] != '=')
    && forall i | |s| - padding <= i < |s| :: s[i] == '='
  }

  function PaddingFor(n: nat): nat {
    (3 - n % 3) % 3
  }

  /** Encoded text has the shape, and four characters for each started group of three bytes. */
  lemma {:induction false} EncodedShape(b: seq<byte>)
    ensures Shaped(ToBase64(b), PaddingFor(|b|))
    ensures |ToBase64(b)| == (|b| + 2) / 3 * 4
  {
    hide Quad, InAlphabet, Shaped, PaddingFor;
    if |b| > 2 {
      QuadRoundTrip(b[0], b[1], b[2]);
      EncodedShape(b[3..]);
      ShapedGrows(Quad(b[0], b[1], b[2]), ToBase64(b[3..]), PaddingFor(|b[3..]|));
      PaddingRepeats(|b[3..]|);
    } else {
      ShortShape(b);
    }
  }

  lemma PaddingRepeats(n: nat)
    ensures PaddingFor(n + 3) == PaddingFor(n) && (n + 3 + 2) / 3 == (n + 2) / 3 + 1
  {
  }

  lemma {:induction false} ShortShape(b: seq<byte>)
    requires |b| <= 2
    ensures Shaped(ToBase64(b), PaddingFor(|b|)) && |ToBase64(b)| == (|b| + 2) / 3 * 4
  {
    hide Quad, InAlphabet;
    if b != [] {
      QuadRoundTrip(b[0], if |b| == 2 then b[1] else 0, 0);
    }
  }

  lemma ShapedGrows(q: string, s: string, padding: nat)
    requires |q| == 4 && (forall i | 0 <= i < 4 :: InAlphabet(q[i]) && q[i] != '=') && Shaped(s, padding)
    ensures Shaped(q + s, padding)
  {
  }

  // ----- base64url

  function Without(s: string, c: char): string {
    if s == "" then ""
    else Without(s[..|s| - 1], c) + if s[|s| - 1] == c then "" else [s[|s| - 1]]
  }

  function Replaced(s: string, c: char, other: char): string {
    seq(|s|, i requires 0 <= i < |s| => if s[i] == c then other else s[i])
  }

  function PadEnd(s: string, length: nat, c: char): string {
    if |s| >= length then s else s + seq(length - |s|, _ => c)
  }

  function Base64UrlEncode(b: seq<byte>): string {
    Replaced(Replaced(Without(ToBase64(b), '='), '+', '-'), '/', '_')
  }

  function Base64UrlDecode(value: string): seq<byte> {
    var normalized := Replaced(Replaced(value, '-', '+'), '_', '/');
    FromBase64(PadEnd(normalized, (|normalized| + 3) / 4 * 4, '='))
  }

  lemma {:induction false} WithoutPadding(s: string, padding: nat)
    requires Shaped(s, padding)
    ensures Without(s, '=') == s[..|s| - padding]
  {
    hide InAlphabet;
    WithoutOfPrefix(s, |s| - padding, |s|);
    assert s[..|s|] == s;
  }

  lemma {:induction false} WithoutOfPrefix(s: string, core: nat, n: nat)
    requires core <= n <= |s| || n <= core <= |s|
    requires forall i | 0 <= i < core :: s[i] != '='
    requires forall i | core <= i < |s| :: s[i] == '='
    ensures Without(s[..n], '=') == s[..Min(n, core)]
  {
    if n > 0 {
      WithoutOfPrefix(s, core, n - 1);
      assert s[..n][..n - 1] == s[..n - 1];
    }
  }

  /** The replacements and the padding are undone exactly. */
  lemma {:induction false} UrlTextRoundTrip(s: string, padding: nat)
    requires Shaped(s, padding)
    ensures var url := Replaced(Replaced(Without(s, '='), '+', '-'), '/', '_');
            var normalized := Replaced(Replaced(url, '-', '+'), '_', '/');
            PadEnd(normalized, (|normalized| + 3) / 4 * 4, '=') == s
  {
    WithoutPadding(s, padding);
    var core := s[..|s| - padding];
    var url := Replaced(Replaced(core, '+', '-'), '/', '_');
    var normalized := Replaced(Replaced(url, '-', '+'), '_', '/');
    forall i | 0 <= i < |core| ensures normalized[i] == core[i] {
      assert InAlphabet(core[i]);
    }
    assert normalized == core;
    assert (|core| + 3) / 4 * 4 == |s|;
  }

  lemma {:induction false} UrlIsSafe(s: string, padding: nat)
    requires Shaped(s, padding)
    ensures forall c | c in Replaced(Replaced(Without(s, '='), '+', '-'), '/', '_') :: c !in "+/="
  {
    hide InAlphabet;
    WithoutPadding(s, padding);
  }

  /** base64url decoding undoes encoding, for every byte string. */
  lemma {:induction false} UrlRoundTrip(b: seq<byte>)
    ensures Base64UrlDecode(Base64UrlEncode(b)) == b
    ensures forall c | c in Base64UrlEncode(b) :: c !in "+/="
  {
    hide ToBase64, FromBase64, Shaped, PaddingFor, Replaced, Without, PadEnd;
    EncodedShape(b);
    UrlTextRoundTrip(ToBase64(b), PaddingFor(|b|));
    UrlIsSafe(ToBase64(b), PaddingFor(|b|));
    RoundTrip(b);
  }

  // ----- lengths without decoding

  /** The accepted texts: alphabet characters, then at most two padding signs, in whole groups. */
  predicate Accepted(value: string) {
    && value != "" && |value| % 4 == 0
    && forall i | 0 <= i < |value| :: InAlphabet(value[i]) || (i >= |value| - 2 && value[i] == '=' && value[|value| - 1] == '=')
  }

  /** Which texts are accepted: whole groups of letters of the alphabet, closed by at most two padding signs. */
  lemma AcceptedIff(value: string)
    ensures Accepted(value) <==>
              && value != "" && |value| % 4 == 0
              && exists letters, padding :: && value == letters + padding && padding in {"", "=", "=="}
                                            && forall c | c in letters :: InAlphabet(c)
  {
    hide InAlphabet;
    if Accepted(value) {
      var n := |value| - if value[|value| - 2] == '=' then 2 else if value[|value| - 1] == '=' then 1 else 0;
      assert !InAlphabet('=') by { PaddingIsNoLetter(); }
      assert value == value[..n] + value[n..];
      assert value[n..] == if n == |value| then "" else if n == |value| - 1 then "=" else "==";
      assert forall c | c in value[..n] :: InAlphabet(c);
    }
    if letters, padding :| value != "" && |value| % 4 == 0 && value == letters + padding && padding in {"", "=", "=="}
                           && forall c | c in letters :: InAlphabet(c) {
      assert forall i | 0 <= i < |letters| :: value[i] == letters[i];
      assert forall i | 0 <= i < |padding| :: padding[i] == '=';
    }
  }

  function Base64DecodedByteLength(value: string): Option<nat> {
    if !Accepted(value) then None
    else
      var padding := if value[|value| - 2] == '=' then 2 else if value[|value| - 1] == '=' then 1 else 0;
      Some(|value| / 4 * 3 - padding)
  }

  /** The computed length is the true one. */
  lemma {:induction false} DecodedLengthIsTrue(value: string)
    requires Accepted(value)
    ensures Base64DecodedByteLength(value) == Some(|FromBase64(value)|)
  {
    hide InAlphabet, ValueOf;
    assert !InAlphabet('=') by { PaddingIsNoLetter(); }
    if |value| > 4 {
      var rest := value[4..];
      assert forall i | 0 <= i < |rest| :: rest[i] == value[i + 4];
      assert value[2] != '=' && value[3] != '=';
      DecodedLengthIsTrue(rest);
    }
  }

  lemma PaddingIsNoLetter()
    ensures !InAlphabet('=')
  {
  }

  /** What the encoder writes is accepted, and its computed length is that of the bytes. */
  lemma {:induction false} EncodedLength(b: seq<byte>)
    requires b != []
    ensures Base64DecodedByteLength(ToBase64(b)) == Some(|b|)
  {
    EncodedShape(b);
    RoundTrip(b);
    DecodedLengthIsTrue(ToBase64(b));
  }

  function GenerativeJsonResponseByteLimit(outputByteLimit: nat): nat {
    var encodedLimit := (outputByteLimit + 2) / 3 * 4;
    Min(MAX_SAFE_INTEGER, encodedLimit + RESPONSE_JSON_OVERHEAD_BYTES)
  }

  /** The encoding of a payload fits a response of the computed limit, beside the overhead. */
  predicate Fits(b: seq<byte>, limit: nat) {
    |ToBase64(b)| + 65536 <= GenerativeJsonResponseByteLimit(limit)
  }

  /** The largest number of groups of three bytes that any response leaves room for. */
  const MAX_GROUPS: nat := 2251799813668863

  /** What fits, for every limit: payloads up to the limit rounded up to a group of three bytes,
      or up to the cap. */
  lemma {:induction false} PayloadFitsLimit(b: seq<byte>, limit: nat)
    ensures Fits(b, limit) <==> |b| <= 3 * Min((limit + 2) / 3, MAX_GROUPS)
  {
    EncodedShape(b);
    var groups := (|b| + 2) / 3;
    assert groups * 4 + 65536 <= 9007199254740991 <==> groups <= MAX_GROUPS;
  }

  /** Every payload within the limit fits, if and only if the computed limit is not capped. */
  lemma {:induction false} LimitFitsIff(limit: nat)
    ensures (forall b: seq<byte> | |b| <= limit :: Fits(b, limit))
            <==> (limit + 2) / 3 * 4 + 65536 <= 9007199254740991
  {
    hide Fits;
    forall b: seq<byte> | |b| <= limit
      ensures Fits(b, limit) <==> |b| <= 3 * Min((limit + 2) / 3, MAX_GROUPS)
    {
      PayloadFitsLimit(b, limit);
    }
    var groups := (limit + 2) / 3;
    assert groups * 4 + 65536 <= 9007199254740991 <==> groups <= MAX_GROUPS;
    if groups > MAX_GROUPS {
      var b: seq<byte> := seq(limit, _ => 0);
      assert !Fits(b, limit);
    }
  }

  /** The largest limit that is accepted leaves no room for a payload of its size. */
  lemma LargestLimitFails(b: seq<byte>)
    requires |b| == 9007199254740991
    ensures !Fits(b, 9007199254740991)
  {
    PayloadFitsLimit(b, 9007199254740991);
  }
}
