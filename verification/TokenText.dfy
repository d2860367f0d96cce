/** The plaintext form of an API token, "gak_" selector "." validator, where both parts are
    unpadded base64url (section 5 of RFC 4648) as Go's base64.RawURLEncoding reads and writes it. */
module TokenText {
  import opened OptionType

  type byte = b: int | 0 <= b < 256

  const PREFIX := "gak_"
  const SELECTOR_BYTES := 12
  const VALIDATOR_BYTES := 32

  // ---------------------------------------------------------------- the alphabet

  type sextet = n: int | 0 <= n < 64

  function Letter(n: sextet): char {
    if n < 26 then ('A' as int + n) as char
    else if n < 52 then ('a' as int + n - 26) as char
    else if n < 62 then ('0' as int + n - 52) as char
    else if n == 62 then '-'
    else '_'
  }

  function Sextet(c: char): Option<sextet> {
    if 'A' <= c <= 'Z' then Some(c as int - 'A' as int)
    else if 'a' <= c <= 'z' then Some(c as int - 'a' as int + 26)
    else if '0' <= c <= '9' then Some(c as int - '0' as int + 52)
    else if c == '-' then Some(62)
    else if c == '_' then Some(63)
    else None
  }

  lemma LetterRoundTrip(n: sextet)
    ensures Sextet(Letter(n)) == Some(n)
    ensures Letter(n) != '\r' && Letter(n) != '\n' && Letter(n) != '.' && Letter(n) != ':'
  {
  }

  // ---------------------------------------------------------------- bytes and sextets

  function Sextet0(x: byte): sextet { x / 4 }

  function Sextet1(x: byte, y: byte): sextet { x % 4 * 16 + y / 16 }

  function Sextet2(y: byte, z: byte): sextet { y % 16 * 4 + z / 64 }

  function Sextet3(z: byte): sextet { z % 64 }

  /** Three bytes are four sextets; a short last group is filled up with zero bits. */
  function ToSextets(bytes: seq<byte>): seq<sextet> {
    if |bytes| == 0 then []
    else if |bytes| == 1 then [Sextet0(bytes[0]), Sextet1(bytes[0], 0)]
    else if |bytes| == 2 then [Sextet0(bytes[0]), Sextet1(bytes[0], bytes[1]), Sextet2(bytes[1], 0)]
    else
      [Sextet0(bytes[0]), Sextet1(bytes[0], bytes[1]), Sextet2(bytes[1], bytes[2]), Sextet3(bytes[2])]
      + ToSextets(bytes[3..])
  }

  function FirstByte(a: sextet, b: sextet): byte { a * 4 + b / 16 }

  function SecondByte(b: sextet, c: sextet): byte { b % 16 * 16 + c / 4 }

  function ThirdByte(c: sextet, d: sextet): byte { c % 4 * 64 + d }

  /** Go does not insist that the unused bits of a short last group are zero; a group of one is an
      error. */
  function FromSextets(s: seq<sextet>): Option<seq<byte>> {
    if |s| == 0 then Some([])
    else if |s| == 1 then None
    else if |s| == 2 then Some([FirstByte(s[0], s[1])])
    else if |s| == 3 then Some([FirstByte(s[0], s[1]), SecondByte(s[1], s[2])])
    else
      match FromSextets(s[4..])
      case None => None
      case Some(rest) => Some([FirstByte(s[0], s[1]), SecondByte(s[1], s[2]), ThirdByte(s[2], s[3])] + rest)
  }

  lemma GroupRoundTrip(x: byte, y: byte, z: byte)
    ensures FirstByte(Sextet0(x), Sextet1(x, y)) == x
    ensures SecondByte(Sextet1(x, y), Sextet2(y, z)) == y
    ensures ThirdByte(Sextet2(y, z), Sextet3(z)) == z
  {
  }

  lemma {:induction false} BytesRoundTrip(bytes: seq<byte>)
    ensures FromSextets(ToSextets(bytes)) == Some(bytes)
  {
    hide Sextet0, Sextet1, Sextet2, Sextet3, FirstByte, SecondByte, ThirdByte;
    if |bytes| == 1 {
      GroupRoundTrip(bytes[0], 0, 0);
      assert bytes == [bytes[0]];
    } else if |bytes| == 2 {
      GroupRoundTrip(bytes[0], bytes[1], 0);
      assert bytes == [bytes[0], bytes[1]];
    } else if |bytes| >= 3 {
      GroupRoundTrip(bytes[0], bytes[1], bytes[2]);
      BytesRoundTrip(bytes[3..]);
      assert ToSextets(bytes)[4..] == ToSextets(bytes[3..]);
      assert bytes == [bytes[0], bytes[1], bytes[2]] + bytes[3..];
    }
  }

  // ---------------------------------------------------------------- text

  function Letters(s: seq<sextet>): string {
    if s == [] then "" else [Letter(s[0])] + Letters(s[1..])
  }

  /** The decoder skips line breaks wherever they stand. */
  function Sextets(text: string): Option<seq<sextet>> {
    if text == "" then Some([])
    else if text[0] == '\r' || text[0] == '\n' then Sextets(text[1..])
    else
      match (Sextet(text[0]), Sextets(text[1..]))
      case (Some(n), Some(rest)) => Some([n] + rest)
      case _ => None
  }

  function EncodeToString(bytes: seq<byte>): string {
    Letters(ToSextets(bytes))
  }

  function DecodeString(text: string): Option<seq<byte>> {
    match Sextets(text)
    case None => None
    case Some(s) => FromSextets(s)
  }

  lemma {:induction false} LettersRoundTrip(s: seq<sextet>)
    ensures Sextets(Letters(s)) == Some(s)
    ensures forall c :: c in Letters(s) ==> Sextet(c).Some? && c != '.' && c != ':'
    ensures |Letters(s)| == |s|
  {
    if s != [] {
      LettersRoundTrip(s[1..]);
      LetterRoundTrip(s[0]);
      var text := Letters(s);
      assert text[0] == Letter(s[0]) && text[1..] == Letters(s[1..]);
      assert s == [s[0]] + s[1..];
    }
  }

  /** Decoding undoes encoding, for every byte string. */
  lemma EncodingRoundTrip(bytes: seq<byte>)
    ensures DecodeString(EncodeToString(bytes)) == Some(bytes)
    ensures '.' !in EncodeToString(bytes)
  {
    LettersRoundTrip(ToSextets(bytes));
    BytesRoundTrip(bytes);
  }

  /** What the decoder reads of a text: everything but line breaks. */
  function Kept(text: string): string {
    if text == "" then "" else (if text[0] == '\r' || text[0] == '\n' then "" else [text[0]]) + Kept(text[1..])
  }

  predicate InAlphabet(c: char) {
    'A' <= c <= 'Z' || 'a' <= c <= 'z' || '0' <= c <= '9' || c == '-' || c == '_'
  }

  predicate Readable(s: string) {
    forall i :: 0 <= i < |s| ==> InAlphabet(s[i])
  }

  lemma {:induction false} SextetsOfKept(text: string)
    ensures Sextets(text).Some? <==> Readable(Kept(text))
    ensures Sextets(text).Some? ==> |Sextets(text).value| == |Kept(text)|
  {
    if text != "" {
      SextetsOfKept(text[1..]);
      if text[0] == '\r' || text[0] == '\n' {
        assert Kept(text) == Kept(text[1..]);
      } else {
        ReadableStep(text[0], Kept(text[1..]));
        hide Readable;
        assert InAlphabet(text[0]) <==> Sextet(text[0]).Some?;
      }
    }
  }

  lemma ReadableStep(c: char, rest: string)
    ensures Readable([c] + rest) <==> InAlphabet(c) && Readable(rest)
  {
    hide InAlphabet;
    assert ([c] + rest)[0] == c;
    assert forall i :: 0 <= i < |rest| ==> rest[i] == ([c] + rest)[i + 1];
  }

  lemma {:induction false} BytesOfSextets(s: seq<sextet>)
    ensures FromSextets(s).Some? <==> |s| % 4 != 1
    ensures FromSextets(s).Some? ==> |FromSextets(s).value| == |s| * 6 / 8
  {
    hide FirstByte, SecondByte, ThirdByte;
    if |s| >= 4 {
      BytesOfSextets(s[4..]);
      OneMoreGroup(|s| - 4);
    }
  }

  lemma OneMoreGroup(n: nat)
    ensures (n + 4) % 4 == n % 4 && (n + 4) * 6 / 8 == n * 6 / 8 + 3
  {
  }

  /** A text decodes exactly if what is not a line break is of the alphabet and leaves no single letter
      over, and every letter gives six bits. */
  lemma DecodedSize(text: string)
    ensures DecodeString(text).Some? <==>
      Readable(Kept(text)) && |Kept(text)| % 4 != 1
    ensures DecodeString(text).Some? ==> |DecodeString(text).value| == |Kept(text)| * 6 / 8
  {
    SextetsOfKept(text);
    if Sextets(text).Some? {
      BytesOfSextets(Sextets(text).value);
    }
    hide Kept, Readable, Sextets, FromSextets;
  }

  /** The alphabet in ASCII. */
  lemma LetterIs(n: sextet)
    ensures n < 26 ==> Letter(n) as int == 0x41 + n
    ensures 26 <= n < 52 ==> Letter(n) as int == 0x61 + (n - 26)
    ensures 52 <= n < 62 ==> Letter(n) as int == 0x30 + (n - 52)
    ensures n == 62 ==> Letter(n) == '-'
    ensures n == 63 ==> Letter(n) == '_'
  {
  }

  /** The vectors of section 10 of RFC 4648, unpadded, and one with the letters of its section 5. */
  lemma RfcVectors()
    ensures EncodeToString([]) == "" && EncodeToString([0x66]) == "Zg" && EncodeToString([0x66, 0x6f]) == "Zm8"
    ensures EncodeToString([0x66, 0x6f, 0x6f]) == "Zm9v" && EncodeToString([0xfb, 0xff]) == "-_8"
  {
    assert ToSextets([0x66]) == [25, 32] && ToSextets([0x66, 0x6f]) == [25, 38, 60];
    assert ToSextets([0xfb, 0xff]) == [62, 63, 60];
    assert ToSextets([0x66, 0x6f, 0x6f]) == [25, 38, 61, 47] by {
      assert [0x66, 0x6f, 0x6f][3..] == [];
    }
    hide ToSextets;
    PairOfLetters(25, 32);
    TripleOfLetters(25, 38, 60);
    TripleOfLetters(62, 63, 60);
    FourLetters(25, 38, 61, 47);
    hide Letters;
  }

  lemma PairOfLetters(a: sextet, b: sextet)
    ensures Letters([a, b]) == [Letter(a), Letter(b)]
  {
    assert [a, b][1..] == [b] && [b][1..] == [];
    assert Letters([b]) == [Letter(b)] + Letters([]);
  }

  lemma TripleOfLetters(a: sextet, b: sextet, c: sextet)
    ensures Letters([a, b, c]) == [Letter(a), Letter(b), Letter(c)]
  {
    assert [a, b, c][1..] == [b, c];
    PairOfLetters(b, c);
  }

  lemma FourLetters(a: sextet, b: sextet, c: sextet, d: sextet)
    ensures Letters([a, b, c, d]) == [Letter(a), Letter(b), Letter(c), Letter(d)]
  {
    assert [a, b, c, d][1..] == [b, c, d];
    TripleOfLetters(b, c, d);
  }

  // ---------------------------------------------------------------- the token

  function PrintToken(selector: string, validator: string): string {
    PREFIX + selector + "." + validator
  }

  /** strings.Cut at the first dot: the length of the part before it. */
  function FirstDot(value: string): nat {
    if value == "" || value[0] == '.' then 0 else 1 + FirstDot(value[1..])
  }

  lemma {:induction false} FirstDotSplits(value: string)
    ensures FirstDot(value) <= |value| && '.' !in value[..FirstDot(value)]
    ensures FirstDot(value) < |value| ==> value[FirstDot(value)] == '.'
  {
    if value != "" && value[0] != '.' {
      FirstDotSplits(value[1..]);
      var n := FirstDot(value[1..]);
      assert value[..1 + n] == [value[0]] + value[1..][..n];
    }
  }

  lemma {:induction false} FirstDotFollows(before: string, after: string)
    requires '.' !in before
    ensures FirstDot(before + "." + after) == |before|
  {
    if before != "" {
      FirstDotFollows(before[1..], after);
      assert (before + "." + after)[1..] == before[1..] + "." + after;
    }
  }

  predicate DecodesTo(text: string, size: nat) {
    DecodeString(text).Some? && |DecodeString(text).value| == size
  }

  function SplitToken(value: string): Option<(string, string)> {
    if !(PREFIX <= value) then None
    else
      var rest := value[|PREFIX|..];
      var n := FirstDot(rest);
      if n >= |rest| then None
      else
        var selector, validator := rest[..n], rest[n + 1..];
        if '.' in validator then None
        else if !DecodesTo(selector, SELECTOR_BYTES) || !DecodesTo(validator, VALIDATOR_BYTES) then None
        else Some((selector, validator))
  }

  lemma SplitIsPrint(value: string, selector: string, validator: string)
    requires SplitToken(value) == Some((selector, validator))
    ensures value == PrintToken(selector, validator) && '.' !in selector && '.' !in validator
    ensures DecodesTo(selector, SELECTOR_BYTES) && DecodesTo(validator, VALIDATOR_BYTES)
  {
    hide DecodesTo, FirstDot;
    var rest := value[|PREFIX|..];
    FirstDotSplits(rest);
    assert value == PREFIX + rest;
    assert rest == selector + "." + validator;
  }

  lemma PrintSplits(selector: string, validator: string)
    requires '.' !in selector && '.' !in validator
    requires DecodesTo(selector, SELECTOR_BYTES) && DecodesTo(validator, VALIDATOR_BYTES)
    ensures SplitToken(PrintToken(selector, validator)) == Some((selector, validator))
  {
    hide DecodesTo, FirstDot;
    var rest := PrintToken(selector, validator)[|PREFIX|..];
    assert rest == selector + "." + validator;
    FirstDotFollows(selector, validator);
    assert rest[..|selector|] == selector && rest[|selector| + 1..] == validator;
  }

  /** Main result: the parser accepts exactly the texts that are the print of two dot-free parts that
      decode to 12 and 32 bytes, and returns these parts. */
  lemma SplitIffPrint(value: string, selector: string, validator: string)
    ensures SplitToken(value) == Some((selector, validator)) <==>
      && value == "gak_" + selector + "." + validator && '.' !in selector && '.' !in validator
      && DecodeString(selector).Some? && |DecodeString(selector).value| == 12
      && DecodeString(validator).Some? && |DecodeString(validator).value| == 32
  {
    hide SplitToken, DecodeString;
    if SplitToken(value) == Some((selector, validator)) {
      SplitIsPrint(value, selector, validator);
    } else if '.' !in selector && '.' !in validator && DecodesTo(selector, SELECTOR_BYTES) && DecodesTo(validator, VALIDATOR_BYTES) {
      PrintSplits(selector, validator);
    }
  }

  /** Main result: every issued token text comes back from the parser as the two parts it was
      printed from, whatever bytes were drawn. */
  lemma IssuedTextParses(selector: seq<byte>, validator: seq<byte>)
    requires |selector| == SELECTOR_BYTES && |validator| == VALIDATOR_BYTES
    ensures
      var s, v := EncodeToString(selector), EncodeToString(validator);
      SplitToken(PrintToken(s, v)) == Some((s, v))
  {
    EncodingRoundTrip(selector);
    EncodingRoundTrip(validator);
    hide EncodeToString, DecodeString;
    var s, v := EncodeToString(selector), EncodeToString(validator);
    SplitIffPrint(PrintToken(s, v), s, v);
  }
}
