/**
 * The escaping rules of HNBT string literals (`StringUtil`): three decoders,
 * each turning one escape piece into a `char`, and the encoder that turns a
 * string into a double-quoted literal.
 *
 * The decoder of a whole literal body (`unescapeString`) drives a generated
 * lexer and parser and is not part of this model; `ReadBody` below is a
 * reader assembled from the three decoders alone, used to state that every
 * encoded literal body decodes back to the string it encodes.
 */
module StringUtil {
  import opened Lang

  const BACKSLASH: JChar := '\\' as int
  const QUOTE: JChar := '"' as int
  const APOS: JChar := '\'' as int
  const LETTER_U: JChar := 'u' as int

  /** The control characters that have a two-character escape. */
  const BACKSPACE: JChar := 0x08
  const TAB: JChar := 0x09
  const FORM_FEED: JChar := 0x0C
  const CARRIAGE_RETURN: JChar := 0x0D

  // ---------------------------------------------------------------------
  // Digits

  predicate IsOctalDigit(c: int) { '0' as int <= c <= '7' as int }

  predicate IsHexDigit(c: int)
  {
    || '0' as int <= c <= '9' as int
    || 'a' as int <= c <= 'f' as int
    || 'A' as int <= c <= 'F' as int
  }

  predicate AllHex(s: JString) { forall i | 0 <= i < |s| :: IsHexDigit(s[i]) }

  predicate AllOctal(s: JString) { forall i | 0 <= i < |s| :: IsOctalDigit(s[i]) }

  /** The value of one hexadecimal digit, in either case. */
  function DigitValue(c: int): (v: nat)
    requires IsHexDigit(c)
    ensures v < 16
    ensures IsOctalDigit(c) ==> v == c - '0' as int
  {
    if c <= '9' as int then c - '0' as int
    else if c <= 'F' as int then c - 'A' as int + 10
    else c - 'a' as int + 10
  }

  /** `Integer.parseInt(s, radix)` on a string of digits already checked. */
  function ParseRadix(radix: nat, s: JString): (v: nat)
    requires AllHex(s)
  {
    if s == [] then 0 else radix * ParseRadix(radix, s[..|s| - 1]) + DigitValue(s[|s| - 1])
  }

  /** A lowercase hexadecimal digit, as `%x` prints it. */
  function LowerHexDigit(d: nat): (c: JChar)
    requires d < 16
    ensures IsHexDigit(c) && DigitValue(c) == d && c != LETTER_U
  {
    if d < 10 then '0' as int + d else 'a' as int + (d - 10)
  }

  /** `String.format("%04x", c)`: four lowercase hexadecimal digits. */
  function Hex4(c: JChar): (r: JString)
    ensures |r| == 4 && forall i | 0 <= i < 4 :: IsHexDigit(r[i]) && r[i] != LETTER_U
  {
    [LowerHexDigit(c / 0x1000), LowerHexDigit(c / 0x100 % 16),
     LowerHexDigit(c / 0x10 % 16), LowerHexDigit(c % 16)]
  }

  // ---------------------------------------------------------------------
  // Decoders

  /** The second characters of the two-character escapes. */
  predicate IsEscapeLetter(c: int)
  {
    c == 'b' as int || c == 't' as int || c == 'n' as int || c == 'f' as int
    || c == 'r' as int || c == QUOTE || c == APOS || c == BACKSLASH
  }

  /** `unescapeEscapeSequence`: a backslash and one escape letter. */
  function UnescapeEscapeSequence(escSeq: JString): (r: Result<JChar>)
    ensures r.Ok? <==> |escSeq| == 2 && escSeq[0] == BACKSLASH && IsEscapeLetter(escSeq[1])
    ensures r.Err? ==> r.error == IllegalArgument
  {
    if |escSeq| != 2 then Err(IllegalArgument)
    else if escSeq[0] != BACKSLASH then Err(IllegalArgument)
    else
      var after := escSeq[1];
      if after == 'b' as int then Ok(BACKSPACE)
      else if after == 't' as int then Ok(TAB)
      else if after == 'n' as int then Ok(NL)
      else if after == 'f' as int then Ok(FORM_FEED)
      else if after == 'r' as int then Ok(CARRIAGE_RETURN)
      else if after == QUOTE || after == APOS || after == BACKSLASH then Ok(after)
      else Err(IllegalArgument)
  }

  /**
   * `unescapeUnicodeEscape`: a backslash, then a run of `u`s (possibly
   * empty) up to four characters from the end, then four hexadecimal digits
   * of either case. A string shorter than five characters makes the
   * `substring` call throw.
   */
  function UnescapeUnicodeEscape(unicodeEsc: JString): (r: Result<JChar>)
    ensures r.Ok? <==>
      && |unicodeEsc| >= 5 && unicodeEsc[0] == BACKSLASH
      && (forall i | 1 <= i < |unicodeEsc| - 4 :: unicodeEsc[i] == LETTER_U)
      && AllHex(unicodeEsc[|unicodeEsc| - 4..])
    ensures r.Ok? ==> r.value == ParseRadix(16, unicodeEsc[|unicodeEsc| - 4..])
    ensures r.Err? ==> r.error == (if |unicodeEsc| == 0 || (unicodeEsc[0] == BACKSLASH && |unicodeEsc| < 5)
                                   then StringIndexOutOfBounds else IllegalArgument)
  {
    if |unicodeEsc| == 0 then Err(StringIndexOutOfBounds)
    else if unicodeEsc[0] != BACKSLASH then Err(IllegalArgument)
    else if |unicodeEsc| < 5 then Err(StringIndexOutOfBounds)
    else
      var last4StartIndex := |unicodeEsc| - 4;
      if !(forall i | 1 <= i < last4StartIndex :: unicodeEsc[i] == LETTER_U) then Err(IllegalArgument)
      else
        var charValue := unicodeEsc[last4StartIndex..];
        if !AllHex(charValue) then Err(IllegalArgument)
        else
          HexFourBound(charValue);
          Ok(ParseRadix(16, charValue))
  }

  lemma HexFourBound(s: JString)
    requires |s| == 4 && AllHex(s)
    ensures ParseRadix(16, s) < 0x1_0000
  {
    var s1, s2, s3 := s[..1], s[..2], s[..3];
    assert s1[..0] == [] && s2[..1] == s1 && s3[..2] == s2 && s[..|s| - 1] == s3;
    assert ParseRadix(16, s1) < 16;
    assert ParseRadix(16, s2) < 0x100;
    assert ParseRadix(16, s3) < 0x1000;
  }

  /**
   * `unescapeOctalEscape`: a backslash and one to three octal digits, the
   * first of three at most `3`. With assertions disabled (the JVM default)
   * a lone backslash reaches `digits.charAt(0)` on the empty string.
   */
  function UnescapeOctalEscape(octalEsc: JString): (r: Result<JChar>)
    ensures r.Ok? <==>
      && 2 <= |octalEsc| <= 4 && octalEsc[0] == BACKSLASH && AllOctal(octalEsc[1..])
      && (|octalEsc| == 4 ==> octalEsc[1] <= '3' as int)
    ensures r.Ok? ==> r.value == ParseRadix(8, octalEsc[1..]) <= 255
    ensures r.Err? ==> r.error == (if |octalEsc| == 0 || octalEsc == [BACKSLASH]
                                   then StringIndexOutOfBounds else IllegalArgument)
  {
    if |octalEsc| == 0 then Err(StringIndexOutOfBounds)
    else if octalEsc[0] != BACKSLASH then Err(IllegalArgument)
    else if |octalEsc| > 4 then Err(IllegalArgument)
    else
      var digits := octalEsc[1..];
      if !AllOctal(digits) then Err(IllegalArgument)
      else if |octalEsc| == 2 || |octalEsc| == 3 then
        OctalBound(digits);
        Ok(ParseRadix(8, digits))
      else if |octalEsc| == 1 then Err(StringIndexOutOfBounds)
      else if digits[0] > '3' as int then Err(IllegalArgument)
      else
        OctalBound(digits);
        Ok(ParseRadix(8, digits))
  }

  lemma OctalBound(s: JString)
    requires 1 <= |s| <= 3 && AllOctal(s)
    requires |s| == 3 ==> s[0] <= '3' as int
    ensures AllHex(s) && ParseRadix(8, s) <= 255
    ensures |s| < 3 ==> ParseRadix(8, s) < 64
  {
    assert AllHex(s) by {
      forall i | 0 <= i < |s| ensures IsHexDigit(s[i]) { assert IsOctalDigit(s[i]); }
    }
    var s1 := s[..1];
    assert s1[..0] == [];
    assert ParseRadix(8, s1) < 8;
    if |s| >= 2 {
      var s2 := s[..2];
      assert s2[..1] == s1;
      assert ParseRadix(8, s2) < 64;
      if |s| == 3 {
        assert s[..2] == s2;
        assert DigitValue(s[0]) <= 3;
        assert ParseRadix(8, s1) <= 3;
        assert ParseRadix(8, s2) < 32;
      } else {
        assert s == s2;
      }
    } else {
      assert s == s1;
    }
  }

  // ---------------------------------------------------------------------
  // Encoder

  /** `Character.isISOControl`. */
  predicate IsISOControl(c: int) { 0 <= c <= 0x1F || 0x7F <= c <= 0x9F }

  /** The characters `characterLiteralWithoutSingleQuotes` writes as a two-character escape. */
  predicate HasShortEscape(c: int)
  {
    c == BACKSPACE || c == TAB || c == NL || c == FORM_FEED || c == CARRIAGE_RETURN
    || c == APOS || c == BACKSLASH
  }

  /** A `\u` escape with four lowercase hexadecimal digits. */
  function UnicodeEscape(c: JChar): (r: JString)
  {
    [BACKSLASH, LETTER_U] + Hex4(c)
  }

  /**
   * `characterLiteralWithoutSingleQuotes`: named escapes for backspace, tab,
   * newline, form feed, carriage return, single quote and backslash; a raw
   * double quote; a `\u` escape for every other ISO control character; the
   * character itself otherwise.
   */
  function CharacterLiteral(c: JChar): (r: JString)
    ensures |r| == 1 <==> c == QUOTE || (!IsISOControl(c) && !HasShortEscape(c))
    ensures |r| == 1 ==> r == [c]
    ensures |r| == 2 <==> HasShortEscape(c)
    ensures |r| == 2 ==> r[0] == BACKSLASH
    ensures |r| == 6 <==> IsISOControl(c) && !HasShortEscape(c)
  {
    if c == BACKSPACE then [BACKSLASH, 'b' as int]
    else if c == TAB then [BACKSLASH, 't' as int]
    else if c == NL then [BACKSLASH, 'n' as int]
    else if c == FORM_FEED then [BACKSLASH, 'f' as int]
    else if c == CARRIAGE_RETURN then [BACKSLASH, 'r' as int]
    else if c == QUOTE then [QUOTE]
    else if c == APOS then [BACKSLASH, APOS]
    else if c == BACKSLASH then [BACKSLASH, BACKSLASH]
    else if IsISOControl(c) then UnicodeEscape(c)
    else [c]
  }

  /**
   * What the loop of `stringLiteralWithDoubleQuotes` appends for one
   * character: a single quote raw, a double quote escaped, and any other
   * character as `characterLiteralWithoutSingleQuotes` writes it.
   */
  function EscapeChar(c: JChar): (r: JString)
    ensures r != [QUOTE]
    ensures |r| == 1 || |r| == 2 || |r| == 6
    ensures |r| == 1 ==> r == [c] && c != QUOTE && c != BACKSLASH
  {
    if c == APOS then [APOS]
    else if c == QUOTE then [BACKSLASH, QUOTE]
    else CharacterLiteral(c)
  }

  /** The body of the literal: the pieces of all characters, in order. */
  function EscapedBody(s: JString): JString
  {
    if s == [] then [] else EscapeChar(s[0]) + EscapedBody(s[1..])
  }

  /** The whole literal, with its double quotes. */
  function Literal(s: JString): JString
  {
    [QUOTE] + EscapedBody(s) + [QUOTE]
  }

  lemma {:induction false} EscapedBodyAppend(a: JString, b: JString)
    ensures EscapedBody(a + b) == EscapedBody(a) + EscapedBody(b)
    decreases |a|
  {
    if a == [] {
      assert a + b == b;
    } else {
      assert (a + b)[0] == a[0];
      assert (a + b)[1..] == a[1..] + b;
      EscapedBodyAppend(a[1..], b);
    }
  }

  /** One more character adds its piece at the end of the body. */
  lemma EscapedBodySnoc(s: JString, c: JChar)
    ensures EscapedBody(s + [c]) == EscapedBody(s) + EscapeChar(c)
  {
    EscapedBodyAppend(s, [c]);
    assert [c][1..] == [];
  }

  /** `escapedString` and the private `stringLiteralWithDoubleQuotes` it calls. */
  method EscapedString(value: JString) returns (r: JString)
    ensures r == Literal(value)
  {
    var result := [QUOTE];
    for i := 0 to |value|
      invariant result == [QUOTE] + EscapedBody(value[..i])
    {
      var c := value[i];
      ghost var done := [QUOTE] + EscapedBody(value[..i]);
      assert value[..i + 1] == value[..i] + [c];
      EscapedBodySnoc(value[..i], c);
      assert [QUOTE] + EscapedBody(value[..i + 1]) == done + EscapeChar(c);
      if c == APOS {
        result := result + [APOS];
      } else if c == QUOTE {
        result := result + [BACKSLASH, QUOTE];
      } else {
        result := result + CharacterLiteral(c);
      }
    }
    assert value[..|value|] == value;
    r := result + [QUOTE];
  }

  // ---------------------------------------------------------------------
  // Properties of the encoder

  /** Each character contributes one, two or six characters to the literal. */
  lemma {:induction false} LiteralLength(s: JString)
    ensures |s| + 2 <= |Literal(s)| <= 6 * |s| + 2
    decreases |s|
  {
    if s != [] {
      LiteralLength(s[1..]);
    }
  }

  /** `\u` escapes decode back to the character they encode. */
  lemma UnicodeEscapeRoundTrip(c: JChar)
    ensures UnescapeUnicodeEscape(UnicodeEscape(c)) == Ok(c)
  {
    var p := UnicodeEscape(c);
    assert p[|p| - 4..] == Hex4(c);
    Hex4Parses(c);
  }

  /** The four digits `%04x` prints read back, base 16, as the character. */
  lemma Hex4Parses(c: JChar)
    ensures AllHex(Hex4(c)) && ParseRadix(16, Hex4(c)) == c
  {
    var h := Hex4(c);
    var h1, h2, h3 := h[..1], h[..2], h[..3];
    assert h1[..0] == [] && h2[..1] == h1 && h3[..2] == h2 && h[..3] == h3;
    assert ParseRadix(16, h1) == c / 0x1000;
    assert ParseRadix(16, h2) == c / 0x1000 * 16 + c / 0x100 % 16 == c / 0x100;
    assert ParseRadix(16, h3) == c / 0x100 * 16 + c / 0x10 % 16 == c / 0x10;
    assert ParseRadix(16, h) == c / 0x10 * 16 + c % 16 == c;
  }

  /**
   * Every piece `characterLiteralWithoutSingleQuotes` emits is either the
   * character itself, or an escape the matching decoder maps back to it.
   */
  lemma CharacterLiteralDecodes(c: JChar)
    ensures var p := CharacterLiteral(c);
      || (p == [c] && c != BACKSLASH)
      || (|p| == 2 && UnescapeEscapeSequence(p) == Ok(c))
      || (|p| == 6 && p == UnicodeEscape(c) && UnescapeUnicodeEscape(p) == Ok(c))
  {
    if IsISOControl(c) && !HasShortEscape(c) {
      UnicodeEscapeRoundTrip(c);
    }
  }

  /** The same for the pieces of a double-quoted literal. */
  lemma EscapeCharDecodes(c: JChar)
    ensures var p := EscapeChar(c);
      || (p == [c] && c != BACKSLASH && c != QUOTE)
      || (|p| == 2 && UnescapeEscapeSequence(p) == Ok(c))
      || (|p| == 6 && p == UnicodeEscape(c) && UnescapeUnicodeEscape(p) == Ok(c))
  {
    if c != APOS && c != QUOTE {
      CharacterLiteralDecodes(c);
    }
  }

  /**
   * Conversely, every two-character escape the decoder accepts is the piece
   * one of the encoders writes for the character it decodes to.
   */
  lemma EscapeSequenceIsEncoded(escSeq: JString)
    requires UnescapeEscapeSequence(escSeq).Ok?
    ensures var c := UnescapeEscapeSequence(escSeq).value;
      escSeq == CharacterLiteral(c) || escSeq == EscapeChar(c)
  {
  }

  /** Every three-digit octal escape decodes to its value 0..255; shorter forms to smaller values. */
  lemma OctalEscapeRoundTrip(v: nat)
    requires v < 256
    ensures UnescapeOctalEscape([BACKSLASH, '0' as int + v / 64, '0' as int + v / 8 % 8, '0' as int + v % 8]) == Ok(v)
    ensures v < 64 ==> UnescapeOctalEscape([BACKSLASH, '0' as int + v / 8, '0' as int + v % 8]) == Ok(v)
    ensures v < 8 ==> UnescapeOctalEscape([BACKSLASH, '0' as int + v]) == Ok(v)
  {
    OctalThreeDigits(v);
    if v < 64 {
      OctalTwoDigits(v);
    }
    if v < 8 {
      OctalOneDigit(v);
    }
  }

  lemma OctalThreeDigits(v: nat)
    requires v < 256
    ensures UnescapeOctalEscape([BACKSLASH, '0' as int + v / 64, '0' as int + v / 8 % 8, '0' as int + v % 8]) == Ok(v)
  {
    var d3 := ['0' as int + v / 64, '0' as int + v / 8 % 8, '0' as int + v % 8];
    assert [BACKSLASH, d3[0], d3[1], d3[2]][1..] == d3;
    assert AllOctal(d3);
    assert d3[..2][..1] == d3[..1];
    assert d3[..1][..0] == [];
    assert DigitValue(d3[0]) == v / 64 && DigitValue(d3[1]) == v / 8 % 8 && DigitValue(d3[2]) == v % 8;
    assert ParseRadix(8, d3[..1]) == v / 64;
    assert ParseRadix(8, d3[..2]) == v / 64 * 8 + v / 8 % 8 == v / 8;
    assert ParseRadix(8, d3) == v / 8 * 8 + v % 8 == v;
  }

  lemma OctalTwoDigits(v: nat)
    requires v < 64
    ensures UnescapeOctalEscape([BACKSLASH, '0' as int + v / 8, '0' as int + v % 8]) == Ok(v)
  {
    var d2 := ['0' as int + v / 8, '0' as int + v % 8];
    assert [BACKSLASH, d2[0], d2[1]][1..] == d2;
    assert AllOctal(d2);
    assert d2[..1][..0] == [];
    assert DigitValue(d2[0]) == v / 8 && DigitValue(d2[1]) == v % 8;
    assert ParseRadix(8, d2[..1]) == v / 8;
    assert ParseRadix(8, d2) == v / 8 * 8 + v % 8 == v;
  }

  lemma OctalOneDigit(v: nat)
    requires v < 8
    ensures UnescapeOctalEscape([BACKSLASH, '0' as int + v]) == Ok(v)
  {
    var d1 := ['0' as int + v];
    assert [BACKSLASH, d1[0]][1..] == d1;
    assert AllOctal(d1);
    assert d1[..0] == [];
    assert DigitValue(d1[0]) == v;
    assert ParseRadix(8, d1) == v;
  }

  // ---------------------------------------------------------------------
  // A reader built from the decoders, for the round trip

  /** The number of `u`s in the run that starts at index `i` of `t`. */
  function URun(t: JString, i: nat): (k: nat)
    requires i <= |t|
    ensures i + k <= |t|
    ensures forall j | i <= j < i + k :: t[j] == LETTER_U
    ensures i + k == |t| || t[i + k] != LETTER_U
    decreases |t| - i
  {
    if i < |t| && t[i] == LETTER_U then 1 + URun(t, i + 1) else 0
  }

  /**
   * The length of the escape piece at the front of `t`. The string lexer
   * that delimits pieces is not part of this model; these boundaries are
   * assumed, chosen to match what each decoder accepts: `\` with a run of
   * `u`s and four more characters, `\` with one to three octal digits (three
   * only when the first is at most `3`), or `\` with one more character; 0
   * when the backslash has nothing after it to form a piece.
   */
  function EscapeLength(t: JString): (n: nat)
    requires |t| > 0 && t[0] == BACKSLASH
    ensures n == 0 || 2 <= n <= |t|
  {
    if |t| < 2 then 0
    else if t[1] == LETTER_U then
      var k := URun(t, 1);
      if 1 + k + 4 <= |t| then 1 + k + 4 else 0
    else if IsOctalDigit(t[1]) then
      if |t| >= 3 && IsOctalDigit(t[2]) then
        if |t| >= 4 && IsOctalDigit(t[3]) && t[1] <= '3' as int then 4 else 3
      else 2
    else 2
  }

  /** The decoder a piece goes to, chosen by the character after the backslash. */
  function DecodeEscape(p: JString): Result<JChar>
    requires |p| >= 2
  {
    if p[1] == LETTER_U then UnescapeUnicodeEscape(p)
    else if IsOctalDigit(p[1]) then UnescapeOctalEscape(p)
    else UnescapeEscapeSequence(p)
  }

  /**
   * A reference reader for a literal body, standing for `unescapeString`
   * over the assumed piece boundaries of `EscapeLength`: raw characters
   * stand for themselves, an unescaped double quote is malformed inside a
   * body, and each escape piece goes to its decoder.
   */
  function ReadBody(t: JString): (r: Result<JString>)
    decreases |t|
  {
    if t == [] then Ok([])
    else if t[0] == QUOTE then Err(IllegalArgument)
    else if t[0] != BACKSLASH then
      var rest :- ReadBody(t[1..]);
      Ok([t[0]] + rest)
    else
      var n := EscapeLength(t);
      if n == 0 then Err(IllegalArgument)
      else
        var c :- DecodeEscape(t[..n]);
        var rest :- ReadBody(t[n..]);
        Ok([c] + rest)
  }

  /** Reading one encoded piece yields its character and moves past exactly that piece. */
  lemma ReadPiece(c: JChar, rest: JString)
    ensures ReadBody(EscapeChar(c) + rest) ==
      if ReadBody(rest).Ok? then Ok([c] + ReadBody(rest).value) else ReadBody(rest)
  {
    var p := EscapeChar(c);
    var t := p + rest;
    EscapeCharDecodes(c);
    if |p| == 1 {
      assert t[1..] == rest;
    } else if |p| == 2 {
      assert t[0] == BACKSLASH && t[1] == p[1];
      assert EscapeLength(t) == 2;
      assert t[..2] == p && t[2..] == rest;
    } else {
      assert t[0] == BACKSLASH && t[1] == LETTER_U && t[2] == Hex4(c)[0];
      assert URun(t, 2) == 0;
      assert EscapeLength(t) == 6;
      assert t[..6] == p && t[6..] == rest;
    }
  }

  /** Escape symmetry: the body of every encoded literal reads back as the original string. */
  lemma {:induction false} EscapeRoundTrip(s: JString)
    ensures ReadBody(EscapedBody(s)) == Ok(s)
    decreases |s|
  {
    if s != [] {
      EscapeRoundTrip(s[1..]);
      ReadPiece(s[0], EscapedBody(s[1..]));
      assert [s[0]] + s[1..] == s;
    }
  }

  /** Reading an escape piece whose assumed boundary is exactly `p`. */
  lemma ReadEscapeThen(p: JString, rest: JString)
    requires |p| >= 2 && p[0] == BACKSLASH && EscapeLength(p + rest) == |p|
    ensures ReadBody(p + rest) ==
      match DecodeEscape(p)
      case Err(e) => Err(e)
      case Ok(c) => if ReadBody(rest).Ok? then Ok([c] + ReadBody(rest).value) else ReadBody(rest)
  {
    var t := p + rest;
    assert t[..|p|] == p && t[|p|..] == rest;
  }

  /** The octal decoding the repository's string tests expect: `\101\102\103` reads as `ABC`. */
  lemma OctalExample()
    ensures ReadBody([BACKSLASH, '1' as int, '0' as int, '1' as int,
                      BACKSLASH, '1' as int, '0' as int, '2' as int,
                      BACKSLASH, '1' as int, '0' as int, '3' as int])
      == Ok(['A' as int, 'B' as int, 'C' as int])
  {
    var p1 := [BACKSLASH, '1' as int, '0' as int, '1' as int];
    var p2 := [BACKSLASH, '1' as int, '0' as int, '2' as int];
    var p3 := [BACKSLASH, '1' as int, '0' as int, '3' as int];
    ReadOctalThen(p3, 67, []);
    assert p3 + [] == p3 && [67] + [] == [67];
    assert ReadBody(p3) == Ok([67]);
    ReadOctalThen(p2, 66, p3);
    assert [66] + [67] == [66, 67];
    assert ReadBody(p2 + p3) == Ok([66, 67]);
    ReadOctalThen(p1, 65, p2 + p3);
    assert [65] + [66, 67] == [65, 66, 67];
    assert ReadBody(p1 + (p2 + p3)) == Ok([65, 66, 67]);
    assert p1 + (p2 + p3) == [BACKSLASH, '1' as int, '0' as int, '1' as int,
                              BACKSLASH, '1' as int, '0' as int, '2' as int,
                              BACKSLASH, '1' as int, '0' as int, '3' as int];
  }

  /** A three-digit octal escape `\10d` (the characters `@` to `G`), then a rest that reads. */
  lemma ReadOctalThen(p: JString, v: nat, rest: JString)
    requires 64 <= v < 72 && ReadBody(rest).Ok?
    requires p == [BACKSLASH, '1' as int, '0' as int, '0' as int + v - 64]
    ensures ReadBody(p + rest) == Ok([v] + ReadBody(rest).value)
  {
    var t := p + rest;
    assert t[0] == BACKSLASH && t[1] == '1' as int && t[2] == '0' as int && t[3] == '0' as int + v - 64;
    assert EscapeLength(t) == 4;
    OctalThreeDigits(v);
    assert p == [BACKSLASH, '0' as int + v / 64, '0' as int + v / 8 % 8, '0' as int + v % 8];
    assert DecodeEscape(p) == Ok(v);
    ReadEscapeThen(p, rest);
  }
}
