/** JSON texts as trees (RFC 8259), and what the scanner does on a token of such a text. */
module JsonText {

  import opened JsonScanner

  // ----- placing a text in a buffer

  lemma {:induction false} AtConcat(s: string, i: nat, a: string, b: string)
    ensures At(s, i, a + b) <==> At(s, i, a) && At(s, i + |a|, b)
  {
    var t := a + b;
    if At(s, i, t) {
      forall k | 0 <= k < |a| ensures s[i + k] == a[k] {
        assert t[k] == a[k];
      }
      forall k | 0 <= k < |b| ensures s[i + |a| + k] == b[k] {
        assert t[|a| + k] == b[k];
      }
    }
  }

  lemma {:induction false} AtChar(s: string, i: nat, t: string, k: nat)
    requires At(s, i, t) && k < |t|
    ensures i + k < |s| && s[i + k] == t[k]
  {
  }

  lemma {:induction false} AtFirst(s: string, i: nat, c: char)
    ensures At(s, i, [c]) <==> i < |s| && s[i] == c
  {
    if At(s, i, [c]) {
      AtChar(s, i, [c], 0);
    }
  }

  // ----- white space

  /** White space of RFC 8259, section 2: space, horizontal tab, line feed and carriage return. */
  predicate IsWhiteSpace(c: char) { c == ' ' || c == '\t' || c == '\n' || c == '\r' }

  ghost predicate Blank(ws: string) {
    forall k :: 0 <= k < |ws| ==> IsWhiteSpace(ws[k])
  }

  lemma {:induction false} SpaceRun(s: string, i: nat, j: nat)
    requires i <= j <= |s| && forall k :: i <= k < j ==> IsSpace(s[k])
    ensures SpaceEnd(s, i) == SpaceEnd(s, j)
    decreases j - i
  {
    if i < j {
      SpaceRun(s, i + 1, j);
    }
  }

  /** White space in front of anything else is skipped exactly. */
  lemma {:induction false} SpaceSkipped(s: string, i: nat, ws: string)
    requires At(s, i, ws) && Blank(ws)
    ensures SpaceEnd(s, i) == SpaceEnd(s, i + |ws|)
    ensures i + |ws| >= |s| || !IsSpace(s[i + |ws|]) ==> SpaceEnd(s, i) == i + |ws|
  {
    forall k | i <= k < i + |ws| ensures IsSpace(s[k]) {
      AtChar(s, i, ws, k - i);
    }
    SpaceRun(s, i, i + |ws|);
  }

  // ----- characters of a string

  predicate IsScalarValue(cp: nat) {
    cp <= 0x10_FFFF && !(0xD800 <= cp <= 0xDFFF)
  }

  type ScalarValue = cp: nat | IsScalarValue(cp)

  /** The UTF-8 encoding of a scalar value (section 3 of RFC 3629). */
  function Utf8(cp: ScalarValue): (t: string)
    ensures 1 <= |t| <= 4
  {
    if cp < 0x80 then [cp as char]
    else if cp < 0x800 then [(0xC0 + cp / 64) as char, Trail(cp % 64)]
    else if cp < 0x1_0000 then [(0xE0 + cp / 4096) as char, Trail(cp / 64 % 64), Trail(cp % 64)]
    else
      assert IsScalarValue(cp);
      assert cp < 5 * 262144;
      [(0xF0 + cp / 262144) as char, Trail(cp / 4096 % 64), Trail(cp / 64 % 64), Trail(cp % 64)]
  }

  /** A trailing byte with six payload bits. */
  function Trail(d: nat): char
    requires d < 64
  {
    (0x80 + d) as char
  }

  /** Lead byte and trailing bytes give the scalar value back. */
  lemma {:induction false} LeadByte(cp: nat)
    requires IsScalarValue(cp) && cp >= 0x80
    ensures 0xC1 < Utf8(cp)[0] as int < 0xF5 && LeadLength(Utf8(cp)[0] as int) == |Utf8(cp)|
    ensures LeadValue(Utf8(cp)[0] as int)
         == if |Utf8(cp)| == 2 then cp / 64 else if |Utf8(cp)| == 3 then cp / 4096 else cp / 262144
  {
  }

  lemma {:induction false} Digits64(cp: nat)
    ensures cp / 64 * 64 + cp % 64 == cp
    ensures (cp / 4096 * 64 + cp / 64 % 64) * 64 + cp % 64 == cp
    ensures ((cp / 262144 * 64 + cp / 4096 % 64) * 64 + cp / 64 % 64) * 64 + cp % 64 == cp
  {
    assert cp / 4096 == cp / 64 / 64 && cp / 262144 == cp / 64 / 64 / 64;
  }

  lemma {:induction false} TrailingByte(d: nat)
    requires d < 64
    ensures IsTrailing(Trail(d)) && Trail(d) as int % 64 == d
  {
  }

  /** The encoding of a scalar value is skipped whole. */
  lemma {:induction false} Utf8Accepted(s: string, i: nat, cp: nat)
    requires IsScalarValue(cp) && At(s, i, Utf8(cp))
    ensures Utf8End(s, i) == Past(i + |Utf8(cp)|)
  {
    var t := Utf8(cp);
    AtChar(s, i, t, 0);
    if cp >= 0x80 {
      LeadByte(cp);
      Utf8Decoded(s, i, cp);
    }
  }

  lemma {:induction false} Utf8Decoded(s: string, i: nat, cp: nat)
    requires IsScalarValue(cp) && cp >= 0x80 && At(s, i, Utf8(cp))
    ensures AllTrailing(s, i + 1, |Utf8(cp)| - 1)
    ensures Accumulated(s, i + 1, |Utf8(cp)| - 1, LeadValue(s[i] as int)) == cp
  {
    var t := Utf8(cp);
    LeadByte(cp);
    Digits64(cp);
    TrailingByte(cp % 64);
    TrailingByte(cp / 64 % 64);
    TrailingByte(cp / 4096 % 64);
    hide LeadValue, LeadLength, Accumulated, At, Trail, IsTrailing;
    assert forall k :: 1 <= k < |t| ==> IsTrailing(t[k]);
    forall k | i <= k < i + |t| ensures s[k] == t[k - i] {
      AtChar(s, i, t, k - i);
    }
    Unrolled(s, i, |t|);
  }

  /** The accumulated value of up to three trailing bytes. */
  lemma {:induction false} Unrolled(s: string, i: nat, n: nat)
    requires 1 <= n <= 4 && i + n <= |s|
    ensures var lead := LeadValue(s[i] as int);
      Accumulated(s, i + 1, n - 1, lead)
      == if n == 1 then lead
         else if n == 2 then lead * 64 + s[i + 1] as int % 64
         else if n == 3 then (lead * 64 + s[i + 1] as int % 64) * 64 + s[i + 2] as int % 64
         else ((lead * 64 + s[i + 1] as int % 64) * 64 + s[i + 2] as int % 64) * 64 + s[i + 3] as int % 64
  {
    var lead := LeadValue(s[i] as int);
    assert n >= 2 ==> Accumulated(s, i + 1, 0, lead) == lead;
    assert n >= 2 ==> Accumulated(s, i + 1, 1, lead) == lead * 64 + s[i + 1] as int % 64;
    assert n >= 3 ==> Accumulated(s, i + 1, 2, lead) == Accumulated(s, i + 1, 1, lead) * 64 + s[i + 2] as int % 64;
  }

  /** A lead byte and trailing bytes of an accepted sequence, rebuilt from the accumulated value. */
  lemma {:induction false} TwoBytes(c: nat, x: nat, cp: nat)
    requires 0xC0 <= c < 0xE0 && 0x80 <= x < 0xC0 && cp == LeadValue(c) * 64 + x % 64 && Shortest(2, cp)
    ensures Utf8(cp) == [c as char, x as char]
  {
    assert cp % 64 == x % 64 == x - 0x80 && cp / 64 == LeadValue(c) == c - 0xC0;
  }

  lemma {:induction false} ThreeBytes(c: nat, x: nat, y: nat, cp: nat)
    requires 0xE0 <= c < 0xF0 && 0x80 <= x < 0xC0 && 0x80 <= y < 0xC0
    requires cp == (LeadValue(c) * 64 + x % 64) * 64 + y % 64 && Shortest(3, cp)
    ensures Utf8(cp) == [c as char, x as char, y as char]
  {
    assert cp % 64 == y % 64 == y - 0x80 && cp / 64 == LeadValue(c) * 64 + x % 64;
    assert cp / 64 % 64 == x % 64 == x - 0x80 && cp / 4096 == LeadValue(c) == c - 0xE0;
  }

  lemma {:induction false} FourBytes(c: nat, x: nat, y: nat, z: nat, cp: nat)
    requires 0xF0 <= c < 0xF5 && 0x80 <= x < 0xC0 && 0x80 <= y < 0xC0 && 0x80 <= z < 0xC0
    requires cp == ((LeadValue(c) * 64 + x % 64) * 64 + y % 64) * 64 + z % 64 && Shortest(4, cp)
    ensures Utf8(cp) == [c as char, x as char, y as char, z as char]
  {
    assert cp % 64 == z % 64 == z - 0x80 && cp / 64 == (LeadValue(c) * 64 + x % 64) * 64 + y % 64;
    assert cp / 64 % 64 == y % 64 == y - 0x80 && cp / 4096 == LeadValue(c) * 64 + x % 64;
    assert cp / 4096 % 64 == x % 64 == x - 0x80 && cp / 262144 == LeadValue(c) == c - 0xF0;
  }

  /** What is skipped as one code point is the encoding of a scalar value: the shortest one. */
  lemma {:induction false} Utf8Sound(s: string, i: nat) returns (cp: nat)
    requires Utf8End(s, i).Past?
    ensures IsScalarValue(cp) && At(s, i, Utf8(cp)) && Utf8End(s, i) == Past(i + |Utf8(cp)|)
  {
    var c := s[i] as int;
    if c < 0x80 {
      cp := c;
      AtFirst(s, i, s[i]);
    } else {
      var n := LeadLength(c);
      cp := Accumulated(s, i + 1, n - 1, LeadValue(c));
      SequenceSound(s, i, n, cp);
    }
  }

  /** A sequence of n bytes in shortest form. */
  lemma {:induction false} SequenceSound(s: string, i: nat, n: nat, cp: nat)
    requires i < |s| && 0xC1 < s[i] as int < 0xF5 && n == LeadLength(s[i] as int) && AllTrailing(s, i + 1, n - 1)
    requires cp == Accumulated(s, i + 1, n - 1, LeadValue(s[i] as int)) && Shortest(n, cp)
    ensures IsScalarValue(cp) && At(s, i, Utf8(cp)) && |Utf8(cp)| == n
  {
    hide Utf8, LeadValue, Accumulated, Trail, At;
    var c := s[i] as int;
    Unrolled(s, i, n);
    if n == 2 {
      TwoBytes(c, s[i + 1] as int, cp);
    } else if n == 3 {
      ThreeBytes(c, s[i + 1] as int, s[i + 2] as int, cp);
    } else {
      FourBytes(c, s[i + 1] as int, s[i + 2] as int, s[i + 3] as int, cp);
    }
    SameBytes(s, i, Utf8(cp));
  }

  lemma {:induction false} SameBytes(s: string, i: nat, t: string)
    requires i + |t| <= |s| && forall k :: 0 <= k < |t| ==> t[k] == s[i + k]
    ensures At(s, i, t)
  {
  }

  /** One unescaped code point, a two-character escape, a `\uXXXX` or a pair of them (section 7 of RFC 8259). */
  datatype Character =
    | Plain(cp: ScalarValue)
    | Short(c: char)
    | Unicode(hex: string)
    | Surrogates(high: string, low: string)

  predicate IsHex4(hex: string) {
    |hex| == 4 && AllHex(hex, 0, 4)
  }

  /** What a backslash may stand before by itself (section 7). */
  predicate IsEscapable(c: char) {
    c in {'"', '\\', '/', 'b', 'f', 'n', 'r', 't'}
  }

  /** An escaped control character: the code lets it pass, the grammar does not. */
  predicate IsControlEscape(ch: Character) {
    ch.Short? && '\0' < ch.c < ' '
  }

  ghost predicate ValidCharacter(ch: Character) {
    LooseCharacter(ch) && !IsControlEscape(ch)
  }

  /** What the code takes for a character. */
  ghost predicate LooseCharacter(ch: Character) {
    match ch
    case Plain(cp) => cp >= 0x20 && cp != 0x22 && cp != 0x5C
    case Short(c) => IsEscapable(c) || '\0' < c < ' '
    case Unicode(hex) =>
      IsHex4(hex) && HexValue(hex, 0, 4) > 0 && !(0xD800 <= HexValue(hex, 0, 4) <= 0xDFFF)
    case Surrogates(high, low) =>
      && IsHex4(high) && 0xD800 <= HexValue(high, 0, 4) <= 0xDBFF
      && IsHex4(low) && 0xDC00 <= HexValue(low, 0, 4) <= 0xDFFF
  }

  function CharacterText(ch: Character): (t: string)
    ensures |t| >= 1
  {
    match ch
    case Plain(cp) => Utf8(cp)
    case Short(c) => ['\\', c]
    case Unicode(hex) => ['\\', 'u'] + hex
    case Surrogates(high, low) => ['\\', 'u'] + high + ['\\', 'u'] + low
  }

  const LOWER_HEX := "0123456789abcdef"
  const UPPER_HEX := "0123456789ABCDEF"

  /** Every hex digit, in either case, is read as its place in the table, and nothing else is one. */
  lemma {:induction false} HexDigitsExact(d: nat, c: char)
    requires d < 16
    ensures HexToInt(LOWER_HEX[d]) == HexToInt(UPPER_HEX[d]) == d
    ensures HexToInt(c) < NOT_A_HEX_CHAR ==> c == LOWER_HEX[HexToInt(c)] || c == UPPER_HEX[HexToInt(c)]
  {
  }

  lemma {:induction false} HexMoves(s: string, i: nat, hex: string)
    requires At(s, i, hex) && IsHex4(hex)
    ensures AllHex(s, i, 4) && HexValue(s, i, 4) == HexValue(hex, 0, 4)
  {
    forall k | 0 <= k < 4 ensures s[i + k] == hex[k] {
      AtChar(s, i, hex, k);
    }
    assert s[i + 0] == hex[0];
    HexUnrolled(s, i);
    HexUnrolled(hex, 0);
  }

  lemma {:induction false} HexUnrolled(s: string, i: nat)
    requires i + 4 <= |s|
    ensures HexValue(s, i, 4)
         == ((HexToInt(s[i]) * 16 + HexToInt(s[i + 1])) * 16 + HexToInt(s[i + 2])) * 16 + HexToInt(s[i + 3])
  {
    assert HexValue(s, i, 1) == HexToInt(s[i]);
    assert HexValue(s, i, 2) == HexValue(s, i, 1) * 16 + HexToInt(s[i + 1]);
    assert HexValue(s, i, 3) == HexValue(s, i, 2) * 16 + HexToInt(s[i + 2]);
  }

  lemma {:induction false} HexEscapeAccepted(s: string, i: nat, hex: string)
    requires IsHex4(hex) && HexValue(hex, 0, 4) > 0 && At(s, i, ['\\', 'u'] + hex) && i + 6 < |s|
    ensures OneHexEscape(s, i) && HexValue(s, i + 2, 4) == HexValue(hex, 0, 4)
  {
    AtConcat(s, i, ['\\', 'u'], hex);
    AtChar(s, i, ['\\', 'u'], 0);
    AtChar(s, i, ['\\', 'u'], 1);
    HexMoves(s, i + 2, hex);
  }

  lemma {:induction false} Utf8First(cp: nat)
    requires IsScalarValue(cp)
    ensures cp < 0x80 ==> Utf8(cp)[0] as int == cp
    ensures cp >= 0x80 ==> Utf8(cp)[0] as int >= 0x80
  {
    if cp >= 0x80 {
      LeadByte(cp);
    }
  }

  lemma {:induction false} PairText(high: string, low: string)
    ensures ['\\', 'u'] + high + ['\\', 'u'] + low == (['\\', 'u'] + high) + (['\\', 'u'] + low)
  {
  }

  lemma {:induction false} CharacterAccepted(s: string, i: nat, ch: Character)
    requires LooseCharacter(ch) && At(s, i, CharacterText(ch)) && i + |CharacterText(ch)| < |s|
    ensures s[i] != '"' && CharacterEnd(s, i) == Past(i + |CharacterText(ch)|)
  {
    hide Utf8, At, HexValue, Utf8End;
    AtChar(s, i, CharacterText(ch), 0);
    match ch
    case Plain(cp) =>
      Utf8First(cp);
      Utf8Accepted(s, i, cp);
    case Short(c) =>
      AtChar(s, i, CharacterText(ch), 1);
    case Unicode(hex) =>
      HexEscapeAccepted(s, i, hex);
    case Surrogates(high, low) =>
      PairText(high, low);
      AtConcat(s, i, ['\\', 'u'] + high, ['\\', 'u'] + low);
      HexEscapeAccepted(s, i, high);
      HexEscapeAccepted(s, i + 6, low);
  }

  ghost predicate ValidCharacters(chars: seq<Character>) {
    forall k :: 0 <= k < |chars| ==> ValidCharacter(chars[k])
  }

  ghost predicate LooseCharacters(chars: seq<Character>) {
    forall k :: 0 <= k < |chars| ==> LooseCharacter(chars[k])
  }

  function CharactersText(chars: seq<Character>): string
  {
    if chars == [] then "" else CharacterText(chars[0]) + CharactersText(chars[1..])
  }

  function StringText(chars: seq<Character>): (t: string)
    ensures |t| == |CharactersText(chars)| + 2 && t[0] == '"'
  {
    ['"'] + CharactersText(chars) + ['"']
  }

  lemma {:induction false} CharactersAccepted(s: string, i: nat, chars: seq<Character>)
    requires LooseCharacters(chars) && At(s, i, CharactersText(chars) + ['"'])
    ensures CharactersEnd(s, i) == Past(i + |CharactersText(chars)| + 1)
    decreases |chars|
  {
    hide At, CharacterText, CharacterEnd, LooseCharacter;
    if chars == [] {
      assert CharactersText(chars) + ['"'] == ['"'];
      AtFirst(s, i, '"');
    } else {
      var first, rest := CharacterText(chars[0]), CharactersText(chars[1..]) + ['"'];
      assert CharactersText(chars) + ['"'] == first + rest;
      AtConcat(s, i, first, rest);
      AtLength(s, i + |first|, rest);
      CharacterAccepted(s, i, chars[0]);
      CharactersAccepted(s, i + |first|, chars[1..]);
    }
  }

  lemma {:induction false} AtLength(s: string, i: nat, t: string)
    requires At(s, i, t)
    ensures i + |t| <= |s|
  {
  }

  lemma {:induction false} StringAccepted(s: string, i: nat, chars: seq<Character>)
    requires LooseCharacters(chars) && At(s, i, StringText(chars))
    ensures StringEnd(s, i) == Past(i + |StringText(chars)|)
  {
    hide At, CharactersText, CharactersEnd;
    assert StringText(chars) == ['"'] + (CharactersText(chars) + ['"']);
    AtConcat(s, i, ['"'], CharactersText(chars) + ['"']);
    AtFirst(s, i, '"');
    CharactersAccepted(s, i + 1, chars);
  }

  // ----- numbers

  datatype Exponent = NoExponent | Power(e: char, sign: string, digits: string)

  datatype Number = Number(minus: bool, whole: string, fraction: string, exponent: Exponent)

  ghost predicate AllDigits(t: string) {
    forall k :: 0 <= k < |t| ==> '0' <= t[k] <= '9'
  }

  /** Section 6 of RFC 8259. */
  ghost predicate ValidNumber(n: Number) {
    && |n.whole| > 0 && AllDigits(n.whole) && (n.whole[0] == '0' ==> |n.whole| == 1)
    && AllDigits(n.fraction)
    && (n.exponent.Power? ==>
          && (n.exponent.e == 'e' || n.exponent.e == 'E')
          && |n.exponent.sign| <= 1
          && (|n.exponent.sign| == 1 ==> n.exponent.sign[0] == '+' || n.exponent.sign[0] == '-')
          && |n.exponent.digits| > 0 && AllDigits(n.exponent.digits))
  }

  function ExponentText(x: Exponent): string {
    if x.NoExponent? then "" else [x.e] + x.sign + x.digits
  }

  function FractionText(fraction: string): string {
    if fraction == "" then "" else ['.'] + fraction
  }

  function SignText(minus: bool): string {
    if minus then ['-'] else ""
  }

  function NumberText(n: Number): string {
    SignText(n.minus) + (n.whole + (FractionText(n.fraction) + ExponentText(n.exponent)))
  }

  /** Nothing at j can prolong a number. */
  ghost predicate NumberEnds(s: string, j: nat) {
    j < |s| ==> !IsDigit(s[j]) && s[j] != '.' && s[j] != 'e' && s[j] != 'E'
  }

  lemma {:induction false} DigitsRun(s: string, i: nat, j: nat)
    requires i <= j <= |s| && (forall k :: i <= k < j ==> IsDigit(s[k])) && (j < |s| ==> !IsDigit(s[j]))
    ensures DigitsEnd(s, i) == j
    decreases j - i
  {
    if i < j {
      DigitsRun(s, i + 1, j);
    }
  }

  lemma {:induction false} DigitsAccepted(s: string, i: nat, digits: string)
    requires At(s, i, digits) && AllDigits(digits)
    requires i + |digits| < |s| ==> !IsDigit(s[i + |digits|])
    ensures DigitsEnd(s, i) == i + |digits|
  {
    forall k | i <= k < i + |digits| ensures IsDigit(s[k]) {
      AtChar(s, i, digits, k - i);
    }
    DigitsRun(s, i, i + |digits|);
  }

  lemma {:induction false} ExponentAccepted(s: string, i: nat, n: Number)
    requires ValidNumber(n) && At(s, i, ExponentText(n.exponent)) && NumberEnds(s, i + |ExponentText(n.exponent)|)
    ensures ExponentEnd(s, i) == i + |ExponentText(n.exponent)|
    ensures n.exponent.Power? ==> i < |s| && (s[i] == 'e' || s[i] == 'E')
  {
    hide At, DigitsEnd;
    if n.exponent.Power? {
      var x := n.exponent;
      assert ExponentText(x) == [x.e] + (x.sign + x.digits);
      AtConcat(s, i, [x.e], x.sign + x.digits);
      AtConcat(s, i + 1, x.sign, x.digits);
      DigitsAccepted(s, i + 1 + |x.sign|, x.digits);
      ExponentSign(s, i, n);
    }
  }

  lemma {:induction false} ExponentSign(s: string, i: nat, n: Number)
    requires ValidNumber(n) && n.exponent.Power? && At(s, i, [n.exponent.e])
    requires At(s, i + 1, n.exponent.sign) && At(s, i + 1 + |n.exponent.sign|, n.exponent.digits)
    ensures i < |s| && s[i] == n.exponent.e
    ensures ExponentDigits(s, i) == i + 1 + |n.exponent.sign|
  {
    hide At;
    AtFirst(s, i, n.exponent.e);
    AtChar(s, i + 1 + |n.exponent.sign|, n.exponent.digits, 0);
    if |n.exponent.sign| == 1 {
      AtChar(s, i + 1, n.exponent.sign, 0);
    }
    AtLength(s, i + 1, n.exponent.sign);
  }

  lemma {:induction false} FractionAccepted(s: string, i: nat, n: Number)
    requires ValidNumber(n) && At(s, i, FractionText(n.fraction) + ExponentText(n.exponent))
    requires NumberEnds(s, i + |FractionText(n.fraction) + ExponentText(n.exponent)|)
    ensures DecimalsEnd(s, i) == i + |FractionText(n.fraction)|
    ensures ExponentEnd(s, DecimalsEnd(s, i)) == i + |FractionText(n.fraction) + ExponentText(n.exponent)|
    ensures i < |s| ==> !IsDigit(s[i])
  {
    hide ExponentEnd, At;
    var j := i + |FractionText(n.fraction)|;
    AtConcat(s, i, FractionText(n.fraction), ExponentText(n.exponent));
    ExponentAccepted(s, j, n);
    if n.fraction != "" {
      AtConcat(s, i, ['.'], n.fraction);
      AtFirst(s, i, '.');
      AtChar(s, i + 1, n.fraction, 0);
      DigitsAccepted(s, i + 1, n.fraction);
    } else {
      assert j == i;
    }
  }

  lemma {:induction false} WholeAccepted(s: string, w: nat, n: Number)
    requires ValidNumber(n) && At(s, w, n.whole) && (w + |n.whole| < |s| ==> !IsDigit(s[w + |n.whole|]))
    ensures IntegerEnd(s, w) == Past(w + |n.whole|) && w < |s| && IsDigit(s[w])
  {
    hide At, DigitsEnd;
    AtChar(s, w, n.whole, 0);
    if n.whole[0] != '0' {
      DigitsAccepted(s, w, n.whole);
    } else {
      AtLength(s, w, n.whole);
    }
  }

  lemma {:induction false} SignAccepted(s: string, i: nat, minus: bool)
    requires At(s, i, SignText(minus)) && i + |SignText(minus)| < |s| && IsDigit(s[i + |SignText(minus)|])
    ensures SignEnd(s, i) == i + |SignText(minus)|
    ensures i < |s| && (s[i] == '-' || IsDigit(s[i]))
  {
    if minus {
      AtFirst(s, i, '-');
    }
  }

  lemma {:induction false} NumberAccepted(s: string, i: nat, n: Number)
    requires ValidNumber(n) && At(s, i, NumberText(n)) && NumberEnds(s, i + |NumberText(n)|)
    ensures NumberEnd(s, i) == Past(i + |NumberText(n)|)
    ensures i < |s| && (s[i] == '-' || IsDigit(s[i]))
  {
    hide At, ExponentEnd, DecimalsEnd, IntegerEnd, SignEnd, FractionText, ExponentText, SignText, ValidNumber;
    var sign, tail := SignText(n.minus), FractionText(n.fraction) + ExponentText(n.exponent);
    AtConcat(s, i, sign, n.whole + tail);
    AtConcat(s, i + |sign|, n.whole, tail);
    FractionAccepted(s, i + |sign| + |n.whole|, n);
    WholeAccepted(s, i + |sign|, n);
    SignAccepted(s, i, n.minus);
  }

  // ----- scalars

  datatype Scalar = True | False | Null | Str(chars: seq<Character>) | Num(number: Number)

  ghost predicate ValidScalar(x: Scalar) {
    match x
    case Str(chars) => ValidCharacters(chars)
    case Num(n) => ValidNumber(n)
    case _ => true
  }

  ghost predicate LooseScalar(x: Scalar) {
    match x
    case Str(chars) => LooseCharacters(chars)
    case Num(n) => ValidNumber(n)
    case _ => true
  }

  function ScalarText(x: Scalar): string
  {
    match x
    case True => "true"
    case False => "false"
    case Null => "null"
    case Str(chars) => StringText(chars)
    case Num(n) => NumberText(n)
  }

  /** What may follow a value: white space, a comma, a bracket or the end. */
  ghost predicate Delimited(s: string, j: nat) {
    j < |s| ==> IsSpace(s[j]) || s[j] == ',' || IsClose(s[j]) || IsOpen(s[j])
  }

  lemma {:induction false} NoLiteral(s: string, i: nat)
    requires i < |s| && s[i] != 't' && s[i] != 'f' && s[i] != 'n'
    ensures LiteralEnd(s, i) == Absent
  {
    if At(s, i, TRUE) {
      AtChar(s, i, TRUE, 0);
    }
    if At(s, i, FALSE) {
      AtChar(s, i, FALSE, 0);
    }
    if At(s, i, NULL) {
      AtChar(s, i, NULL, 0);
    }
  }

  /** The scanner passes a scalar exactly. */
  lemma {:induction false} ScalarAccepted(s: string, i: nat, x: Scalar)
    requires LooseScalar(x) && At(s, i, ScalarText(x)) && Delimited(s, i + |ScalarText(x)|)
    ensures ScalarEnd(s, i) == Past(i + |ScalarText(x)|)
    ensures i < |s| && !IsOpen(s[i]) && !IsClose(s[i]) && !IsSpace(s[i])
  {
    hide StringText, NumberText, CharactersEnd, At;
    match x
    case Str(chars) =>
      StringAccepted(s, i, chars);
    case Num(n) =>
      NumberAccepted(s, i, n);
      NoLiteral(s, i);
    case _ =>
      AtChar(s, i, ScalarText(x), 0);
      OneLiteral(s, i, x);
  }

  lemma {:induction false} OneLiteral(s: string, i: nat, x: Scalar)
    requires x in {True, False, Null} && At(s, i, ScalarText(x)) && i < |s| && s[i] == ScalarText(x)[0]
    ensures LiteralEnd(s, i) == Past(i + |ScalarText(x)|)
  {
    hide At;
    if !x.True? {
      NotTrue(s, i);
    }
  }

  lemma {:induction false} NotTrue(s: string, i: nat)
    requires i < |s| && s[i] != 't'
    ensures !At(s, i, TRUE)
    ensures s[i] != 'f' ==> !At(s, i, FALSE)
  {
    if At(s, i, TRUE) {
      AtChar(s, i, TRUE, 0);
    }
    if At(s, i, FALSE) {
      AtChar(s, i, FALSE, 0);
    }
  }

  /** A bracket starts no scalar. */
  lemma {:induction false} NoScalar(s: string, i: nat)
    requires i < |s| && (IsOpen(s[i]) || IsClose(s[i]))
    ensures ScalarEnd(s, i) == Absent && StringEnd(s, i) == Absent
  {
    NoLiteral(s, i);
  }
}
