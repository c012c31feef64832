/** The index-advancing scanner of core_json.c.

    A buffer is a string whose characters stand for bytes. Each skip function of the source is a method; the
    functions beside them say where a token that starts at an index ends. */
module JsonScanner {

  datatype End = Past(index: nat) | Absent

  predicate IsSpace(c: char) { c == ' ' || c == '\t' || c == '\n' || c == '\r' }

  predicate IsControl(c: char) { c < ' ' }

  predicate IsDigit(c: char) { '0' <= c <= '9' }

  predicate IsOpen(c: char) { c == '{' || c == '[' }

  predicate IsClose(c: char) { c == '}' || c == ']' }

  predicate IsMatching(x: char, y: char) { (x == '{' && y == '}') || (x == '[' && y == ']') }

  // ----- white space

  function SpaceEnd(s: string, i: nat): (j: nat)
    ensures i <= j && (i <= |s| ==> j <= |s|)
    ensures j < |s| ==> !IsSpace(s[j])
    decreases |s| - i
  {
    if i < |s| && IsSpace(s[i]) then SpaceEnd(s, i + 1) else i
  }

  method SkipSpace(s: string, start: nat) returns (i: nat)
    ensures i == SpaceEnd(s, start)
  {
    i := start;
    while i < |s|
      invariant start <= i && SpaceEnd(s, start) == SpaceEnd(s, i)
    {
      if !IsSpace(s[i]) {
        break;
      }
      i := i + 1;
    }
  }

  // ----- UTF-8

  /** Leading ones of a lead byte, which is the length of its sequence. */
  function LeadLength(c: nat): (n: nat)
  {
    if c < 0xE0 then 2 else if c < 0xF0 then 3 else 4
  }

  function LeadValue(c: nat): (v: nat) {
    if c < 0xE0 then c % 32 else if c < 0xF0 then c % 16 else c % 8
  }

  predicate IsTrailing(c: char) {
    0x80 <= c as int < 0xC0
  }

  predicate AllTrailing(s: string, i: nat, n: nat) {
    i + n <= |s| && forall k :: i <= k < i + n ==> IsTrailing(s[k])
  }

  /** The value accumulated over n trailing bytes. */
  function Accumulated(s: string, i: nat, n: nat, lead: nat): nat
    requires i + n <= |s|
  {
    if n == 0 then lead else Accumulated(s, i, n - 1, lead) * 64 + s[i + n - 1] as int % 64
  }

  /** A legal code point for an encoding of this length: not shorter, not a surrogate, not beyond the last. */
  predicate Shortest(length: nat, value: nat) {
    && (if length == 2 then 0x80 <= value < 0x800
        else if length == 3 then 0x800 <= value < 0x1_0000
        else 0x1_0000 <= value <= 0x10_FFFF)
    && !(0xD800 <= value <= 0xDFFF)
  }

  function Utf8End(s: string, i: nat): (end: End)
    ensures end.Past? ==> i < end.index <= |s|
  {
    if i >= |s| then Absent else
    var c := s[i] as int;
    if c < 0x80 then Past(i + 1)
    else if 0xC1 < c < 0xF5 && AllTrailing(s, i + 1, LeadLength(c) - 1)
            && Shortest(LeadLength(c), Accumulated(s, i + 1, LeadLength(c) - 1, LeadValue(c)))
    then Past(i + LeadLength(c))
    else Absent
  }

  /** The byte left after i shifts, each dropping a leading one. */
  function Shifted(c: nat, i: nat): int {
    if i == 0 then c
    else if i == 1 then 2 * c - 256
    else if i == 2 then 4 * c - 768
    else if i == 3 then 8 * c - 1792
    else 16 * c - 3840
  }

  method CountHighBits(c: nat) returns (i: nat)
    requires 0xC1 < c < 0xF5
    ensures i == LeadLength(c)
  {
    var n := c;
    i := 0;
    while n >= 0x80
      invariant 0 <= i <= LeadLength(c) && n == Shifted(c, i)
      decreases 4 - i
    {
      i := i + 1;
      n := (n % 0x80) * 2;
    }
  }

  method SkipUtf8MultiByte(s: string, start: nat) returns (ok: bool, i: nat)
    requires start < |s| && s[start] as int >= 0x80
    ensures ok <==> Utf8End(s, start).Past?
    ensures i == if ok then Utf8End(s, start).index else start
  {
    ok, i := false, start;
    var c := s[start] as int;
    if 0xC1 < c < 0xF5 {
      var bitCount := CountHighBits(c);
      var value: nat := if bitCount == 2 then c % 32 else if bitCount == 3 then c % 16 else c % 8;
      var at, j := start, bitCount - 1;
      while j > 0
        invariant 0 <= j <= bitCount - 1 && at == start + (bitCount - 1 - j)
        invariant AllTrailing(s, start + 1, at - start)
        invariant value == Accumulated(s, start + 1, at - start, LeadValue(c))
      {
        at := at + 1;
        if at >= |s| {
          break;
        }
        if !IsTrailing(s[at]) {
          break;
        }
        value := value * 64 + s[at] as int % 64;
        j := j - 1;
      }
      if j == 0 && Shortest(bitCount, value) {
        return true, at + 1;
      }
    }
  }

  method SkipUtf8(s: string, start: nat) returns (ok: bool, i: nat)
    ensures ok <==> Utf8End(s, start).Past?
    ensures i == if ok then Utf8End(s, start).index else start
  {
    ok, i := false, start;
    if start < |s| {
      if s[start] as int < 0x80 {
        return true, start + 1;
      }
      ok, i := SkipUtf8MultiByte(s, start);
    }
  }

  // ----- escapes

  const NOT_A_HEX_CHAR := 0x10

  function HexToInt(c: char): (n: nat)
    ensures n <= NOT_A_HEX_CHAR
  {
    if 'a' <= c <= 'f' then c as int - 'a' as int + 10
    else if 'A' <= c <= 'F' then c as int - 'A' as int + 10
    else if IsDigit(c) then c as int - '0' as int
    else NOT_A_HEX_CHAR
  }

  predicate AllHex(s: string, i: nat, n: nat) {
    i + n <= |s| && forall k :: i <= k < i + n ==> HexToInt(s[k]) < NOT_A_HEX_CHAR
  }

  function HexValue(s: string, i: nat, n: nat): nat
    requires i + n <= |s|
  {
    if n == 0 then 0 else HexValue(s, i, n - 1) * 16 + HexToInt(s[i + n - 1])
  }

  const HEX_ESCAPE_LENGTH := 6

  /** A `\uXXXX` other than `\u0000`, with at least one more byte behind it. */
  predicate OneHexEscape(s: string, i: nat) {
    && i + HEX_ESCAPE_LENGTH < |s| && s[i] == '\\' && s[i + 1] == 'u'
    && AllHex(s, i + 2, 4) && HexValue(s, i + 2, 4) > 0
  }

  predicate IsHighSurrogate(x: nat) { 0xD800 <= x <= 0xDBFF }

  predicate IsLowSurrogate(x: nat) { 0xDC00 <= x <= 0xDFFF }

  function HexEscapeEnd(s: string, i: nat): (end: End)
    ensures end.Past? ==> i < end.index < |s|
  {
    if !OneHexEscape(s, i) then Absent else
    var value := HexValue(s, i + 2, 4);
    if IsHighSurrogate(value) then
      if OneHexEscape(s, i + 6) && IsLowSurrogate(HexValue(s, i + 8, 4)) then Past(i + 12) else Absent
    else if IsLowSurrogate(value) then Absent
    else Past(i + 6)
  }

  predicate IsSimpleEscape(c: char) {
    c == '"' || c == '\\' || c == '/' || c == 'b' || c == 'f' || c == 'n' || c == 'r' || c == 't'
  }

  function EscapeEnd(s: string, i: nat): (end: End)
    ensures end.Past? ==> i < end.index <= |s|
  {
    if i + 1 >= |s| || s[i] != '\\' then Absent
    else if s[i + 1] == 'u' then HexEscapeEnd(s, i)
    else if s[i + 1] == '\0' then Absent
    else if IsSimpleEscape(s[i + 1]) || IsControl(s[i + 1]) then Past(i + 2)
    else Absent
  }

  method SkipOneHexEscape(s: string, start: nat) returns (ok: bool, i: nat, value: nat)
    ensures ok <==> OneHexEscape(s, start)
    ensures ok ==> i == start + HEX_ESCAPE_LENGTH && value == HexValue(s, start + 2, 4)
    ensures !ok ==> i == start
  {
    value := 0;
    var at, end := start, start + HEX_ESCAPE_LENGTH;
    if end < |s| && s[at] == '\\' && s[at + 1] == 'u' {
      at := at + 2;
      while at < end
        invariant start + 2 <= at <= end
        invariant AllHex(s, start + 2, at - start - 2) && value == HexValue(s, start + 2, at - start - 2)
      {
        var n := HexToInt(s[at]);
        if n == NOT_A_HEX_CHAR {
          break;
        }
        value := value * 16 + n;
        at := at + 1;
      }
    }
    ok := at == end && value > 0;
    i := if ok then at else start;
  }

  method SkipHexEscape(s: string, start: nat) returns (ok: bool, i: nat)
    ensures ok <==> HexEscapeEnd(s, start).Past?
    ensures i == if ok then HexEscapeEnd(s, start).index else start
  {
    ok, i := false, start;
    var first, at, value := SkipOneHexEscape(s, start);
    if first {
      if IsHighSurrogate(value) {
        var second;
        second, at, value := SkipOneHexEscape(s, at);
        ok := second && IsLowSurrogate(value);
      } else {
        ok := !IsLowSurrogate(value);
      }
    }
    if ok {
      i := at;
    }
  }

  method SkipEscape(s: string, start: nat) returns (ok: bool, i: nat)
    ensures ok <==> EscapeEnd(s, start).Past?
    ensures i == if ok then EscapeEnd(s, start).index else start
  {
    ok, i := false, start;
    if start + 1 < |s| && s[start] == '\\' {
      var c := s[start + 1];
      if c == '\0' {
      } else if c == 'u' {
        ok, i := SkipHexEscape(s, start);
      } else if IsSimpleEscape(c) || IsControl(c) {
        ok, i := true, start + 2;
      }
    }
  }

  // ----- strings

  /** The end of a string whose opening quote has been passed. */
  function CharactersEnd(s: string, i: nat): (end: End)
    ensures end.Past? ==> i < end.index <= |s|
    decreases |s| - i
  {
    if i >= |s| then Absent
    else if s[i] == '"' then Past(i + 1)
    else
      var next := CharacterEnd(s, i);
      if next.Absent? then Absent else CharactersEnd(s, next.index)
  }

  /** One escape or one unescaped code point. */
  function CharacterEnd(s: string, i: nat): (end: End)
    requires i < |s|
    ensures end.Past? ==> i < end.index <= |s|
  {
    if s[i] == '\\' then EscapeEnd(s, i) else if IsControl(s[i]) then Absent else Utf8End(s, i)
  }

  function StringEnd(s: string, i: nat): (end: End)
    ensures end.Past? ==> i + 1 < end.index <= |s|
  {
    if i < |s| && s[i] == '"' then CharactersEnd(s, i + 1) else Absent
  }

  method SkipString(s: string, start: nat) returns (ok: bool, next: nat)
    ensures ok <==> StringEnd(s, start).Past?
    ensures next == if ok then StringEnd(s, start).index else start
  {
    hide EscapeEnd, Utf8End;
    ok, next := false, start;
    var i := start;
    if i < |s| && s[i] == '"' {
      i := i + 1;
      while i < |s|
        invariant !ok && start < i && CharactersEnd(s, start + 1) == CharactersEnd(s, i)
        decreases |s| - i
      {
        if s[i] == '"' {
          ok, i := true, i + 1;
          break;
        }
        var skipped := false;
        if s[i] == '\\' {
          skipped, i := SkipEscape(s, i);
        } else if !IsControl(s[i]) {
          skipped, i := SkipUtf8(s, i);
        }
        if !skipped {
          break;
        }
      }
    }
    if ok {
      next := i;
    }
  }

  // ----- literals and numbers

  /** t stands at index i of s. */
  predicate At(s: string, i: nat, t: string) {
    i + |t| <= |s| && forall k :: 0 <= k < |t| ==> s[i + k] == t[k]
  }

  const TRUE := "true"
  const FALSE := "false"
  const NULL := "null"

  function LiteralEnd(s: string, i: nat): (end: End)
    ensures end.Past? ==> i < end.index <= |s|
  {
    if At(s, i, TRUE) then Past(i + 4)
    else if At(s, i, FALSE) then Past(i + 5)
    else if At(s, i, NULL) then Past(i + 4)
    else Absent
  }

  method EqualAt(s: string, start: nat, t: string) returns (equal: bool)
    requires start + |t| <= |s|
    ensures equal <==> At(s, start, t)
  {
    var i := 0;
    while i < |t|
      invariant 0 <= i <= |t| && forall k :: 0 <= k < i ==> s[start + k] == t[k]
    {
      if s[start + i] != t[i] {
        break;
      }
      i := i + 1;
    }
    equal := i == |t|;
  }

  method SkipLiteral(s: string, start: nat, literal: string) returns (ok: bool, i: nat)
    requires |literal| > 0
    ensures ok <==> At(s, start, literal)
    ensures i == if ok then start + |literal| else start
  {
    ok := false;
    if start < |s| && |literal| <= |s| - start {
      ok := EqualAt(s, start, literal);
    }
    i := if ok then start + |literal| else start;
  }

  method SkipAnyLiteral(s: string, start: nat) returns (ok: bool, i: nat)
    ensures ok <==> LiteralEnd(s, start).Past?
    ensures i == if ok then LiteralEnd(s, start).index else start
  {
    hide At;
    ok, i := SkipLiteral(s, start, TRUE);
    if !ok {
      ok, i := SkipLiteral(s, start, FALSE);
    }
    if !ok {
      ok, i := SkipLiteral(s, start, NULL);
    }
  }

  function DigitsEnd(s: string, i: nat): (j: nat)
    ensures i <= j && (i <= |s| ==> j <= |s|)
    ensures i < j ==> i < |s| && IsDigit(s[i])
    ensures j < |s| ==> !IsDigit(s[j])
    ensures forall k :: i <= k < j ==> k < |s| && IsDigit(s[k])
    decreases |s| - i
  {
    if i < |s| && IsDigit(s[i]) then DigitsEnd(s, i + 1) else i
  }

  const MAX_INDEX_VALUE := 0x7FFF_FFF7
  const MAX_FACTOR := MAX_INDEX_VALUE / 10

  /** The number that digits i to j spell. */
  function Decimal(s: string, i: nat, j: nat): nat
    requires i <= j <= |s| && forall k :: i <= k < j ==> IsDigit(s[k])
    decreases j
  {
    if i == j then 0 else Decimal(s, i, j - 1) * 10 + HexToInt(s[j - 1])
  }

  /** What skipDigits outputs: the number, or -1 when it exceeds the largest index. */
  function Clipped(value: nat): int {
    if value <= MAX_INDEX_VALUE then value else -1
  }

  /** With a value asked for, it is the decimal number the digits spell, clipped; `value` never overflows 32 bits. */
  method SkipDigits(s: string, start: nat) returns (ok: bool, i: nat, value: int)
    ensures i == DigitsEnd(s, start) && (ok <==> start < i)
    ensures ok ==> i <= |s| && value == Clipped(Decimal(s, start, i))
    ensures -1 <= value <= MAX_INDEX_VALUE
  {
    i, value := start, 0;
    while i < |s|
      invariant start <= i && DigitsEnd(s, start) == DigitsEnd(s, i)
      invariant forall k :: start <= k < i ==> k < |s| && IsDigit(s[k])
      invariant i <= |s| ==> value == Clipped(Decimal(s, start, i))
      invariant -1 <= value <= MAX_INDEX_VALUE
    {
      if !IsDigit(s[i]) {
        break;
      }
      if value > -1 {
        var n := HexToInt(s[i]);
        value := if value <= MAX_FACTOR then value * 10 + n else -1;
      }
      i := i + 1;
    }
    ok := i > start;
  }

  function DecimalsEnd(s: string, i: nat): (j: nat)
    ensures i <= j && (i <= |s| ==> j <= |s|)
  {
    if i < |s| && s[i] == '.' && DigitsEnd(s, i + 1) > i + 1 then DigitsEnd(s, i + 1) else i
  }

  /** Where the digits of an exponent start. */
  function ExponentDigits(s: string, i: nat): (j: nat)
    ensures j == i || (i + 1 <= j <= |s|)
  {
    if i < |s| && (s[i] == 'e' || s[i] == 'E') then
      if i + 1 < |s| && (s[i + 1] == '-' || s[i + 1] == '+') then i + 2 else i + 1
    else i
  }

  function ExponentEnd(s: string, i: nat): (j: nat)
    ensures i <= j && (i <= |s| ==> j <= |s|)
  {
    var d := ExponentDigits(s, i);
    if d > i && DigitsEnd(s, d) > d then DigitsEnd(s, d) else i
  }

  function SignEnd(s: string, i: nat): (j: nat)
    ensures i <= j && (i <= |s| ==> j <= |s|)
  {
    if i < |s| && s[i] == '-' then i + 1 else i
  }

  /** The integer part: a lone zero, or a run of digits. */
  function IntegerEnd(s: string, i: nat): (end: End)
    ensures end.Past? ==> i < end.index <= |s|
  {
    if i >= |s| then Absent
    else if s[i] == '0' then Past(i + 1)
    else if DigitsEnd(s, i) > i then Past(DigitsEnd(s, i))
    else Absent
  }

  function NumberEnd(s: string, i: nat): (end: End)
    ensures end.Past? ==> i < end.index <= |s|
  {
    var whole := IntegerEnd(s, SignEnd(s, i));
    if whole.Absent? then Absent else Past(ExponentEnd(s, DecimalsEnd(s, whole.index)))
  }

  method SkipDecimals(s: string, start: nat) returns (i: nat)
    ensures i == DecimalsEnd(s, start)
  {
    i := start;
    if i < |s| && s[i] == '.' {
      var ok, j, value := SkipDigits(s, i + 1);
      if ok {
        i := j;
      }
    }
  }

  method SkipExponent(s: string, start: nat) returns (i: nat)
    ensures i == ExponentEnd(s, start)
  {
    i := start;
    if i < |s| && (s[i] == 'e' || s[i] == 'E') {
      var at := i + 1;
      if at < |s| && (s[at] == '-' || s[at] == '+') {
        at := at + 1;
      }
      var ok, j, value := SkipDigits(s, at);
      if ok {
        i := j;
      }
    }
  }

  method SkipNumber(s: string, start: nat) returns (ok: bool, i: nat)
    ensures ok <==> NumberEnd(s, start).Past?
    ensures i == if ok then NumberEnd(s, start).index else start
  {
    ok := false;
    var at := start;
    if at < |s| && s[at] == '-' {
      at := at + 1;
    }
    if at < |s| {
      if s[at] == '0' {
        ok, at := true, at + 1;
      } else {
        var value;
        ok, at, value := SkipDigits(s, at);
      }
    }
    if ok {
      at := SkipDecimals(s, at);
      at := SkipExponent(s, at);
    }
    i := if ok then at else start;
  }

  // ----- scalars and separators

  function ScalarEnd(s: string, i: nat): (end: End)
    ensures end.Past? ==> i < end.index <= |s|
  {
    if StringEnd(s, i).Past? then StringEnd(s, i)
    else if LiteralEnd(s, i).Past? then LiteralEnd(s, i)
    else NumberEnd(s, i)
  }

  method SkipAnyScalar(s: string, start: nat) returns (ok: bool, i: nat)
    ensures ok <==> ScalarEnd(s, start).Past?
    ensures i == if ok then ScalarEnd(s, start).index else start
  {
    ok, i := SkipString(s, start);
    if !ok {
      ok, i := SkipAnyLiteral(s, i);
    }
    if !ok {
      ok, i := SkipNumber(s, i);
    }
  }

  /** Behind white space, a comma with something other than a closing bracket after it. */
  predicate CommaFollows(s: string, i: nat) {
    var c := SpaceEnd(s, i);
    c < |s| && s[c] == ',' && SpaceEnd(s, c + 1) < |s| && !IsClose(s[SpaceEnd(s, c + 1)])
  }

  /** Past the comma and its white space, or past the white space alone. */
  function SeparatorEnd(s: string, i: nat): (j: nat)
    ensures i <= j && (i <= |s| ==> j <= |s|)
  {
    if CommaFollows(s, i) then SpaceEnd(s, SpaceEnd(s, i) + 1) else SpaceEnd(s, i)
  }

  method SkipSpaceAndComma(s: string, start: nat) returns (comma: bool, i: nat)
    ensures comma <==> CommaFollows(s, start)
    ensures i == SeparatorEnd(s, start)
  {
    comma := false;
    i := SkipSpace(s, start);
    if i < |s| && s[i] == ',' {
      var j := SkipSpace(s, i + 1);
      if j < |s| && !IsClose(s[j]) {
        comma, i := true, j;
      }
    }
  }

  // ----- runs of scalars

  function ArrayScalarsEnd(s: string, i: nat): (j: nat)
    ensures i <= j && (i <= |s| ==> j <= |s|)
    decreases |s| - i
  {
    if i >= |s| || ScalarEnd(s, i).Absent? then i
    else
      var k := ScalarEnd(s, i).index;
      if CommaFollows(s, k) then ArrayScalarsEnd(s, SeparatorEnd(s, k)) else SeparatorEnd(s, k)
  }

  method SkipArrayScalars(s: string, start: nat) returns (i: nat)
    ensures i == ArrayScalarsEnd(s, start)
  {
    hide ScalarEnd, CommaFollows, SeparatorEnd;
    i := start;
    while i < |s|
      invariant start <= i && ArrayScalarsEnd(s, start) == ArrayScalarsEnd(s, i)
      decreases |s| - i
    {
      var ok, k := SkipAnyScalar(s, i);
      if !ok {
        break;
      }
      var comma, j := SkipSpaceAndComma(s, k);
      i := j;
      if !comma {
        return;
      }
    }
  }

  /** Where the value of a member is expected: past the key, a colon and white space. A key that ends the
      buffer passes for one with a colon; nothing can follow it. */
  function ColonEnd(s: string, i: nat): (end: End)
    ensures end.Past? ==> i < end.index
  {
    if StringEnd(s, i).Absent? then Absent else
    var k := SpaceEnd(s, StringEnd(s, i).index);
    if k < |s| && s[k] != ':' then Absent else Past(SpaceEnd(s, k + 1))
  }

  /** Stops at the bracket of a nested value, or where the last whole member ends. */
  function ObjectScalarsEnd(s: string, i: nat): (j: nat)
    ensures i <= j && (i <= |s| ==> j <= |s|)
    decreases |s| - i
  {
    if i >= |s| || ColonEnd(s, i).Absent? then i else
    var v := ColonEnd(s, i).index;
    if v < |s| && IsOpen(s[v]) then v
    else if ScalarEnd(s, v).Absent? then i
    else
      var k := ScalarEnd(s, v).index;
      if CommaFollows(s, k) then ObjectScalarsEnd(s, SeparatorEnd(s, k)) else SeparatorEnd(s, k)
  }

  method SkipObjectScalars(s: string, start: nat) returns (next: nat)
    ensures next == ObjectScalarsEnd(s, start)
  {
    hide StringEnd, ScalarEnd, CommaFollows, SeparatorEnd, SpaceEnd;
    next := start;
    var i := start;
    while i < |s|
      invariant start <= i == next && ObjectScalarsEnd(s, start) == ObjectScalarsEnd(s, i)
      decreases |s| - i
    {
      var ok, k := SkipString(s, i);
      if !ok {
        break;
      }
      k := SkipSpace(s, k);
      if k < |s| && s[k] != ':' {
        break;
      }
      k := k + 1;
      k := SkipSpace(s, k);
      if k < |s| && IsOpen(s[k]) {
        next := k;
        return;
      }
      ok, k := SkipAnyScalar(s, k);
      if !ok {
        break;
      }
      var comma;
      comma, i := SkipSpaceAndComma(s, k);
      next := i;
      if !comma {
        return;
      }
    }
  }

  function ScalarsEnd(s: string, i: nat, mode: char): (j: nat)
    ensures i <= j && (i <= |s| ==> j <= |s|)
  {
    if mode == '[' then ArrayScalarsEnd(s, SpaceEnd(s, i)) else ObjectScalarsEnd(s, SpaceEnd(s, i))
  }

  method SkipScalars(s: string, start: nat, mode: char) returns (i: nat)
    requires IsOpen(mode)
    ensures i == ScalarsEnd(s, start, mode)
  {
    i := SkipSpace(s, start);
    if mode == '[' {
      i := SkipArrayScalars(s, i);
    } else {
      i := SkipObjectScalars(s, i);
    }
  }
}
