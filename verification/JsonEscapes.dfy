/** The strings of RFC 8259 in full: its grammar has any `\uXXXX`, JSON_Validate refuses zero and lone surrogates. */
module JsonEscapes {

  import opened JsonScanner
  import opened JsonText
  import opened JsonValidator
  import opened JsonSoundness

  // ----- the full grammar

  ghost predicate RfcCharacter(ch: Character) {
    if ch.Unicode? then IsHex4(ch.hex) else ValidCharacter(ch)
  }

  ghost predicate RfcCharacters(chars: seq<Character>) {
    forall k :: 0 <= k < |chars| ==> RfcCharacter(chars[k])
  }

  ghost predicate RfcKey(key: Key, isArray: bool) {
    match key
    case NoKey => isArray
    case Key(name, gap, lead) => !isArray && RfcCharacters(name) && Blank(gap) && Blank(lead)
  }

  ghost predicate Rfc(v: Json) {
    match v
    case Leaf(Str(chars)) => RfcCharacters(chars)
    case Leaf(x) => ValidScalar(x)
    case Node(isArray, lead, list) => Blank(lead) && RfcList(list, isArray)
  }

  ghost predicate RfcList(list: List, isArray: bool) {
    match list
    case Nil => true
    case Cons(key, value, trail, comma, lead, rest) =>
      && RfcKey(key, isArray) && Rfc(value) && Blank(trail) && Blank(lead)
      && (rest.Cons? ==> comma) && RfcList(rest, isArray)
  }

  // ----- the escapes that name characters

  predicate IsHigh(ch: Character) { ch.Unicode? && |ch.hex| == 4 && IsHighSurrogate(HexValue(ch.hex, 0, 4)) }

  predicate IsLow(ch: Character) { ch.Unicode? && |ch.hex| == 4 && IsLowSurrogate(HexValue(ch.hex, 0, 4)) }

  predicate IsZero(ch: Character) { ch.Unicode? && |ch.hex| == 4 && HexValue(ch.hex, 0, 4) == 0 }

  /** No escape is zero, every high surrogate is followed by a low one, and no low one stands elsewhere. */
  predicate Paired(chars: seq<Character>) {
    if chars == [] then true
    else if IsHigh(chars[0]) then |chars| > 1 && IsLow(chars[1]) && Paired(chars[2..])
    else !IsZero(chars[0]) && !IsLow(chars[0]) && Paired(chars[1..])
  }

  predicate PairedTree(v: Json) {
    match v
    case Leaf(Str(chars)) => Paired(chars)
    case Leaf(_) => true
    case Node(_, _, list) => PairedList(list)
  }

  predicate PairedList(list: List) {
    match list
    case Nil => true
    case Cons(key, value, _, _, _, rest) => (key.Key? ==> Paired(key.name)) && PairedTree(value) && PairedList(rest)
  }

  // ----- the same, scanned from the text

  /** From here to the end, inside or outside a string, the `\u` escapes name characters. */
  predicate Escapes(s: string, inString: bool)
    decreases |s|
  {
    if s == "" then true
    else if !inString then Escapes(s[1..], s[0] == '"')
    else if s[0] == '"' then Escapes(s[1..], false)
    else if s[0] != '\\' then Escapes(s[1..], true)
    else if |s| < 2 then false
    else if s[1] != 'u' then Escapes(s[2..], true)
    else HexEscapeEnd(s, 0).Past? && Escapes(s[HexEscapeEnd(s, 0).index..], true)
  }

  lemma {:induction false} Rest(a: string, b: string)
    ensures (a + b)[|a|..] == b
  {
  }

  lemma {:induction false} OutsideSkipped(t: string, rest: string)
    requires '"' !in t
    ensures Escapes(t + rest, false) == Escapes(rest, false)
  {
    if t == "" {
      assert t + rest == rest;
    } else {
      assert t[0] in t;
      assert (t + rest)[1..] == t[1..] + rest;
      OutsideSkipped(t[1..], rest);
    }
  }

  lemma {:induction false} InsideSkipped(t: string, rest: string)
    requires '"' !in t && '\\' !in t
    ensures Escapes(t + rest, true) == Escapes(rest, true)
  {
    if t == "" {
      assert t + rest == rest;
    } else {
      assert t[0] in t;
      assert (t + rest)[1..] == t[1..] + rest;
      InsideSkipped(t[1..], rest);
    }
  }

  /** Characters both the full grammar and the code's own have. */
  ghost predicate Spelled(chars: seq<Character>) {
    forall k :: 0 <= k < |chars| ==> LooseCharacter(chars[k]) || RfcCharacter(chars[k])
  }

  lemma {:induction false} PlainBytes(cp: ScalarValue)
    requires cp >= 0x20 && cp != 0x22 && cp != 0x5C
    ensures '"' !in Utf8(cp) && '\\' !in Utf8(cp)
  {
    forall k | 0 <= k < |Utf8(cp)|
      ensures Utf8(cp)[k] != '"' && Utf8(cp)[k] != '\\'
    {
      if k == 0 {
        Utf8First(cp);
      } else if cp < 0x800 {
        assert Utf8(cp)[k] == Trail(cp % 64);
      } else if cp < 0x1_0000 {
        assert Utf8(cp)[k] == Trail(if k == 1 then cp / 64 % 64 else cp % 64);
      } else {
        assert Utf8(cp)[k] == Trail(if k == 1 then cp / 4096 % 64 else if k == 2 then cp / 64 % 64 else cp % 64);
      }
    }
  }

  /** The escape standing behind `before`, with more text behind it. */
  lemma {:induction false} HexStands(before: string, hex: string, tail: string)
    requires IsHex4(hex) && tail != ""
    ensures var s, i := before + ((['\\', 'u'] + hex) + tail), |before|;
      && i + 6 < |s|
      && (OneHexEscape(s, i) <==> HexValue(hex, 0, 4) > 0) && HexValue(s, i + 2, 4) == HexValue(hex, 0, 4)
  {
    hide HexValue;
    var s, i := before + ((['\\', 'u'] + hex) + tail), |before|;
    assert s[i] == '\\' && s[i + 1] == 'u';
    forall k | 0 <= k < 4 ensures s[i + 2 + k] == hex[k] {
    }
    assert At(s, i + 2, hex);
    HexMoves(s, i + 2, hex);
  }

  lemma {:induction false} CharactersSplit(chars: seq<Character>, tail: string)
    requires chars != []
    ensures CharactersText(chars) + tail == CharacterText(chars[0]) + (CharactersText(chars[1..]) + tail)
  {
  }

  /** What is no `\u` escape does not look like one. */
  lemma {:induction false} NoEscapeAhead(before: string, chars: seq<Character>, rest: string)
    requires Spelled(chars) && (chars != [] ==> !chars[0].Unicode? && !chars[0].Surrogates?)
    ensures !OneHexEscape(before + (CharactersText(chars) + (['"'] + rest)), |before|)
  {
    hide HexValue, AllHex, Utf8;
    var t := CharactersText(chars) + (['"'] + rest);
    var s := before + t;
    if chars == [] {
      assert t[0] == '"' && s[|before|] == t[0];
    } else {
      CharactersSplit(chars, ['"'] + rest);
      var first := CharacterText(chars[0]);
      assert t[0] == first[0] && s[|before|] == t[0];
      if chars[0].Plain? {
        PlainBytes(chars[0].cp);
        assert first[0] in first;
      } else {
        assert t[1] == first[1] && s[|before| + 1] == t[1];
      }
    }
  }

  /** Inside a string the scan decides whether the escapes pair up. */
  lemma {:induction false} CharactersScanned(chars: seq<Character>, rest: string)
    requires Spelled(chars)
    ensures Escapes(CharactersText(chars) + (['"'] + rest), true) <==> Paired(chars) && Escapes(rest, false)
    decreases |chars|
  {
    hide HexValue, AllHex, Utf8, OneHexEscape, CharactersText;
    var t := CharactersText(chars) + (['"'] + rest);
    if chars == [] {
      NoCharacters();
      assert t == ['"'] + rest;
      Rest(['"'], rest);
    } else {
      var first, tail := CharacterText(chars[0]), CharactersText(chars[1..]) + (['"'] + rest);
      CharactersSplit(chars, ['"'] + rest);
      Rest(first, tail);
      SpelledHex(chars);
      CharactersScanned(chars[1..], rest);
      match chars[0]
      case Plain(cp) => PlainScanned(cp, tail);
      case Short(c) => ShortScanned(c, tail);
      case Unicode(hex) =>
        if IsHigh(chars[0]) {
          HighPaired(chars, rest);
          if |chars| > 1 {
            CharactersScanned(chars[2..], rest);
          }
        } else {
          UnicodeScanned(hex, tail);
        }
      case Surrogates(high, low) => SurrogatesScanned(high, low, tail);
    }
  }

  lemma {:induction false} NoCharacters()
    ensures CharactersText([]) == ""
  {
  }

  lemma {:induction false} PlainScanned(cp: ScalarValue, tail: string)
    requires LooseCharacter(Plain(cp))
    ensures Escapes(CharacterText(Plain(cp)) + tail, true) == Escapes(tail, true)
  {
    hide Utf8, Escapes;
    PlainBytes(cp);
    InsideSkipped(Utf8(cp), tail);
  }

  lemma {:induction false} ShortScanned(c: char, tail: string)
    requires LooseCharacter(Short(c))
    ensures Escapes(CharacterText(Short(c)) + tail, true) == Escapes(tail, true)
  {
    var t := ['\\', c] + tail;
    assert t[0] == '\\' && t[1] == c;
    Rest(['\\', c], tail);
  }

  lemma {:induction false} SurrogatesScanned(high: string, low: string, tail: string)
    requires LooseCharacter(Surrogates(high, low)) && tail != ""
    ensures Escapes(CharacterText(Surrogates(high, low)) + tail, true) == Escapes(tail, true)
  {
    hide HexValue, AllHex, OneHexEscape;
    var a, b := ['\\', 'u'] + high, ['\\', 'u'] + low;
    var t := CharacterText(Surrogates(high, low)) + tail;
    PairText(high, low);
    assert t == "" + (a + (b + tail)) == a + (b + tail);
    HexStands("", high, b + tail);
    HexStands(a, low, tail);
    assert t == (a + b) + tail && |a + b| == 12;
    Rest(a + b, tail);
    assert t[0] == '\\' && t[1] == 'u';
  }

  lemma {:induction false} SpelledHex(chars: seq<Character>)
    requires Spelled(chars) && chars != []
    ensures chars[0].Unicode? ==> IsHex4(chars[0].hex)
    ensures chars[0].Surrogates? ==> LooseCharacter(chars[0])
  {
  }

  /** An escape that is no high surrogate. */
  lemma {:induction false} UnicodeScanned(hex: string, tail: string)
    requires IsHex4(hex) && tail != "" && !IsHigh(Unicode(hex))
    ensures Escapes(CharacterText(Unicode(hex)) + tail, true)
        <==> !IsZero(Unicode(hex)) && !IsLow(Unicode(hex)) && Escapes(tail, true)
  {
    hide HexValue, AllHex, OneHexEscape;
    var a := CharacterText(Unicode(hex));
    var t := a + tail;
    assert t == "" + t;
    HexStands("", hex, tail);
    Rest(a, tail);
    assert t[0] == '\\' && t[1] == 'u';
  }

  /** A high surrogate: the scan passes it together with a low one, or not at all. */
  lemma {:induction false} HighScanned(hex: string, tail: string)
    requires IsHex4(hex) && tail != "" && IsHigh(Unicode(hex))
    ensures var a := CharacterText(Unicode(hex));
      Escapes(a + tail, true) <==>
      && OneHexEscape(a + tail, 6) && IsLowSurrogate(HexValue(a + tail, 8, 4)) && 12 < |a + tail|
      && Escapes((a + tail)[12..], true)
  {
    hide HexValue, AllHex;
    var t := CharacterText(Unicode(hex)) + tail;
    assert t == "" + t;
    HexStands("", hex, tail);
    assert t[0] == '\\' && t[1] == 'u';
  }

  /** A high surrogate is passed exactly in front of a low one. */
  lemma {:induction false} HighPaired(chars: seq<Character>, rest: string)
    requires Spelled(chars) && chars != [] && IsHigh(chars[0])
    ensures var text := CharactersText(chars) + (['"'] + rest);
      Escapes(text, true) <==>
      |chars| > 1 && IsLow(chars[1]) && Escapes(CharactersText(chars[2..]) + (['"'] + rest), true)
  {
    hide HexValue, AllHex, Utf8, OneHexEscape, CharactersText, LooseCharacter, Escapes;
    var a, next := CharacterText(chars[0]), chars[1..];
    var tail := CharactersText(next) + (['"'] + rest);
    SpelledHex(chars);
    CharactersSplit(chars, ['"'] + rest);
    HighScanned(chars[0].hex, tail);
    if next == [] || !(next[0].Unicode? || next[0].Surrogates?) {
      NoEscapeAhead(a, next, rest);
    } else {
      SpelledHex(next);
      CharactersSplit(next, ['"'] + rest);
      SecondEscape(a, next[0], CharactersText(next[1..]) + (['"'] + rest));
      assert next[1..] == chars[2..];
    }
  }

  lemma {:induction false} SecondEscape(a: string, ch: Character, tail: string)
    requires |a| == 6 && tail != ""
    requires (ch.Unicode? && IsHex4(ch.hex)) || (ch.Surrogates? && LooseCharacter(ch))
    ensures var t := a + (CharacterText(ch) + tail);
      && |t| > 12 && (OneHexEscape(t, 6) && IsLowSurrogate(HexValue(t, 8, 4)) <==> IsLow(ch))
      && (ch.Unicode? ==> t[12..] == tail)
  {
    hide HexValue, AllHex, OneHexEscape;
    if ch.Unicode? {
      HexStands(a, ch.hex, tail);
    } else {
      var b := ['\\', 'u'] + ch.low;
      PairText(ch.high, ch.low);
      assert CharacterText(ch) + tail == (['\\', 'u'] + ch.high) + (b + tail);
      HexStands(a, ch.high, b + tail);
    }
  }

  // ----- trees

  /** Trees both the full grammar and the code's own have, as far as the scan sees them. */
  ghost predicate SpelledTree(v: Json) {
    match v
    case Leaf(Str(chars)) => Spelled(chars)
    case Leaf(x) => LooseScalar(x)
    case Node(_, lead, list) => Blank(lead) && SpelledList(list)
  }

  ghost predicate SpelledList(list: List) {
    match list
    case Nil => true
    case Cons(key, value, trail, _, lead, rest) =>
      && SpelledKey(key) && SpelledTree(value) && Blank(trail) && Blank(lead) && SpelledList(rest)
  }

  ghost predicate SpelledKey(key: Key) {
    key.Key? ==> Spelled(key.name) && Blank(key.gap) && Blank(key.lead)
  }

  lemma {:induction false} RfcIsSpelled(v: Json)
    requires Rfc(v)
    ensures SpelledTree(v)
    decreases v, 0
  {
    hide LooseCharacter, ValidNumber;
    if v.Node? {
      RfcListIsSpelled(v.list, v.isArray);
    }
  }

  lemma {:induction false} RfcListIsSpelled(list: List, isArray: bool)
    requires RfcList(list, isArray)
    ensures SpelledList(list)
    decreases list, 1
  {
    if list.Cons? {
      RfcIsSpelled(list.value);
      RfcListIsSpelled(list.rest, isArray);
    }
  }

  lemma {:induction false} ValidIsRfc(v: Json)
    requires Valid(v)
    ensures Rfc(v)
    decreases v, 0
  {
    if v.Node? {
      ValidListIsRfc(v.list, v.isArray);
    }
  }

  lemma {:induction false} ValidListIsRfc(list: List, isArray: bool)
    requires ValidList(list, isArray)
    ensures RfcList(list, isArray)
    decreases list, 1
  {
    if list.Cons? {
      ValidIsRfc(list.value);
      ValidListIsRfc(list.rest, isArray);
    }
  }

  lemma {:induction false} LooseArePaired(chars: seq<Character>)
    requires LooseCharacters(chars)
    ensures Spelled(chars) && Paired(chars)
  {
    hide HexValue, AllHex;
    if chars != [] {
      assert LooseCharacter(chars[0]);
      LooseArePaired(chars[1..]);
    }
  }

  /** What the code takes has its escapes in pairs. */
  lemma {:induction false} LooseIsPaired(v: Json)
    requires Loose(v)
    ensures SpelledTree(v) && PairedTree(v)
    decreases v, 0
  {
    hide Paired, LooseCharacters, Spelled;
    match v
    case Leaf(Str(chars)) => LooseArePaired(chars);
    case Leaf(_) =>
    case Node(isArray, _, list) => LooseListIsPaired(list, isArray);
  }

  lemma {:induction false} LooseListIsPaired(list: List, isArray: bool)
    requires LooseList(list, isArray)
    ensures SpelledList(list) && PairedList(list)
    decreases list, 1
  {
    hide Paired, LooseCharacters, Spelled;
    if list.Cons? {
      LooseIsPaired(list.value);
      LooseListIsPaired(list.rest, isArray);
      if list.key.Key? {
        LooseArePaired(list.key.name);
      }
    }
  }

  lemma {:induction false} StringScanned(chars: seq<Character>, rest: string)
    requires Spelled(chars)
    ensures Escapes(StringText(chars) + rest, false) <==> Paired(chars) && Escapes(rest, false)
  {
    hide Paired, Spelled, CharactersText;
    var t := CharactersText(chars) + (['"'] + rest);
    CharactersScanned(chars, rest);
    assert StringText(chars) + rest == ['"'] + t;
    Rest(['"'], t);
  }

  lemma {:induction false} ScalarScanned(x: Scalar, rest: string)
    requires LooseScalar(x) && !x.Str?
    ensures Escapes(ScalarText(x) + rest, false) == Escapes(rest, false)
  {
    hide NumberText, ValidNumber, Escapes;
    if x.Num? {
      NumberIsWord(x.number);
    }
    OutsideSkipped(ScalarText(x), rest);
  }

  lemma {:induction false} BlankScanned(ws: string, rest: string)
    requires Blank(ws)
    ensures Escapes(ws + rest, false) == Escapes(rest, false)
  {
    hide Escapes;
    OutsideSkipped(ws, rest);
  }

  lemma {:induction false} MarkScanned(c: char, rest: string)
    requires c != '"'
    ensures Escapes([c] + rest, false) == Escapes(rest, false)
  {
    hide Escapes;
    OutsideSkipped([c], rest);
  }

  lemma {:induction false} KeyScanned(key: Key, rest: string)
    requires SpelledKey(key)
    ensures Escapes(KeyText(key) + rest, false) <==> (key.Key? ==> Paired(key.name)) && Escapes(rest, false)
  {
    hide Escapes, Paired, Spelled, StringText, Blank;
    match key
    case NoKey => assert KeyText(key) + rest == rest;
    case Key(name, gap, lead) =>
      StringScanned(name, gap + ([':'] + (lead + rest)));
      BlankScanned(gap, [':'] + (lead + rest));
      MarkScanned(':', lead + rest);
      BlankScanned(lead, rest);
      Associate(StringText(name), gap, [':'], lead, rest);
  }

  lemma {:induction false} TreeScanned(v: Json, rest: string)
    requires SpelledTree(v)
    ensures Escapes(Text(v) + rest, false) <==> PairedTree(v) && Escapes(rest, false)
    decreases v, 0
  {
    hide Escapes, Paired, Spelled, StringText, Blank, ListText, LooseScalar;
    match v
    case Leaf(x) =>
      if x.Str? {
        StringScanned(x.chars, rest);
      } else {
        ScalarScanned(x, rest);
      }
    case Node(isArray, lead, list) =>
      var tail := [Closing(isArray)] + rest;
      Associate([Opening(isArray)], lead, ListText(list), [Closing(isArray)], rest);
      MarkScanned(Opening(isArray), lead + (ListText(list) + tail));
      BlankScanned(lead, ListText(list) + tail);
      ListScanned(list, tail);
      MarkScanned(Closing(isArray), rest);
  }

  lemma {:induction false} ListScanned(list: List, rest: string)
    requires SpelledList(list)
    ensures Escapes(ListText(list) + rest, false) <==> PairedList(list) && Escapes(rest, false)
    decreases list, 2
  {
    hide Escapes, Paired, Spelled, StringText, Blank, LooseScalar, KeyText, Text, SeparatedText, SpelledKey;
    if list.Nil? {
      assert ListText(list) + rest == rest;
    } else {
      var tail := SeparatedText(list.comma, list.lead, list.rest) + rest;
      Associate(KeyText(list.key), Text(list.value), list.trail,
                SeparatedText(list.comma, list.lead, list.rest), rest);
      KeyScanned(list.key, Text(list.value) + (list.trail + tail));
      TreeScanned(list.value, list.trail + tail);
      BlankScanned(list.trail, tail);
      SeparatorScanned(list.comma, list.lead, list.rest, rest);
    }
  }

  lemma {:induction false} SeparatorScanned(comma: bool, lead: string, list: List, rest: string)
    requires SpelledList(list) && Blank(lead)
    ensures Escapes(SeparatedText(comma, lead, list) + rest, false) <==> PairedList(list) && Escapes(rest, false)
    decreases list, 3
  {
    hide Escapes, Blank, ListText, SpelledList;
    if list.Nil? {
      assert "" + rest == rest;
    } else {
      ListScanned(list, rest);
      if comma {
        MarkScanned(',', lead + (ListText(list) + rest));
        BlankScanned(lead, ListText(list) + rest);
        assert ([','] + (lead + ListText(list))) + rest == [','] + (lead + (ListText(list) + rest));
      }
    }
  }

  lemma {:induction false} DocumentEscapes(before: string, v: Json, behind: string)
    requires SpelledTree(v) && Blank(before) && Blank(behind)
    ensures Escapes(before + Text(v) + behind, false) <==> PairedTree(v)
  {
    hide Blank, Text, SpelledTree, PairedTree;
    assert before + Text(v) + behind == before + (Text(v) + behind);
    BlankScanned(before, Text(v) + behind);
    TreeScanned(v, behind);
    assert behind + "" == behind;
    BlankScanned(behind, "");
  }

  // ----- the pairs put together

  function Merged(chars: seq<Character>): seq<Character> {
    if chars == [] then []
    else if IsHigh(chars[0]) && |chars| > 1 && IsLow(chars[1]) then
      [Surrogates(chars[0].hex, chars[1].hex)] + Merged(chars[2..])
    else [chars[0]] + Merged(chars[1..])
  }

  function MergedKey(key: Key): Key {
    if key.Key? then key.(name := Merged(key.name)) else key
  }

  function MergedTree(v: Json): (r: Json)
    ensures r.Node? == v.Node?
  {
    match v
    case Leaf(Str(chars)) => Leaf(Str(Merged(chars)))
    case Leaf(x) => v
    case Node(isArray, lead, list) => Node(isArray, lead, MergedList(list))
  }

  function MergedList(list: List): (r: List)
    ensures r.Cons? == list.Cons?
  {
    match list
    case Nil => Nil
    case Cons(key, value, trail, comma, lead, rest) =>
      Cons(MergedKey(key), MergedTree(value), trail, comma, lead, MergedList(rest))
  }

  lemma {:induction false} MergedText(chars: seq<Character>)
    requires RfcCharacters(chars) && Paired(chars)
    ensures ValidCharacters(Merged(chars)) && CharactersText(Merged(chars)) == CharactersText(chars)
    decreases |chars|
  {
    hide HexValue, AllHex, IsZero, CharactersText, CharacterText, RfcCharacter, ValidCharacter;
    if chars != [] {
      var n := if IsHigh(chars[0]) then 2 else 1;
      var rest := chars[n..];
      MergedText(rest);
      if n == 2 {
        PairMerged(chars);
        ConsMerged(Surrogates(chars[0].hex, chars[1].hex), Merged(rest));
      } else {
        SingleValid(chars[0]);
        ConsMerged(chars[0], Merged(rest));
        ConsText(chars[0], rest);
        assert chars == [chars[0]] + rest;
      }
    }
  }

  lemma {:induction false} SingleValid(ch: Character)
    requires RfcCharacter(ch) && !IsHigh(ch) && !IsLow(ch) && !IsZero(ch)
    ensures ValidCharacter(ch)
  {
    hide HexValue, AllHex, Utf8;
  }

  /** A pair of escapes is one character with the same text. */
  lemma {:induction false} PairMerged(chars: seq<Character>)
    requires |chars| > 1 && RfcCharacters(chars) && IsHigh(chars[0]) && IsLow(chars[1])
    ensures var pair := Surrogates(chars[0].hex, chars[1].hex);
      ValidCharacter(pair) && CharactersText(chars) == CharacterText(pair) + CharactersText(chars[2..])
  {
    hide HexValue, AllHex, Utf8, CharactersText;
    var a, b, rest := chars[0], chars[1], chars[2..];
    assert RfcCharacter(a) && RfcCharacter(b);
    PairText(a.hex, b.hex);
    assert chars == [a] + ([b] + rest);
    ConsText(a, [b] + rest);
    ConsText(b, rest);
  }

  lemma {:induction false} ConsMerged(ch: Character, chars: seq<Character>)
    requires ValidCharacter(ch) && ValidCharacters(chars)
    ensures ValidCharacters([ch] + chars) && CharactersText([ch] + chars) == CharacterText(ch) + CharactersText(chars)
  {
    hide ValidCharacter, CharactersText, CharacterText;
    ConsText(ch, chars);
  }

  lemma {:induction false} ConsText(ch: Character, chars: seq<Character>)
    ensures CharactersText([ch] + chars) == CharacterText(ch) + CharactersText(chars)
  {
    hide CharacterText;
    assert ([ch] + chars)[1..] == chars;
  }

  lemma {:induction false} MergedIsValid(v: Json)
    requires Rfc(v) && PairedTree(v)
    ensures Valid(MergedTree(v)) && Text(MergedTree(v)) == Text(v) && Depth(MergedTree(v)) == Depth(v)
    decreases v, 0
  {
    hide Paired, RfcCharacters, ValidCharacters, CharactersText, Merged, Blank, ValidNumber, ListText;
    match v
    case Leaf(Str(chars)) => MergedText(chars);
    case Leaf(_) =>
    case Node(isArray, _, list) => MergedListIsValid(list, isArray);
  }

  lemma {:induction false} MergedListIsValid(list: List, isArray: bool)
    requires RfcList(list, isArray) && PairedList(list)
    ensures ValidList(MergedList(list), isArray) && ListText(MergedList(list)) == ListText(list)
    ensures ListDepth(MergedList(list)) == ListDepth(list)
    decreases list, 1
  {
    hide Paired, RfcCharacters, ValidCharacters, CharactersText, Merged, Blank, Text, Valid, Rfc;
    if list.Cons? {
      MergedIsValid(list.value);
      MergedListIsValid(list.rest, isArray);
      if list.key.Key? {
        MergedText(list.key.name);
      }
    }
  }

  // ----- JSON_Validate on the full grammar

  ghost predicate RfcDocument(s: string, before: string, v: Json, behind: string) {
    Rfc(v) && Blank(before) && Blank(behind) && s == before + Text(v) + behind
  }

  ghost predicate IsRfcText(s: string) {
    exists before, v, behind :: RfcDocument(s, before, v, behind)
  }

  /** A text of RFC 8259 is accepted if and only if it nests at most 32 deep and its `\u` escapes name characters. */
  lemma {:induction false} RfcTextAcceptedIff(s: string, before: string, v: Json, behind: string)
    requires RfcDocument(s, before, v, behind)
    ensures Validity(s) == JSONSuccess <==> Depth(v) <= 32 && Escapes(s, false)
    ensures Escapes(s, false) && Depth(v) > 32 ==> Validity(s) == JSONMaxDepthExceeded
    ensures Escapes(s, false) <==> PairedTree(v)
  {
    hide Validity, Rfc, Loose, Valid, Blank, Text, Depth, PairedTree, Escapes, MergedTree;
    RfcIsSpelled(v);
    DocumentEscapes(before, v, behind);
    if Validity(s) == JSONSuccess {
      var b, u, c := AcceptedParsed(s);
      LooseIsPaired(u);
      DocumentEscapes(b, u, c);
    }
    if PairedTree(v) {
      MergedIsValid(v);
      EveryTextIsAccepted(s, before, MergedTree(v), behind);
    }
  }

  /** Of the buffers accepted, those that are texts of RFC 8259 are again the ones in which nothing is loose. */
  lemma {:induction false} AcceptedIsRfcTextIff(s: string)
    requires Validity(s) == JSONSuccess
    ensures IsRfcText(s) <==> Tidy(s, 0, "", true)
  {
    hide Validity, Rfc, Loose, Valid, Blank, Text, Depth, PairedTree, Escapes, MergedTree, Tidy;
    AcceptedIsJsonTextIff(s);
    forall before, v, behind | Document(s, before, v, behind)
      ensures IsRfcText(s)
    {
      ValidIsRfc(v);
      assert RfcDocument(s, before, v, behind);
    }
    forall before, v, behind | RfcDocument(s, before, v, behind)
      ensures IsJsonText(s)
    {
      RfcTextAcceptedIff(s, before, v, behind);
      MergedIsValid(v);
      assert Document(s, before, MergedTree(v), behind);
    }
  }
}
