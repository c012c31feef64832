/** What JSON_Validate accepts, exactly: the texts of loose trees nested at most 32 deep, and among them those of
    RFC 8259. */
module JsonSoundness {

  import opened JsonScanner
  import opened JsonText
  import opened JsonValidator

  // ----- every token passed is the text of a token

  lemma {:induction false} SliceAt(s: string, i: nat, j: nat)
    requires i <= j <= |s|
    ensures At(s, i, s[i..j]) && |s[i..j]| == j - i
  {
  }

  lemma {:induction false} AtTwo(s: string, i: nat, a: string, b: string)
    requires At(s, i, a) && At(s, i + |a|, b)
    ensures At(s, i, a + b)
  {
    AtConcat(s, i, a, b);
  }

  lemma {:induction false} SpacePassed(s: string, i: nat)
    requires i <= |s|
    ensures SpaceEnd(s, i) <= |s| && Blank(s[i..SpaceEnd(s, i)]) && At(s, i, s[i..SpaceEnd(s, i)])
    decreases |s| - i
  {
    if i < |s| && IsSpace(s[i]) {
      SpacePassed(s, i + 1);
      assert s[i..SpaceEnd(s, i)] == [s[i]] + s[i + 1..SpaceEnd(s, i)];
    }
  }

  lemma {:induction false} HexPassed(s: string, i: nat) returns (hex: string)
    requires OneHexEscape(s, i)
    ensures IsHex4(hex) && HexValue(hex, 0, 4) == HexValue(s, i + 2, 4) && At(s, i, ['\\', 'u'] + hex)
  {
    hex := s[i + 2..i + 6];
    assert hex[0] == s[i + 2] && hex[1] == s[i + 3] && hex[2] == s[i + 4] && hex[3] == s[i + 5];
    HexUnrolled(s, i + 2);
    HexUnrolled(hex, 0);
    assert AllHex(hex, 0, 4);
    AtTwo(s, i, ['\\', 'u'], hex);
  }

  lemma {:induction false} EscapePassed(s: string, i: nat) returns (ch: Character)
    requires EscapeEnd(s, i).Past?
    ensures LooseCharacter(ch) && At(s, i, CharacterText(ch)) && EscapeEnd(s, i) == Past(i + |CharacterText(ch)|)
  {
    hide HexValue, AllHex;
    if s[i + 1] == 'u' {
      var hex := HexPassed(s, i);
      if IsHighSurrogate(HexValue(s, i + 2, 4)) {
        var low := HexPassed(s, i + 6);
        ch := Surrogates(hex, low);
        AtTwo(s, i, ['\\', 'u'] + hex, ['\\', 'u'] + low);
        PairText(hex, low);
      } else {
        ch := Unicode(hex);
      }
    } else {
      ch := Short(s[i + 1]);
    }
  }

  lemma {:induction false} CharacterPassed(s: string, i: nat) returns (ch: Character)
    requires i < |s| && s[i] != '"' && CharacterEnd(s, i).Past?
    ensures LooseCharacter(ch) && At(s, i, CharacterText(ch)) && CharacterEnd(s, i) == Past(i + |CharacterText(ch)|)
  {
    hide Utf8, Utf8End, EscapeEnd;
    if s[i] == '\\' {
      ch := EscapePassed(s, i);
    } else {
      var cp := Utf8Sound(s, i);
      Utf8First(cp);
      AtChar(s, i, Utf8(cp), 0);
      ch := Plain(cp);
    }
  }

  lemma {:induction false} CharactersPassed(s: string, i: nat) returns (chars: seq<Character>)
    requires CharactersEnd(s, i).Past?
    ensures LooseCharacters(chars) && At(s, i, CharactersText(chars) + ['"'])
    ensures CharactersEnd(s, i) == Past(i + |CharactersText(chars)| + 1)
    decreases |s| - i
  {
    hide At, CharacterText, CharacterEnd, LooseCharacter;
    if s[i] == '"' {
      chars := [];
      AtFirst(s, i, '"');
      assert CharactersText(chars) + ['"'] == ['"'];
    } else {
      var ch := CharacterPassed(s, i);
      var rest := CharactersPassed(s, CharacterEnd(s, i).index);
      chars := [ch] + rest;
      assert chars[1..] == rest;
      AtTwo(s, i, CharacterText(ch), CharactersText(rest) + ['"']);
      assert CharactersText(chars) + ['"'] == CharacterText(ch) + (CharactersText(rest) + ['"']);
    }
  }

  lemma {:induction false} StringPassed(s: string, i: nat) returns (chars: seq<Character>)
    requires StringEnd(s, i).Past?
    ensures LooseCharacters(chars) && At(s, i, StringText(chars)) && StringEnd(s, i) == Past(i + |StringText(chars)|)
  {
    hide At, CharactersEnd, CharactersText, LooseCharacters;
    chars := CharactersPassed(s, i + 1);
    AtFirst(s, i, '"');
    AtTwo(s, i, ['"'], CharactersText(chars) + ['"']);
    assert StringText(chars) == ['"'] + (CharactersText(chars) + ['"']);
  }

  lemma {:induction false} DigitsPassed(s: string, i: nat)
    requires i <= |s|
    ensures DigitsEnd(s, i) <= |s| && AllDigits(s[i..DigitsEnd(s, i)])
  {
  }

  lemma {:induction false} ExponentPassed(s: string, i: nat) returns (x: Exponent)
    requires i <= |s|
    ensures ValidExponent(x) && At(s, i, ExponentText(x)) && ExponentEnd(s, i) == i + |ExponentText(x)|
  {
    hide DigitsEnd, At;
    var d := ExponentDigits(s, i);
    if d > i && DigitsEnd(s, d) > d {
      DigitsPassed(s, d);
      x := Power(s[i], s[i + 1..d], s[d..DigitsEnd(s, d)]);
      SliceAt(s, i + 1, d);
      SliceAt(s, d, DigitsEnd(s, d));
      AtFirst(s, i, x.e);
      AtTwo(s, i + 1, x.sign, x.digits);
      AtTwo(s, i, [x.e], x.sign + x.digits);
      assert ExponentText(x) == [x.e] + (x.sign + x.digits);
    } else {
      x := NoExponent;
      SliceAt(s, i, i);
    }
  }

  ghost predicate ValidExponent(x: Exponent) {
    x.Power? ==>
      && (x.e == 'e' || x.e == 'E')
      && |x.sign| <= 1 && (|x.sign| == 1 ==> x.sign[0] == '+' || x.sign[0] == '-')
      && |x.digits| > 0 && AllDigits(x.digits)
  }

  lemma {:induction false} DecimalsPassed(s: string, i: nat) returns (fraction: string)
    requires i <= |s|
    ensures AllDigits(fraction) && At(s, i, FractionText(fraction))
    ensures DecimalsEnd(s, i) == i + |FractionText(fraction)|
  {
    hide DigitsEnd, At;
    if DecimalsEnd(s, i) > i {
      DigitsPassed(s, i + 1);
      fraction := s[i + 1..DigitsEnd(s, i + 1)];
      SliceAt(s, i + 1, DigitsEnd(s, i + 1));
      AtFirst(s, i, '.');
      AtTwo(s, i, ['.'], fraction);
    } else {
      fraction := "";
      SliceAt(s, i, i);
    }
  }

  lemma {:induction false} WholePassed(s: string, w: nat) returns (whole: string)
    requires IntegerEnd(s, w).Past?
    ensures |whole| > 0 && AllDigits(whole) && (whole[0] == '0' ==> |whole| == 1)
    ensures At(s, w, whole) && IntegerEnd(s, w) == Past(w + |whole|)
  {
    hide DigitsEnd;
    var e := IntegerEnd(s, w).index;
    whole := s[w..e];
    SliceAt(s, w, e);
    if s[w] != '0' {
      DigitsPassed(s, w);
    }
  }

  lemma {:induction false} NumberPassed(s: string, i: nat) returns (n: Number)
    requires NumberEnd(s, i).Past?
    ensures ValidNumber(n) && At(s, i, NumberText(n)) && NumberEnd(s, i) == Past(i + |NumberText(n)|)
  {
    hide At, IntegerEnd, DecimalsEnd, ExponentEnd, ExponentText, FractionText;
    var w := SignEnd(s, i);
    var whole := WholePassed(s, w);
    var f := w + |whole|;
    var fraction := DecimalsPassed(s, f);
    var x := ExponentPassed(s, DecimalsEnd(s, f));
    n := Number(w > i, whole, fraction, x);
    SignPassed(s, i);
    AtTwo(s, f, FractionText(fraction), ExponentText(x));
    AtTwo(s, w, whole, FractionText(fraction) + ExponentText(x));
    AtTwo(s, i, SignText(n.minus), whole + (FractionText(fraction) + ExponentText(x)));
  }

  lemma {:induction false} SignPassed(s: string, i: nat)
    requires i <= |s|
    ensures var sign := SignText(SignEnd(s, i) > i); At(s, i, sign) && SignEnd(s, i) == i + |sign|
  {
    hide At;
    if SignEnd(s, i) > i {
      AtFirst(s, i, '-');
    } else {
      SliceAt(s, i, i);
    }
  }

  /** What the scanner passes as a scalar is the text of one. */
  lemma {:induction false} ScalarPassed(s: string, i: nat) returns (x: Scalar)
    requires ScalarEnd(s, i).Past?
    ensures LooseScalar(x) && At(s, i, ScalarText(x)) && ScalarEnd(s, i) == Past(i + |ScalarText(x)|)
  {
    hide At, StringEnd, NumberEnd, StringText, NumberText, LooseCharacters, ValidNumber;
    if StringEnd(s, i).Past? {
      var chars := StringPassed(s, i);
      x := Str(chars);
    } else if LiteralEnd(s, i).Past? {
      x := if At(s, i, TRUE) then True else if At(s, i, FALSE) then False else Null;
    } else {
      var n := NumberPassed(s, i);
      x := Num(n);
    }
  }

  // ----- a successful run of the stack machine reads a tree

  lemma {:induction false} KeyRead(s: string, p: nat) returns (key: Key)
    requires ColonEnd(s, p).Past? && ColonEnd(s, p).index < |s|
    ensures key.Key? && LooseCharacters(key.name) && Blank(key.gap) && Blank(key.lead)
    ensures At(s, p, KeyText(key)) && ColonEnd(s, p) == Past(p + |KeyText(key)|)
  {
    hide At, StringEnd, SpaceEnd, StringText, Blank, LooseCharacters, ColonEnd, KeyText;
    var k := ColonAt(s, p);
    var name := StringPassed(s, p);
    var g := StringEnd(s, p).index;
    SpacePassed(s, g);
    SpacePassed(s, k + 1);
    AtFirst(s, k, ':');
    var gap, lead := s[g..k], s[k + 1..SpaceEnd(s, k + 1)];
    key := Key(name, gap, lead);
    KeyBuilt(s, p, key);
  }

  lemma {:induction false} KeyBuilt(s: string, p: nat, key: Key)
    requires key.Key? && At(s, p, StringText(key.name)) && At(s, p + |StringText(key.name)|, key.gap)
    requires var k := p + |StringText(key.name)| + |key.gap|; At(s, k, [':']) && At(s, k + 1, key.lead)
    ensures At(s, p, KeyText(key)) && |KeyText(key)| == |StringText(key.name)| + |key.gap| + 1 + |key.lead|
  {
    hide At, StringText;
    var g := p + |StringText(key.name)|;
    AtTwo(s, g + |key.gap|, [':'], key.lead);
    AtTwo(s, g, key.gap, [':'] + key.lead);
    AtTwo(s, p, StringText(key.name), key.gap + ([':'] + key.lead));
  }

  /** The colon of a key. */
  lemma {:induction false} ColonAt(s: string, p: nat) returns (k: nat)
    requires ColonEnd(s, p).Past? && ColonEnd(s, p).index < |s|
    ensures StringEnd(s, p).Past? && StringEnd(s, p).index <= k == SpaceEnd(s, StringEnd(s, p).index) < |s|
    ensures s[k] == ':' && ColonEnd(s, p) == Past(SpaceEnd(s, k + 1))
  {
    hide StringEnd, SpaceEnd;
    k := SpaceEnd(s, StringEnd(s, p).index);
  }

  /** White space, the comma if one counts, and the white space behind it. */
  lemma {:induction false} SeparatorPassed(s: string, e: nat) returns (trail: string, lead: string)
    requires e <= |s|
    ensures Blank(trail) && Blank(lead) && At(s, e, trail) && SpaceEnd(s, e) == e + |trail| <= |s|
    ensures if CommaFollows(s, e) then
              && At(s, SpaceEnd(s, e), [',']) && At(s, SpaceEnd(s, e) + 1, lead)
              && SeparatorEnd(s, e) == SpaceEnd(s, e) + 1 + |lead|
            else
              SeparatorEnd(s, e) == SpaceEnd(s, e) && lead == ""
  {
    hide At, SpaceEnd, Blank;
    var q := SpaceEnd(s, e);
    SpacePassed(s, e);
    trail, lead := s[e..q], "";
    BlankEmpty();
    if CommaFollows(s, e) {
      AtFirst(s, q, ',');
      SpacePassed(s, q + 1);
      lead := s[q + 1..SpaceEnd(s, q + 1)];
    }
  }

  lemma {:induction false} BlankEmpty()
    ensures Blank("")
  {
  }

  /** Putting the parts of a list together. */
  lemma {:induction false} ConsBuilt(s: string, p: nat, list: List, isArray: bool)
    requires list.Cons? && LooseKey(list.key, list.value, isArray) && Loose(list.value)
    requires Blank(list.trail) && Blank(list.lead) && (list.rest.Cons? && !list.comma ==> Bare(list.rest))
    requires list.comma ==> list.rest.Cons?
    requires At(s, p, KeyText(list.key)) && At(s, ValueAt(p, list), Text(list.value))
    requires At(s, ValueEnd(p, list), list.trail)
    requires list.comma ==> At(s, SeparatorAt(p, list), [',']) && At(s, SeparatorAt(p, list) + 1, list.lead)
    requires ListAt(s, RestAt(p, list), list.rest, isArray)
    ensures ListAt(s, p, list, isArray) && ClosingAt(p, list) == ClosingAt(RestAt(p, list), list.rest)
  {
    hide At, KeyText, Text, Loose, LooseKey, Blank, Bare;
    var close, q := [Closing(isArray)], SeparatorAt(p, list);
    var between, tail := SeparatedText(list.comma, list.lead, list.rest), ListText(list.rest) + close;
    if list.comma {
      AtTwo(s, q + 1, list.lead, tail);
      AtTwo(s, q, [','], list.lead + tail);
      assert between + close == [','] + (list.lead + tail);
    } else {
      assert between + close == tail;
    }
    AtTwo(s, ValueEnd(p, list), list.trail, between + close);
    AtTwo(s, ValueAt(p, list), Text(list.value), list.trail + (between + close));
    AtTwo(s, p, KeyText(list.key), Text(list.value) + (list.trail + (between + close)));
    Associate(KeyText(list.key), Text(list.value), list.trail, between, close);
  }

  lemma {:induction false} BracketAhead(s: string, i: nat, stack: string)
    requires Collect(s, i, stack).Success?
    ensures i < |s| && (IsOpen(s[i]) || IsClose(s[i]))
  {
  }

  lemma {:induction false} RunOnBracket(s: string, p: nat, isArray: bool)
    requires p < |s| && (IsOpen(s[p]) || IsClose(s[p]))
    ensures RunEnd(s, p, isArray) == p
  {
    hide ScalarEnd, StringEnd;
    NoScalar(s, p);
  }

  /** Behind a value the machine goes on with a run, whether or not a comma was there. */
  lemma {:induction false} RunGoesOn(s: string, e: nat, isArray: bool, open: string)
    requires Collect(s, Resume(s, e, Opening(isArray)), open).Success?
    ensures Collect(s, Resume(s, e, Opening(isArray)), open) == Collect(s, RunEnd(s, SeparatorEnd(s, e), isArray), open)
    ensures var r := SeparatorEnd(s, e);
      e <= r < |s| && if CommaFollows(s, e) then !IsClose(s[r]) else IsOpen(s[r]) || IsClose(s[r])
  {
    hide Collect, RunEnd, ScalarsEnd;
    var r := SeparatorEnd(s, e);
    if CommaFollows(s, e) {
      NoSpace(s, r);
      RunIsScalars(s, r, isArray);
    } else {
      BracketAhead(s, r, open);
      RunOnBracket(s, r, isArray);
    }
  }

  /** A run over a scalar goes on like the machine behind a nested value. */
  lemma {:induction false} LeafRun(s: string, p: nat, v: nat, isArray: bool)
    requires p < |s| && if isArray then v == p else ColonEnd(s, p) == Past(v)
    requires ScalarEnd(s, v).Past? && !IsOpen(s[v])
    ensures RunEnd(s, p, isArray) == Resume(s, ScalarEnd(s, v).index, Opening(isArray))
  {
    hide ScalarEnd, ColonEnd, SpaceEnd;
    var e := ScalarEnd(s, v).index;
    if CommaFollows(s, e) {
      CommaEnd(s, e);
      RunIsScalars(s, SeparatorEnd(s, e), isArray);
    }
  }

  lemma {:induction false} CommaEnd(s: string, e: nat)
    requires CommaFollows(s, e)
    ensures SpaceEnd(s, SeparatorEnd(s, e)) == SeparatorEnd(s, e)
  {
    hide SpaceEnd;
    NoSpace(s, SeparatorEnd(s, e));
  }

  /** In front of a value: a key or none, then a scalar or an opening bracket. */
  lemma {:induction false} HeadPassed(s: string, p: nat, isArray: bool, open: string) returns (key: Key)
    requires Collect(s, RunEnd(s, p, isArray), open).Success? && p < |s| && !IsClose(s[p])
    ensures key.Key? ==> !isArray && LooseCharacters(key.name) && Blank(key.gap) && Blank(key.lead)
    ensures At(s, p, KeyText(key)) && p + |KeyText(key)| < |s|
    ensures IsOpen(s[p]) <==> key.NoKey? && IsOpen(s[p + |KeyText(key)|])
    ensures var v := p + |KeyText(key)|;
      if IsOpen(s[v]) then
        RunEnd(s, p, isArray) == v
      else
        && ScalarEnd(s, v).Past? && (isArray || key.Key?)
        && RunEnd(s, p, isArray) == Resume(s, ScalarEnd(s, v).index, Opening(isArray))
  {
    hide At, KeyText, Collect, ScalarEnd, ColonEnd, CommaFollows, SeparatorEnd, Blank, LooseCharacters, Resume;
    if !isArray && ColonEnd(s, p).Past? && HasValue(s, ColonEnd(s, p).index) {
      var v := ColonEnd(s, p).index;
      HasValueInside(s, v);
      key := KeyRead(s, p);
      KeyFirst(s, p);
      if !IsOpen(s[v]) {
        LeafRun(s, p, v, isArray);
      }
    } else {
      key := NoKey;
      NoKeyText(s, p);
      if isArray && ScalarEnd(s, p).Past? {
        NotOpen(s, p);
        LeafRun(s, p, p, isArray);
      } else {
        BracketAhead(s, RunEnd(s, p, isArray), open);
      }
    }
  }

  /** A scalar or an opening bracket at v. */
  predicate HasValue(s: string, v: nat) {
    (v < |s| && IsOpen(s[v])) || ScalarEnd(s, v).Past?
  }

  lemma {:induction false} HasValueInside(s: string, v: nat)
    requires HasValue(s, v)
    ensures v < |s| && (IsOpen(s[v]) || ScalarEnd(s, v).Past?)
  {
    hide ScalarEnd;
    assert ScalarEnd(s, v).Past? ==> v < ScalarEnd(s, v).index <= |s|;
  }

  lemma {:induction false} NotOpen(s: string, i: nat)
    requires ScalarEnd(s, i).Past?
    ensures i < |s| && !IsOpen(s[i])
  {
    hide ScalarEnd;
    if i < |s| && IsOpen(s[i]) {
      NoScalar(s, i);
    }
  }

  lemma {:induction false} KeyFirst(s: string, p: nat)
    requires ColonEnd(s, p).Past?
    ensures p < |s| && !IsOpen(s[p])
  {
  }

  lemma {:induction false} NoKeyText(s: string, p: nat)
    requires p <= |s|
    ensures At(s, p, KeyText(NoKey)) && |KeyText(NoKey)| == 0
  {
  }

  /** A nested collection on which the machine succeeds is the text of a loose tree. */
  lemma {:induction false} NodeParsed(s: string, i: nat, stack: string) returns (v: Json)
    requires Collect(s, i, stack).Success? && IsOpen(s[i])
    ensures Loose(v) && v.Node? && At(s, i, Text(v)) && |Text(v)| > 0 && |stack| + Depth(v) <= JSON_MAX_DEPTH
    ensures Collect(s, i, stack) == After(s, i + |Text(v)|, stack)
    decreases |s| - i, 0
  {
    hide At, ListText, Loose, LooseList, Blank, SpaceEnd, RunEnd, After, Collect;
    var isArray := s[i] == '[';
    var p := SpaceEnd(s, i + 1);
    SpacePassed(s, i + 1);
    OpenStep(s, i, isArray, stack);
    var list := ListParsed(s, p, isArray, stack);
    v := Node(isArray, s[i + 1..p], list);
    NodeBuilt(s, i, v);
  }

  lemma {:induction false} OpenStep(s: string, i: nat, isArray: bool, stack: string)
    requires i < |s| && s[i] == Opening(isArray) && Collect(s, i, stack).Success?
    ensures |stack| < JSON_MAX_DEPTH
    ensures Collect(s, i, stack) == Collect(s, RunEnd(s, SpaceEnd(s, i + 1), isArray), stack + [Opening(isArray)])
  {
    hide ArrayScalarsEnd, ObjectScalarsEnd, SpaceEnd;
  }

  lemma {:induction false} NodeBuilt(s: string, i: nat, v: Json)
    requires v.Node? && i < |s| && s[i] == Opening(v.isArray) && At(s, i + 1, v.lead) && Blank(v.lead)
    requires ListAt(s, ListStart(i, v), v.list, v.isArray)
    ensures Loose(v) && At(s, i, Text(v)) && i + |Text(v)| == ClosingAt(ListStart(i, v), v.list) + 1
  {
    hide At, ListText;
    var tail := ListText(v.list) + [Closing(v.isArray)];
    AtFirst(s, i, s[i]);
    AtTwo(s, i + 1, v.lead, tail);
    AtTwo(s, i, [s[i]], v.lead + tail);
  }

  /** A value with brackets open around it, and where the machine goes on behind it. */
  lemma {:induction false} ValueParsed(s: string, v: nat, open: string) returns (value: Json)
    requires v < |s| && 0 < |open| <= JSON_MAX_DEPTH
    requires if IsOpen(s[v]) then Collect(s, v, open).Success? else ScalarEnd(s, v).Past?
    ensures Loose(value) && At(s, v, Text(value)) && |Text(value)| > 0 && |open| + Depth(value) <= JSON_MAX_DEPTH
    ensures value.Node? <==> IsOpen(s[v])
    ensures value.Node? ==> Collect(s, v, open) == Collect(s, Resume(s, v + |Text(value)|, Top(open)), open)
    ensures value.Leaf? ==> ScalarEnd(s, v) == Past(v + |Text(value)|)
    decreases |s| - v, 1
  {
    hide At, Text, Loose, Depth, Collect, Resume, ScalarEnd, After;
    if IsOpen(s[v]) {
      value := NodeParsed(s, v, open);
      AfterOpen(s, v + |Text(value)|, open);
    } else {
      var x := ScalarPassed(s, v);
      value := Leaf(x);
      LeafText(x);
      assert v < ScalarEnd(s, v).index;
    }
  }

  lemma {:induction false} RunAhead(s: string, p: nat, isArray: bool, open: string)
    requires p <= |s| && Collect(s, RunEnd(s, p, isArray), open).Success?
    ensures p < |s|
  {
    hide Collect;
    BracketAhead(s, RunEnd(s, p, isArray), open);
  }

  lemma {:induction false} NilParsed(s: string, p: nat, isArray: bool, stack: string)
    requires p < |s| && IsClose(s[p]) && Collect(s, RunEnd(s, p, isArray), stack + [Opening(isArray)]).Success?
    ensures ListAt(s, p, Nil, isArray) && ClosingAt(p, Nil) == p
    ensures Collect(s, RunEnd(s, p, isArray), stack + [Opening(isArray)]) == After(s, p + 1, stack)
  {
    hide RunEnd, Resume, After, At;
    RunOnBracket(s, p, isArray);
    PushPop(stack, Opening(isArray));
    CloseStep(s, p, stack, isArray);
    AtFirst(s, p, s[p]);
    assert ListText(Nil) + [Closing(isArray)] == [Closing(isArray)];
  }

  lemma {:induction false} AfterOpen(s: string, j: nat, open: string)
    requires open != ""
    ensures After(s, j, open) == Collect(s, Resume(s, j, Top(open)), open)
  {
  }

  lemma {:induction false} LeafText(x: Scalar)
    requires LooseScalar(x)
    ensures Text(Leaf(x)) == ScalarText(x) && Loose(Leaf(x)) && Depth(Leaf(x)) == 0
  {
  }

  lemma {:induction false} ListParsed(s: string, p: nat, isArray: bool, stack: string) returns (list: List)
    requires |stack| < JSON_MAX_DEPTH && p <= |s|
    requires Collect(s, RunEnd(s, p, isArray), stack + [Opening(isArray)]).Success?
    ensures ListAt(s, p, list, isArray) && |stack| + 1 + ListDepth(list) <= JSON_MAX_DEPTH
    ensures Collect(s, RunEnd(s, p, isArray), stack + [Opening(isArray)]) == After(s, ClosingAt(p, list) + 1, stack)
    ensures p < |s| && (IsClose(s[p]) <==> list.Nil?) && (IsOpen(s[p]) <==> Bare(list))
    decreases |s| - p, 2
  {
    hide At, ListAt, KeyText, Text, ListText, SeparatedText, Loose, LooseList, Collect, RunEnd, Resume, ScalarEnd,
      SpaceEnd, Blank, LooseCharacters, CommaFollows, SeparatorEnd;
    var open := stack + [Opening(isArray)];
    RunAhead(s, p, isArray, open);
    if IsClose(s[p]) {
      list := Nil;
      NilParsed(s, p, isArray, stack);
    } else {
      var key := HeadPassed(s, p, isArray, open);
      var v := p + |KeyText(key)|;
      PushPop(stack, Opening(isArray));
      var value := ValueParsed(s, v, open);
      var e := v + |Text(value)|;
      AtLength(s, v, Text(value));
      RunGoesOn(s, e, isArray, open);
      var trail, lead := SeparatorPassed(s, e);
      var rest := ListParsed(s, SeparatorEnd(s, e), isArray, stack);
      list := Cons(key, value, trail, CommaFollows(s, e), lead, rest);
      ConsBuilt(s, p, list, isArray);
    }
  }

  // ----- what is accepted

  /** The text of a loose tree, in white space. */
  ghost predicate LooseDocument(s: string, before: string, v: Json, behind: string) {
    Loose(v) && Depth(v) <= 32 && Blank(before) && Blank(behind) && s == before + Text(v) + behind
  }

  /** A JSON text of RFC 8259 whose `\u` escapes name characters other than U+0000. */
  ghost predicate Document(s: string, before: string, v: Json, behind: string) {
    Valid(v) && Blank(before) && Blank(behind) && s == before + Text(v) + behind
  }

  ghost predicate IsJsonText(s: string) {
    exists before, v, behind :: Document(s, before, v, behind)
  }

  lemma {:induction false} RootParsed(s: string, i: nat) returns (v: Json)
    requires ScalarEnd(s, i).Past? || Collect(s, i, "").Success?
    ensures Loose(v) && Depth(v) <= JSON_MAX_DEPTH && At(s, i, Text(v))
    ensures (if ScalarEnd(s, i).Past? then Success(ScalarEnd(s, i).index) else Collect(s, i, ""))
         == Success(i + |Text(v)|)
  {
    hide Collect, At, ScalarEnd, Text, Loose, Depth, After;
    if ScalarEnd(s, i).Past? {
      var x := ScalarPassed(s, i);
      v := Leaf(x);
      LeafText(x);
    } else {
      OpenFirst(s, i);
      v := NodeParsed(s, i, "");
      AfterNothing(s, i + |Text(v)|);
    }
  }

  lemma {:induction false} AcceptedParsed(s: string) returns (before: string, v: Json, behind: string)
    requires Validity(s) == JSONSuccess
    ensures LooseDocument(s, before, v, behind)
  {
    hide Collect, At, ScalarEnd, SpaceEnd, Text, Loose, Blank, Depth;
    var i := SpaceEnd(s, 0);
    v := RootParsed(s, i);
    var e := i + |Text(v)|;
    AtLength(s, i, Text(v));
    before, behind := s[..i], s[e..];
    BlankPrefix(s);
    BlankSuffix(s, e);
    Joined(s, i, Text(v));
  }

  lemma {:induction false} BlankPrefix(s: string)
    ensures SpaceEnd(s, 0) <= |s| && Blank(s[..SpaceEnd(s, 0)])
  {
    hide Blank, SpaceEnd;
    SpacePassed(s, 0);
    assert s[0..SpaceEnd(s, 0)] == s[..SpaceEnd(s, 0)];
  }

  lemma {:induction false} BlankSuffix(s: string, e: nat)
    requires e <= |s| <= SpaceEnd(s, e)
    ensures Blank(s[e..])
  {
    hide Blank, SpaceEnd;
    SpacePassed(s, e);
    assert s[e..|s|] == s[e..];
  }

  lemma {:induction false} OpenFirst(s: string, i: nat)
    requires Collect(s, i, "").Success?
    ensures i < |s| && IsOpen(s[i])
  {
  }

  lemma {:induction false} AfterNothing(s: string, j: nat)
    ensures After(s, j, "") == Success(j)
  {
  }

  lemma {:induction false} Joined(s: string, i: nat, t: string)
    requires At(s, i, t)
    ensures s == s[..i] + t + s[i + |t|..]
  {
  }

  /** JSON_Validate succeeds exactly on the texts of loose trees nested at most 32 deep. */
  lemma {:induction false} AcceptedExactly(s: string)
    ensures Validity(s) == JSONSuccess <==> exists before, v, behind :: LooseDocument(s, before, v, behind)
  {
    hide Validity, Loose, Depth, Blank, Text;
    if Validity(s) == JSONSuccess {
      var before, v, behind := AcceptedParsed(s);
    }
    forall before, v, behind | LooseDocument(s, before, v, behind)
      ensures Validity(s) == JSONSuccess
    {
      EveryLooseTextIsAccepted(s, before, v, behind);
    }
  }

  // ----- which of them are JSON texts

  predicate NoControl(s: string, i: nat, j: nat)
    requires i <= j <= |s|
  {
    forall n :: i <= n < j ==> !IsControl(s[n])
  }

  /** A scan for the four kinds of looseness, with the brackets open so far and whether a further one may open here:
      directly behind an opening square bracket, behind a comma in an array, or behind a colon; nowhere else. A string
      holds no control characters. */
  predicate Tidy(s: string, i: nat, open: string, mayOpen: bool)
    decreases |s| - i
  {
    if i >= |s| then true
    else if StringEnd(s, i).Past? then
      NoControl(s, i, StringEnd(s, i).index) && Tidy(s, StringEnd(s, i).index, open, false)
    else if IsSpace(s[i]) then Tidy(s, i + 1, open, mayOpen)
    else if IsOpen(s[i]) then mayOpen && Tidy(s, i + 1, open + [s[i]], s[i] == '[')
    else if IsClose(s[i]) then Tidy(s, i + 1, if open == "" then "" else Pop(open), false)
    else if s[i] == ',' then Tidy(s, i + 1, open, open != "" && Top(open) == '[')
    else Tidy(s, i + 1, open, s[i] == ':')
  }

  lemma {:induction false} TidySpace(s: string, i: nat, ws: string, open: string, mayOpen: bool)
    requires At(s, i, ws) && Blank(ws)
    ensures Tidy(s, i, open, mayOpen) == Tidy(s, i + |ws|, open, mayOpen)
    decreases |ws|
  {
    if ws != "" {
      AtChar(s, i, ws, 0);
      forall k | 0 <= k < |ws| - 1 ensures s[i + 1 + k] == ws[1..][k] {
        AtChar(s, i, ws, k + 1);
      }
      TidySpace(s, i + 1, ws[1..], open, mayOpen);
    }
  }

  predicate IsWordCharacter(c: char) {
    c != '"' && !IsSpace(c) && !IsOpen(c) && !IsClose(c) && c != ',' && c != ':'
  }

  lemma {:induction false} TidyWord(s: string, i: nat, k: nat, open: string, mayOpen: bool)
    requires i < k <= |s| && forall n :: i <= n < k ==> IsWordCharacter(s[n])
    ensures Tidy(s, i, open, mayOpen) == Tidy(s, k, open, false)
    decreases k - i
  {
    if i + 1 < k {
      TidyWord(s, i + 1, k, open, false);
    }
  }

  lemma {:induction false} Utf8Printable(cp: ScalarValue, k: nat)
    requires cp >= 0x20 && k < |Utf8(cp)|
    ensures !IsControl(Utf8(cp)[k])
  {
    hide IsTrailing, Trail;
    Utf8First(cp);
    TrailPrintable(cp % 64);
    TrailPrintable(cp / 64 % 64);
    TrailPrintable(cp / 4096 % 64);
  }

  lemma {:induction false} TrailPrintable(d: nat)
    requires d < 64
    ensures !IsControl(Trail(d))
  {
  }

  lemma {:induction false} HexPrintable(hex: string, k: nat)
    requires IsHex4(hex) && k < 4
    ensures !IsControl(hex[k])
  {
    hide HexToInt;
    var c := hex[0 + k];
    HexDigitPrintable(c);
  }

  lemma {:induction false} HexDigitPrintable(c: char)
    ensures HexToInt(c) < NOT_A_HEX_CHAR ==> !IsControl(c)
  {
  }

  /** The text of a character holds a control character exactly when one is escaped. */
  lemma {:induction false} CharacterPrintable(ch: Character)
    requires LooseCharacter(ch)
    ensures NoControl(CharacterText(ch), 0, |CharacterText(ch)|) <==> !IsControlEscape(ch)
  {
    hide Utf8, HexValue, HexToInt, AllHex;
    var t := CharacterText(ch);
    match ch
    case Plain(cp) =>
      forall k | 0 <= k < |t| ensures !IsControl(t[k]) {
        Utf8Printable(cp, k);
      }
    case Short(c) =>
      assert t[1] == c;
    case Unicode(hex) =>
      HexTextPrintable(hex);
    case Surrogates(high, low) =>
      PairText(high, low);
      HexTextPrintable(high);
      HexTextPrintable(low);
  }

  lemma {:induction false} HexTextPrintable(hex: string)
    requires IsHex4(hex)
    ensures |hex| == 4 && forall k :: 0 <= k < 6 ==> !IsControl((['\\', 'u'] + hex)[k])
  {
    var t := ['\\', 'u'] + hex;
    forall k | 0 <= k < 6 ensures !IsControl(t[k]) {
      if k >= 2 {
        HexPrintable(hex, k - 2);
        assert t[k] == hex[k - 2];
      }
    }
  }

  lemma {:induction false} NoControlSplit(a: string, b: string)
    ensures NoControl(a + b, 0, |a + b|) <==> NoControl(a, 0, |a|) && NoControl(b, 0, |b|)
  {
    var t := a + b;
    if NoControl(t, 0, |t|) {
      assert forall k :: 0 <= k < |a| ==> t[k] == a[k];
      assert forall k :: 0 <= k < |b| ==> t[|a| + k] == b[k];
    }
  }

  lemma {:induction false} CharactersPrintable(chars: seq<Character>)
    requires LooseCharacters(chars)
    ensures NoControl(CharactersText(chars), 0, |CharactersText(chars)|) <==> ValidCharacters(chars)
  {
    hide CharacterText, LooseCharacter, NoControl;
    if chars == [] {
      NothingControl();
    } else {
      CharacterPrintable(chars[0]);
      CharactersPrintable(chars[1..]);
      NoControlSplit(CharacterText(chars[0]), CharactersText(chars[1..]));
      ValidSplit(chars);
    }
  }

  lemma {:induction false} NothingControl()
    ensures NoControl("", 0, 0)
  {
  }

  lemma {:induction false} ValidSplit(chars: seq<Character>)
    requires chars != []
    ensures ValidCharacters(chars) <==> ValidCharacter(chars[0]) && ValidCharacters(chars[1..])
  {
    hide ValidCharacter;
    if ValidCharacters(chars[1..]) && ValidCharacter(chars[0]) {
      assert forall k :: 1 <= k < |chars| ==> chars[k] == chars[1..][k - 1];
    }
  }

  lemma {:induction false} NoControlMoves(s: string, i: nat, t: string)
    requires At(s, i, t)
    ensures NoControl(s, i, i + |t|) <==> NoControl(t, 0, |t|)
  {
    forall n | i <= n < i + |t| ensures s[n] == t[n - i] {
      AtChar(s, i, t, n - i);
    }
    assert NoControl(s, i, i + |t|) ==> forall k :: 0 <= k < |t| ==> t[k] == s[i + k];
  }

  lemma {:induction false} TidyString(s: string, i: nat, chars: seq<Character>, open: string, mayOpen: bool)
    requires LooseCharacters(chars) && At(s, i, StringText(chars))
    ensures var e := i + |StringText(chars)|;
      Tidy(s, i, open, mayOpen) <==> ValidCharacters(chars) && Tidy(s, e, open, false)
  {
    hide At, LooseCharacters, ValidCharacters, CharactersText, StringEnd, NoControl;
    StringAccepted(s, i, chars);
    AtLength(s, i, StringText(chars));
    NoControlMoves(s, i, StringText(chars));
    CharactersPrintable(chars);
    QuotePrintable();
    NoControlSplit(['"'] + CharactersText(chars), ['"']);
    NoControlSplit(['"'], CharactersText(chars));
  }

  lemma {:induction false} QuotePrintable()
    ensures NoControl(['"'], 0, 1)
  {
  }

  lemma {:induction false} WordText(a: string, b: string)
    requires AllWord(a) && AllWord(b)
    ensures AllWord(a + b)
  {
  }

  ghost predicate AllWord(t: string) {
    forall k :: 0 <= k < |t| ==> IsWordCharacter(t[k])
  }

  lemma {:induction false} NumberIsWord(n: Number)
    requires ValidNumber(n)
    ensures AllWord(NumberText(n))
  {
    hide NumberText;
    var x := n.exponent;
    if x.Power? {
      WordText([x.e], x.sign);
      WordText([x.e] + x.sign, x.digits);
    }
    WordText(['.'], n.fraction);
    WordText(FractionText(n.fraction), ExponentText(x));
    WordText(n.whole, FractionText(n.fraction) + ExponentText(x));
    WordText(SignText(n.minus), n.whole + (FractionText(n.fraction) + ExponentText(x)));
    NumberTextParts(n);
  }

  lemma {:induction false} NumberTextParts(n: Number)
    ensures NumberText(n) == SignText(n.minus) + (n.whole + (FractionText(n.fraction) + ExponentText(n.exponent)))
  {
  }

  lemma {:induction false} TidyText(s: string, i: nat, t: string, open: string, mayOpen: bool)
    requires At(s, i, t) && AllWord(t) && t != ""
    ensures Tidy(s, i, open, mayOpen) == Tidy(s, i + |t|, open, false)
  {
    forall n | i <= n < i + |t| ensures IsWordCharacter(s[n]) {
      AtChar(s, i, t, n - i);
    }
    TidyWord(s, i, i + |t|, open, mayOpen);
  }

  lemma {:induction false} TidyScalar(s: string, i: nat, x: Scalar, open: string, mayOpen: bool)
    requires LooseScalar(x) && At(s, i, ScalarText(x))
    ensures var e := i + |ScalarText(x)|;
      Tidy(s, i, open, mayOpen) <==> ValidScalar(x) && Tidy(s, e, open, false)
  {
    hide At, StringText, NumberText, LooseCharacters, ValidCharacters, ValidNumber, Tidy;
    match x
    case Str(chars) => TidyString(s, i, chars, open, mayOpen);
    case Num(n) =>
      NumberIsWord(n);
      NumberNotEmpty(n);
      TidyText(s, i, NumberText(n), open, mayOpen);
    case _ => TidyText(s, i, ScalarText(x), open, mayOpen);
  }

  lemma {:induction false} NumberNotEmpty(n: Number)
    requires ValidNumber(n)
    ensures NumberText(n) != ""
  {
  }

  /** A nested value is tidy exactly when a bracket may open there and the tree is one of the grammar. */
  lemma {:induction false} TidyValue(s: string, i: nat, v: Json, open: string, mayOpen: bool)
    requires Loose(v) && At(s, i, Text(v))
    ensures Tidy(s, i, open, mayOpen)
        <==> (v.Node? ==> mayOpen) && Valid(v) && Tidy(s, i + |Text(v)|, open, false)
    decreases v, 0
  {
    hide At, ListAt, Text, ListText, LooseList, ValidList, Tidy, LooseScalar, ValidScalar, Blank, ClosingAt;
    match v
    case Leaf(x) =>
      LeafText(x);
      TidyScalar(s, i, x, open, mayOpen);
    case Node(isArray, lead, list) =>
      NodeAt(s, i, v);
      TidyOpen(s, i, isArray, open, mayOpen);
      TidySpace(s, i + 1, lead, open + [Opening(isArray)], isArray);
      TidyList(s, ListStart(i, v), list, isArray, open, isArray);
      BareInObject(list);
  }

  lemma {:induction false} TidyOpen(s: string, i: nat, isArray: bool, open: string, mayOpen: bool)
    requires i < |s| && s[i] == Opening(isArray)
    ensures Tidy(s, i, open, mayOpen) <==> mayOpen && Tidy(s, i + 1, open + [Opening(isArray)], isArray)
  {
  }

  lemma {:induction false} TidyClose(s: string, i: nat, isArray: bool, open: string, mayOpen: bool)
    requires i < |s| && s[i] == Closing(isArray)
    ensures Tidy(s, i, open + [Opening(isArray)], mayOpen) <==> Tidy(s, i + 1, open, false)
  {
    PushPop(open, Opening(isArray));
  }

  lemma {:induction false} TidyComma(s: string, i: nat, isArray: bool, open: string)
    requires i < |s| && s[i] == ','
    ensures Tidy(s, i, open + [Opening(isArray)], false) <==> Tidy(s, i + 1, open + [Opening(isArray)], isArray)
  {
    PushPop(open, Opening(isArray));
  }

  lemma {:induction false} TidyColon(s: string, i: nat, open: string)
    requires At(s, i, [':'])
    ensures Tidy(s, i, open, false) <==> Tidy(s, i + 1, open, true)
  {
    AtFirst(s, i, ':');
  }

  lemma {:induction false} TidyKey(s: string, p: nat, key: Key, open: string, mayOpen: bool)
    requires key.Key? && LooseCharacters(key.name) && Blank(key.gap) && Blank(key.lead) && At(s, p, KeyText(key))
    ensures Tidy(s, p, open, mayOpen)
        <==> ValidCharacters(key.name) && Tidy(s, p + |KeyText(key)|, open, true)
  {
    hide At, StringText, KeyText, Tidy, Blank, LooseCharacters, ValidCharacters;
    KeyAt(s, p, key);
    var g := p + |StringText(key.name)|;
    TidyString(s, p, key.name, open, mayOpen);
    TidySpace(s, g, key.gap, open, false);
    TidyColon(s, g + |key.gap|, open);
    TidySpace(s, g + |key.gap| + 1, key.lead, open, true);
  }

  /** Behind a value: a comma lets a bracket open in an array; without one none may. */
  lemma {:induction false} TidySeparator(s: string, p: nat, list: List, isArray: bool, open: string)
    requires ListAt(s, p, list, isArray) && list.Cons?
    ensures var behind := if list.rest.Nil? then SeparatorAt(p, list) else RestAt(p, list);
      Tidy(s, ValueEnd(p, list), open + [Opening(isArray)], false)
      <==> Tidy(s, behind, open + [Opening(isArray)], isArray && list.rest.Cons? && list.comma)
  {
    hide At, ListAt, Text, KeyText, ListText, LooseList, Loose, LooseKey, Tidy, Blank, ValueEnd, ClosingAt, Bare;
    ConsLoose(s, p, list, isArray);
    ConsAt(s, p, list, isArray);
    SeparatedAt(s, p, list, isArray);
    TidySpace(s, ValueEnd(p, list), list.trail, open + [Opening(isArray)], false);
    if list.rest.Cons? && list.comma {
      TidyComma(s, SeparatorAt(p, list), isArray, open);
      TidySpace(s, SeparatorAt(p, list) + 1, list.lead, open + [Opening(isArray)], isArray);
    }
  }

  /** The values of a list up to its closing bracket. */
  lemma {:induction false} TidyList(s: string, p: nat, list: List, isArray: bool, open: string, mayOpen: bool)
    requires ListAt(s, p, list, isArray) && (mayOpen ==> isArray)
    ensures Tidy(s, p, open + [Opening(isArray)], mayOpen)
        <==> (Bare(list) ==> mayOpen) && ValidList(list, isArray) && Tidy(s, ClosingAt(p, list) + 1, open, false)
    decreases list, 1
  {
    hide At, ListAt, Text, KeyText, ListText, SeparatedText, LooseList, Loose, Tidy, Blank, LooseCharacters,
      ValidCharacters, Valid, ValidList, ClosingAt, ValueAt, SeparatorAt, RestAt;
    var inside := open + [Opening(isArray)];
    NilIsValid(isArray);
    if list.Nil? {
      NilAt(s, p, isArray);
      TidyClose(s, p, isArray, open, mayOpen);
    } else {
      ConsLoose(s, p, list, isArray);
      ConsAt(s, p, list, isArray);
      SeparatedAt(s, p, list, isArray);
      if list.key.Key? {
        TidyKey(s, p, list.key, inside, mayOpen);
        KeyedAt(p, list);
      } else {
        Unkeyed(p, list);
      }
      TidyValue(s, ValueAt(p, list), list.value, inside, if list.key.Key? then true else mayOpen);
      TidySeparator(s, p, list, isArray, open);
      ConsIsValid(list, isArray);
      if list.rest.Cons? {
        TidyList(s, RestAt(p, list), list.rest, isArray, open, isArray && list.comma);
        BareInObject(list.rest);
      } else {
        TidyClose(s, SeparatorAt(p, list), isArray, open, false);
      }
    }
  }

  lemma {:induction false} ConsIsValid(list: List, isArray: bool)
    requires list.Cons? && LooseKey(list.key, list.value, isArray) && Blank(list.trail) && Blank(list.lead)
    ensures ValidList(list, isArray)
        <==> && (if list.key.Key? then ValidCharacters(list.key.name) else isArray)
             && Valid(list.value) && (list.rest.Cons? ==> list.comma) && ValidList(list.rest, isArray)
  {
    hide ValidCharacters, LooseCharacters, Blank, Valid;
  }

  lemma {:induction false} NilIsValid(isArray: bool)
    ensures ValidList(Nil, isArray)
  {
  }

  lemma {:induction false} BareInObject(list: List)
    ensures Bare(list) ==> !ValidList(list, false)
  {
  }

  lemma {:induction false} KeyedAt(p: nat, list: List)
    requires list.Cons?
    ensures ValueAt(p, list) == p + |KeyText(list.key)|
  {
  }

  /** The scan of a loose document decides whether its tree is one of the grammar. */
  lemma {:induction false} TidyDocument(s: string, before: string, v: Json, behind: string)
    requires Loose(v) && Blank(before) && Blank(behind) && s == before + Text(v) + behind
    ensures Tidy(s, 0, "", true) <==> Valid(v)
  {
    hide At, Text, Loose, Valid, Blank, Tidy;
    DocumentParts(before, Text(v), behind);
    TidySpace(s, 0, before, "", true);
    TidyValue(s, |before|, v, "", true);
    TidySpace(s, |before| + |Text(v)|, behind, "", false);
    TidyEnd(s, "", false);
  }

  lemma {:induction false} TidyEnd(s: string, open: string, mayOpen: bool)
    ensures Tidy(s, |s|, open, mayOpen)
  {
  }

  /** An accepted buffer is a JSON text if and only if the scan finds nothing loose in it. */
  lemma {:induction false} AcceptedIsJsonTextIff(s: string)
    requires Validity(s) == JSONSuccess
    ensures IsJsonText(s) <==> Tidy(s, 0, "", true)
  {
    hide Validity, Loose, Valid, Blank, Text, Tidy, Depth;
    var before, v, behind := AcceptedParsed(s);
    TidyDocument(s, before, v, behind);
    if Valid(v) {
      assert Document(s, before, v, behind);
    }
    forall b, w, c | Document(s, b, w, c)
      ensures Tidy(s, 0, "", true)
    {
      ValidIsLoose(w);
      TidyDocument(s, b, w, c);
    }
  }

  /** A document whose tree is loose but not of the grammar is accepted and is no JSON text. */
  lemma {:induction false} LooseIsAccepted(s: string, v: Json)
    requires Loose(v) && !Valid(v) && Depth(v) <= JSON_MAX_DEPTH && s == Text(v)
    ensures Validity(s) == JSONSuccess && !IsJsonText(s)
  {
    hide Validity, Loose, Valid, Blank, Text, Tidy, Depth, IsJsonText;
    BlankEmpty();
    assert "" + Text(v) + "" == s;
    EveryLooseTextIsAccepted(s, "", v, "");
    TidyDocument(s, "", v, "");
    AcceptedIsJsonTextIff(s);
  }

  // ----- one lemma for each way to be loose

  /** No comma is required between nested collections. */
  lemma {:induction false} MissingCommaBehindBracket(s: string, a: Json, b: Json)
    requires Loose(a) && a.Node? && Depth(a) < JSON_MAX_DEPTH && Loose(b) && b.Node? && Depth(b) < JSON_MAX_DEPTH
    requires s == ['['] + (Text(a) + (Text(b) + [']']))
    ensures Validity(s) == JSONSuccess && !IsJsonText(s)
  {
    hide Validity, Text, IsJsonText, Loose, Valid, Depth, ListText;
    TwoInArray(s, a, b);
  }

  /** Nor between a scalar and a nested collection. */
  lemma {:induction false} MissingCommaBehindScalar(s: string, x: Scalar, b: Json)
    requires LooseScalar(x) && Loose(b) && b.Node? && Depth(b) < JSON_MAX_DEPTH
    requires s == ['['] + (ScalarText(x) + (Text(b) + [']']))
    ensures Validity(s) == JSONSuccess && !IsJsonText(s)
  {
    hide Validity, IsJsonText, Loose, Valid, Depth, ListText, ScalarText;
    LeafText(x);
    TwoInArray(s, Leaf(x), b);
  }

  lemma {:induction false} TwoInArray(s: string, a: Json, b: Json)
    requires Loose(a) && Depth(a) < JSON_MAX_DEPTH && Loose(b) && b.Node? && Depth(b) < JSON_MAX_DEPTH
    requires s == ['['] + (Text(a) + (Text(b) + [']']))
    ensures Validity(s) == JSONSuccess && !IsJsonText(s)
  {
    hide Validity, IsJsonText;
    var last := Cons(NoKey, b, "", false, "", Nil);
    var list := Cons(NoKey, a, "", false, "", last);
    var v := Node(true, "", list);
    TwoText(a, b);
    LooseLast(b, true);
    assert LooseList(list, true) && !ValidList(list, true);
    LooseIsAccepted(s, v);
  }

  lemma {:induction false} LooseLast(b: Json, isArray: bool)
    requires Loose(b) && b.Node?
    ensures LooseList(Cons(NoKey, b, "", false, "", Nil), isArray)
    ensures ListDepth(Cons(NoKey, b, "", false, "", Nil)) == Depth(b)
  {
    hide Loose, Depth;
    assert LooseList(Nil, isArray) && ListDepth(Nil) == 0;
  }

  lemma {:induction false} TwoText(a: Json, b: Json)
    ensures var list := Cons(NoKey, a, "", false, "", Cons(NoKey, b, "", false, "", Nil));
      Text(Node(true, "", list)) == ['['] + (Text(a) + (Text(b) + [']']))
  {
    var last := Cons(NoKey, b, "", false, "", Nil);
    var list := Cons(NoKey, a, "", false, "", last);
    LastText(NoKey, b);
    assert ListText(last) == Text(b);
    assert ListText(list) == "" + (Text(a) + ("" + Text(b))) == Text(a) + Text(b);
    assert (Text(a) + Text(b)) + [']'] == Text(a) + (Text(b) + [']']);
    assert "" + (ListText(list) + [']']) == ListText(list) + [']'];
  }

  /** The text of a list of one value. */
  lemma {:induction false} LastText(key: Key, b: Json)
    ensures ListText(Cons(key, b, "", false, "", Nil)) == KeyText(key) + Text(b)
    ensures KeyText(NoKey) == "" && "" + Text(b) == Text(b)
  {
    hide Text;
    assert Text(b) + ("" + "") == Text(b);
  }

  /** In an object a nested collection needs no key. */
  lemma {:induction false} KeylessMember(s: string, b: Json)
    requires Loose(b) && b.Node? && Depth(b) < JSON_MAX_DEPTH
    requires s == ['{'] + (Text(b) + ['}'])
    ensures Validity(s) == JSONSuccess && !IsJsonText(s)
  {
    hide Validity, IsJsonText;
    var list := Cons(NoKey, b, "", false, "", Nil);
    var v := Node(false, "", list);
    LastText(NoKey, b);
    assert "" + (ListText(list) + ['}']) == ListText(list) + ['}'];
    assert Text(v) == s;
    LooseLast(b, false);
    assert !ValidList(list, false);
    LooseIsAccepted(s, v);
  }

  /** A control character other than NUL may be escaped by itself. */
  lemma {:induction false} EscapedControl(s: string, c: char)
    requires '\0' < c < ' ' && s == ['"', '\\', c, '"']
    ensures Validity(s) == JSONSuccess && !IsJsonText(s)
  {
    hide Validity, IsJsonText;
    var chars := [Short(c)];
    var v := Leaf(Str(chars));
    assert CharactersText(chars) == ['\\', c] + CharactersText(chars[1..]) == ['\\', c];
    assert !ValidCharacter(chars[0]);
    assert Text(v) == s;
    LooseIsAccepted(s, v);
  }
}
