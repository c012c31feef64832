/** skipCollection and JSON_Validate of core_json.c: the explicit stack accepts what the recursive grammar describes. */
module JsonValidator {

  import opened JsonScanner
  import opened JsonText

  const JSON_MAX_DEPTH := 32

  datatype Status = Success(index: nat) | IllegalDocument | MaxDepthExceeded | Partial

  // ----- the stack machine

  function Top(stack: string): char
    requires |stack| > 0
  {
    stack[|stack| - 1]
  }

  function Pop(stack: string): string
    requires |stack| > 0
  {
    stack[..|stack| - 1]
  }

  /** Where scanning goes on behind a nested collection inside one of type `mode`. */
  function Resume(s: string, i: nat, mode: char): (j: nat)
    ensures i <= j && (i <= |s| ==> j <= |s|)
  {
    if CommaFollows(s, i) then ScalarsEnd(s, SeparatorEnd(s, i), mode) else SeparatorEnd(s, i)
  }

  /** What skipCollection answers from index i with these brackets open. */
  function Collect(s: string, i: nat, stack: string): (status: Status)
    ensures status.Success? ==> i < status.index <= |s|
    decreases |s| - i
  {
    if i >= |s| then Partial
    else if IsOpen(s[i]) then
      if |stack| >= JSON_MAX_DEPTH then MaxDepthExceeded
      else Collect(s, ScalarsEnd(s, i + 1, s[i]), stack + [s[i]])
    else if IsClose(s[i]) && |stack| > 0 && IsMatching(Top(stack), s[i]) then
      if |stack| == 1 then Success(i + 1)
      else Collect(s, Resume(s, i + 1, Top(Pop(stack))), Pop(stack))
    else IllegalDocument
  }

  method SkipCollection(s: string, start: nat) returns (status: Status, next: nat)
    ensures status == Collect(s, start, "")
    ensures next == if status.Success? then status.index else start
  {
    hide ScalarsEnd, CommaFollows, SeparatorEnd;
    next := start;
    status := Partial;
    var stack := new char[JSON_MAX_DEPTH];
    var depth := -1;
    var i := start;
    while i < |s|
      invariant -1 <= depth < JSON_MAX_DEPTH && next == start
      invariant forall k :: 0 <= k <= depth ==> IsOpen(stack[k])
      invariant Collect(s, start, "") == Collect(s, i, stack[..depth + 1])
      decreases |s| - i
    {
      var c := s[i];
      ghost var open, at := stack[..depth + 1], i;
      i := i + 1;
      if IsOpen(c) {
        depth := depth + 1;
        if depth == JSON_MAX_DEPTH {
          return MaxDepthExceeded, start;
        }
        stack[depth] := c;
        i := SkipScalars(s, i, stack[depth]);
        assert stack[..depth + 1] == open + [c];
      } else if IsClose(c) {
        if depth > 0 && IsMatching(stack[depth], c) {
          depth := depth - 1;
          var comma;
          comma, i := SkipSpaceAndComma(s, i);
          if comma {
            i := SkipScalars(s, i, stack[depth]);
          }
          assert stack[..depth + 1] == Pop(open);
          assert i == Resume(s, at + 1, Top(Pop(open)));
        } else if depth == 0 && IsMatching(stack[depth], c) {
          return Success(i), i;
        } else {
          return IllegalDocument, start;
        }
      } else {
        return IllegalDocument, start;
      }
    }
  }

  // ----- trees

  /** What precedes a value: nothing in an array; in an object the key, a colon and white space around it. */
  datatype Key = NoKey | Key(name: seq<Character>, gap: string, lead: string)

  datatype Json =
    | Leaf(scalar: Scalar)
    | Node(isArray: bool, lead: string, list: List)

  /** Values in brackets: `trail` is the white space behind a value, `comma` whether a comma follows it, and `lead`
      the white space behind that comma. */
  datatype List = Nil | Cons(key: Key, value: Json, trail: string, comma: bool, lead: string, rest: List)

  // The grammar of RFC 8259.

  ghost predicate ValidKey(key: Key, isArray: bool) {
    match key
    case NoKey => isArray
    case Key(name, gap, lead) => !isArray && ValidCharacters(name) && Blank(gap) && Blank(lead)
  }

  ghost predicate Valid(v: Json) {
    match v
    case Leaf(x) => ValidScalar(x)
    case Node(isArray, lead, list) => Blank(lead) && ValidList(list, isArray)
  }

  ghost predicate ValidList(list: List, isArray: bool) {
    match list
    case Nil => true
    case Cons(key, value, trail, comma, lead, rest) =>
      && ValidKey(key, isArray) && Valid(value) && Blank(trail) && Blank(lead)
      && (rest.Cons? ==> comma) && ValidList(rest, isArray)
  }

  // What the code takes: in front of a nested collection neither a comma nor, in an object, a key is needed.

  ghost predicate LooseKey(key: Key, value: Json, isArray: bool) {
    match key
    case NoKey => isArray || value.Node?
    case Key(name, gap, lead) => !isArray && LooseCharacters(name) && Blank(gap) && Blank(lead)
  }

  ghost predicate Loose(v: Json) {
    match v
    case Leaf(x) => LooseScalar(x)
    case Node(isArray, lead, list) => Blank(lead) && LooseList(list, isArray)
  }

  ghost predicate LooseList(list: List, isArray: bool) {
    match list
    case Nil => true
    case Cons(key, value, trail, comma, lead, rest) =>
      && LooseKey(key, value, isArray) && Loose(value) && Blank(trail) && Blank(lead)
      && (rest.Cons? && !comma ==> Bare(rest)) && LooseList(rest, isArray)
  }

  /** The first value is a collection without a key. */
  predicate Bare(list: List) {
    list.Cons? && list.key.NoKey? && list.value.Node?
  }

  /** A tree of the grammar is one the code takes. */
  lemma {:induction false} ValidIsLoose(v: Json)
    requires Valid(v)
    ensures Loose(v)
    decreases v, 0
  {
    if v.Node? {
      ValidListIsLoose(v.list, v.isArray);
    }
  }

  lemma {:induction false} ValidListIsLoose(list: List, isArray: bool)
    requires ValidList(list, isArray)
    ensures LooseList(list, isArray)
    decreases list, 1
  {
    if list.Cons? {
      ValidIsLoose(list.value);
      ValidListIsLoose(list.rest, isArray);
    }
  }

  function Opening(isArray: bool): char { if isArray then '[' else '{' }

  function Closing(isArray: bool): char { if isArray then ']' else '}' }

  function KeyText(key: Key): string
  {
    match key
    case NoKey => ""
    case Key(name, gap, lead) => StringText(name) + (gap + ([':'] + lead))
  }

  function Text(v: Json): (t: string)
    decreases v, 0
  {
    match v
    case Leaf(x) => ScalarText(x)
    case Node(isArray, lead, list) => [Opening(isArray)] + (lead + (ListText(list) + [Closing(isArray)]))
  }

  function ListText(list: List): string
    decreases list, 0
  {
    match list
    case Nil => ""
    case Cons(key, value, trail, comma, lead, rest) =>
      KeyText(key) + (Text(value) + (trail + SeparatedText(comma, lead, rest)))
  }

  /** The comma, if there is one, the white space behind it, and the values after it, unless there are none. */
  function SeparatedText(comma: bool, lead: string, rest: List): string
    decreases rest, 1
  {
    if rest.Nil? then "" else if comma then [','] + (lead + ListText(rest)) else ListText(rest)
  }

  function Depth(v: Json): nat {
    match v
    case Leaf(_) => 0
    case Node(_, _, list) => 1 + ListDepth(list)
  }

  function ListDepth(list: List): nat {
    match list
    case Nil => 0
    case Cons(_, value, _, _, _, rest) => if Depth(value) > ListDepth(rest) then Depth(value) else ListDepth(rest)
  }

  // ----- where the parts of a list lie

  ghost predicate ListAt(s: string, p: nat, list: List, isArray: bool) {
    LooseList(list, isArray) && At(s, p, ListText(list) + [Closing(isArray)])
  }

  /** Index of the bracket that closes a list standing at p. */
  function ClosingAt(p: nat, list: List): nat
  {
    p + |ListText(list)|
  }

  function ValueAt(p: nat, list: List): nat
    requires list.Cons?
  {
    p + |KeyText(list.key)|
  }

  function ValueEnd(p: nat, list: List): nat
    requires list.Cons?
  {
    ValueAt(p, list) + |Text(list.value)|
  }

  /** The comma, or for the last value the closing bracket. */
  function SeparatorAt(p: nat, list: List): nat
    requires list.Cons?
  {
    ValueEnd(p, list) + |list.trail|
  }

  function RestAt(p: nat, list: List): nat
    requires list.Cons?
  {
    if list.comma then SeparatorAt(p, list) + 1 + |list.lead| else SeparatorAt(p, list)
  }

  lemma {:induction false} NilAt(s: string, p: nat, isArray: bool)
    requires ListAt(s, p, Nil, isArray)
    ensures p < |s| && s[p] == Closing(isArray) && ClosingAt(p, Nil) == p
  {
    assert ListText(Nil) + [Closing(isArray)] == [Closing(isArray)];
    AtFirst(s, p, Closing(isArray));
  }

  lemma {:induction false} ConsLoose(s: string, p: nat, list: List, isArray: bool)
    requires ListAt(s, p, list, isArray) && list.Cons?
    ensures LooseKey(list.key, list.value, isArray) && Loose(list.value) && LooseList(list.rest, isArray)
    ensures Blank(list.trail) && Blank(list.lead)
    ensures list.rest.Cons? && !list.comma ==> Bare(list.rest)
  {
  }

  lemma {:induction false} Associate(a: string, b: string, c: string, d: string, e: string)
    ensures (a + (b + (c + d))) + e == a + (b + (c + (d + e)))
  {
    assert (a + (b + (c + d))) + e == a + ((b + (c + d)) + e);
    assert (b + (c + d)) + e == b + ((c + d) + e);
    assert (c + d) + e == c + (d + e);
  }

  lemma {:induction false} ConsAt(s: string, p: nat, list: List, isArray: bool)
    requires ListAt(s, p, list, isArray) && list.Cons?
    ensures At(s, p, KeyText(list.key))
    ensures At(s, ValueAt(p, list), Text(list.value))
    ensures At(s, ValueEnd(p, list), list.trail)
    ensures At(s, SeparatorAt(p, list),
               SeparatedText(list.comma, list.lead, list.rest) + [Closing(isArray)])
    ensures ClosingAt(p, list)
         == SeparatorAt(p, list) + |SeparatedText(list.comma, list.lead, list.rest)|
  {
    hide At, Text, KeyText, SeparatedText, LooseList, Loose, LooseKey;
    var key, value, trail := KeyText(list.key), Text(list.value), list.trail;
    var tail := SeparatedText(list.comma, list.lead, list.rest) + [Closing(isArray)];
    Associate(key, value, trail, SeparatedText(list.comma, list.lead, list.rest), [Closing(isArray)]);
    AtConcat(s, p, key, value + (trail + tail));
    AtConcat(s, p + |key|, value, trail + tail);
    AtConcat(s, p + |key| + |value|, trail, tail);
  }

  lemma {:induction false} SeparatedAt(s: string, p: nat, list: List, isArray: bool)
    requires ListAt(s, p, list, isArray) && list.Cons?
    ensures SeparatorAt(p, list) < |s|
    ensures list.rest.Nil? ==> s[SeparatorAt(p, list)] == Closing(isArray) && ClosingAt(p, list) == SeparatorAt(p, list)
    ensures list.rest.Cons? && list.comma ==>
              s[SeparatorAt(p, list)] == ',' && At(s, SeparatorAt(p, list) + 1, list.lead)
    ensures list.rest.Cons? ==>
              && ListAt(s, RestAt(p, list), list.rest, isArray)
              && ClosingAt(p, list) == ClosingAt(RestAt(p, list), list.rest)
  {
    hide At, Text, KeyText, ListText, LooseList, Loose, LooseKey, Blank, ValueEnd, ValueAt;
    ConsLoose(s, p, list, isArray);
    ConsAt(s, p, list, isArray);
    var q := SeparatorAt(p, list);
    AtLength(s, q, SeparatedText(list.comma, list.lead, list.rest) + [Closing(isArray)]);
    if list.rest.Nil? {
      assert SeparatedText(list.comma, list.lead, list.rest) + [Closing(isArray)] == [Closing(isArray)];
      AtFirst(s, q, Closing(isArray));
    } else if list.comma {
      var tail := ListText(list.rest) + [Closing(isArray)];
      assert SeparatedText(list.comma, list.lead, list.rest) + [Closing(isArray)] == [','] + (list.lead + tail);
      AtConcat(s, q, [','], list.lead + tail);
      AtConcat(s, q + 1, list.lead, tail);
      AtFirst(s, q, ',');
    }
  }

  lemma {:induction false} BlankFirst(s: string, i: nat, ws: string)
    requires At(s, i, ws) && Blank(ws) && |ws| > 0
    ensures i < |s| && IsSpace(s[i])
  {
    AtChar(s, i, ws, 0);
  }

  /** A collection without a key starts with its bracket. */
  lemma {:induction false} BareFirst(s: string, p: nat, list: List, isArray: bool)
    requires ListAt(s, p, list, isArray) && Bare(list)
    ensures ValueAt(p, list) == p < |s| && s[p] == Opening(list.value.isArray)
  {
    hide At, ListAt, ListText, SeparatedText, LooseList, Loose, LooseKey, ClosingAt;
    ConsAt(s, p, list, isArray);
    AtChar(s, p, Text(list.value), 0);
  }

  lemma {:induction false} ValueDelimited(s: string, p: nat, list: List, isArray: bool)
    requires ListAt(s, p, list, isArray) && list.Cons?
    ensures Delimited(s, ValueEnd(p, list))
  {
    hide At, ListAt, ValueAt, Text, KeyText, ListText, SeparatedText, LooseList, Loose, LooseKey, Blank, ClosingAt,
      Bare;
    ConsLoose(s, p, list, isArray);
    ConsAt(s, p, list, isArray);
    SeparatedAt(s, p, list, isArray);
    if |list.trail| > 0 {
      BlankFirst(s, ValueEnd(p, list), list.trail);
    } else if list.rest.Cons? && !list.comma {
      BareFirst(s, RestAt(p, list), list.rest, isArray);
    }
  }

  /** A value starts with an opening bracket exactly when it is a collection, and never with white space. */
  lemma {:induction false} ValueFirst(s: string, i: nat, v: Json)
    requires Loose(v) && At(s, i, Text(v)) && Delimited(s, i + |Text(v)|)
    ensures i < |s| && !IsSpace(s[i]) && !IsClose(s[i])
    ensures v.Leaf? ==> !IsOpen(s[i]) && ScalarEnd(s, i) == Past(i + |Text(v)|)
    ensures v.Node? ==> s[i] == Opening(v.isArray) && ScalarEnd(s, i) == Absent
  {
    hide ScalarEnd, ScalarText, ListText;
    match v
    case Leaf(x) =>
      ScalarAccepted(s, i, x);
    case Node(isArray, lead, list) =>
      AtChar(s, i, Text(v), 0);
      NoScalar(s, i);
  }

  /** The parts of a key, and what the scanner passes up to the value. */
  lemma {:induction false} KeyAt(s: string, p: nat, key: Key)
    requires key.Key? && At(s, p, KeyText(key))
    ensures var g := p + |StringText(key.name)|;
      && At(s, p, StringText(key.name)) && At(s, g, key.gap) && At(s, g + |key.gap|, [':'])
      && At(s, g + |key.gap| + 1, key.lead)
      && g + |key.gap| + 1 + |key.lead| == p + |KeyText(key)|
  {
    hide At, StringText;
    var name, gap, lead := StringText(key.name), key.gap, key.lead;
    AtConcat(s, p, name, gap + ([':'] + lead));
    AtConcat(s, p + |name|, gap, [':'] + lead);
    AtConcat(s, p + |name| + |gap|, [':'], lead);
  }

  lemma {:induction false} KeySkipped(s: string, p: nat, key: Key)
    requires key.Key? && LooseCharacters(key.name) && Blank(key.gap) && Blank(key.lead) && At(s, p, KeyText(key))
    requires p + |KeyText(key)| < |s| && !IsSpace(s[p + |KeyText(key)|])
    ensures StringEnd(s, p) == Past(p + |StringText(key.name)|)
    ensures ColonEnd(s, p) == Past(p + |KeyText(key)|)
    ensures p < |s| && s[p] == '"'
    ensures var k := SpaceEnd(s, StringEnd(s, p).index);
      k < |s| && s[k] == ':' && SpaceEnd(s, k + 1) == p + |KeyText(key)|
  {
    hide At, StringEnd, SpaceEnd, KeyText, Blank, StringText, LooseCharacters;
    KeyAt(s, p, key);
    var g := p + |StringText(key.name)|;
    AtFirst(s, g + |key.gap|, ':');
    AtChar(s, p, StringText(key.name), 0);
    StringAccepted(s, p, key.name);
    SpaceSkipped(s, g, key.gap);
    SpaceSkipped(s, g + |key.gap| + 1, key.lead);
  }

  /** A list starts with its closing bracket exactly when it is empty, and never with white space. */
  lemma {:induction false} ListFirst(s: string, p: nat, list: List, isArray: bool)
    requires ListAt(s, p, list, isArray)
    ensures p < |s| && !IsSpace(s[p]) && (IsClose(s[p]) <==> list.Nil?)
  {
    hide At, ListAt, Text, ListText, SeparatedText, LooseList, Loose, Blank, StringEnd, ColonEnd, SpaceEnd, ClosingAt;
    if list.Nil? {
      NilAt(s, p, isArray);
    } else {
      HeadFirst(s, p, list, isArray);
      KeyPassed(s, p, list, isArray);
    }
  }

  lemma {:induction false} HeadFirst(s: string, p: nat, list: List, isArray: bool)
    requires ListAt(s, p, list, isArray) && list.Cons?
    ensures ValueAt(p, list) < |s| && !IsSpace(s[ValueAt(p, list)]) && !IsClose(s[ValueAt(p, list)])
    ensures list.value.Leaf? ==>
              && !IsOpen(s[ValueAt(p, list)])
              && ScalarEnd(s, ValueAt(p, list)) == Past(ValueEnd(p, list))
    ensures list.value.Node? ==>
              && s[ValueAt(p, list)] == Opening(list.value.isArray)
              && ScalarEnd(s, ValueAt(p, list)) == Absent
  {
    hide At, ListAt, Text, KeyText, ListText, SeparatedText, LooseList, Loose, LooseKey, Blank, Delimited, ValueAt,
      ScalarEnd;
    ConsLoose(s, p, list, isArray);
    ConsAt(s, p, list, isArray);
    ValueDelimited(s, p, list, isArray);
    ValueFirst(s, ValueAt(p, list), list.value);
  }

  lemma {:induction false} KeyPassed(s: string, p: nat, list: List, isArray: bool)
    requires ListAt(s, p, list, isArray) && list.Cons?
    ensures list.key.NoKey? ==> ValueAt(p, list) == p && (isArray || Bare(list))
    ensures list.key.Key? ==> !isArray && ColonEnd(s, p) == Past(ValueAt(p, list)) && p < |s| && s[p] == '"'
  {
    hide At, ListAt, Text, KeyText, ListText, SeparatedText, LooseList, Loose, Blank, StringEnd, ColonEnd, SpaceEnd,
      ClosingAt;
    ConsLoose(s, p, list, isArray);
    ConsAt(s, p, list, isArray);
    HeadFirst(s, p, list, isArray);
    if list.key.Key? {
      KeySkipped(s, p, list.key);
    } else {
      Unkeyed(p, list);
    }
  }

  lemma {:induction false} Unkeyed(p: nat, list: List)
    requires list.Cons? && list.key.NoKey?
    ensures ValueAt(p, list) == p
  {
  }

  /** Behind a value: a comma with the next value after it, a collection without a comma, or the closing bracket. */
  lemma {:induction false} SeparatorSkipped(s: string, p: nat, list: List, isArray: bool)
    requires ListAt(s, p, list, isArray) && list.Cons?
    ensures CommaFollows(s, ValueEnd(p, list)) <==> list.rest.Cons? && list.comma
    ensures SeparatorEnd(s, ValueEnd(p, list)) == if list.rest.Cons? then RestAt(p, list) else SeparatorAt(p, list)
  {
    hide At, ListAt, Text, KeyText, ListText, SeparatedText, LooseList, Loose, LooseKey, Blank, ValueEnd, ClosingAt,
      SpaceEnd, Bare;
    ConsLoose(s, p, list, isArray);
    ConsAt(s, p, list, isArray);
    SeparatedAt(s, p, list, isArray);
    SpaceSkipped(s, ValueEnd(p, list), list.trail);
    if list.rest.Cons? && list.comma {
      ListFirst(s, RestAt(p, list), list.rest, isArray);
      SpaceSkipped(s, SeparatorAt(p, list) + 1, list.lead);
    } else if list.rest.Cons? {
      BareFirst(s, RestAt(p, list), list.rest, isArray);
    }
  }

  // ----- acceptance

  /** A run of scalars without the white space before it. */
  function RunEnd(s: string, p: nat, isArray: bool): nat {
    if isArray then ArrayScalarsEnd(s, p) else ObjectScalarsEnd(s, p)
  }

  lemma {:induction false} RunStepNil(s: string, p: nat, isArray: bool)
    requires ListAt(s, p, Nil, isArray)
    ensures RunEnd(s, p, isArray) == p
  {
    hide ListAt, ScalarEnd, StringEnd;
    NilAt(s, p, isArray);
    NoScalar(s, p);
  }

  lemma {:induction false} RunStepBare(s: string, p: nat, list: List, isArray: bool)
    requires ListAt(s, p, list, isArray) && Bare(list)
    ensures RunEnd(s, p, isArray) == p == ValueAt(p, list)
  {
    hide ListAt, ScalarEnd, StringEnd, ValueAt, Bare;
    BareFirst(s, p, list, isArray);
    NoScalar(s, p);
  }

  /** The scalar runs stop at the first nested collection, or at the closing bracket. */
  lemma {:induction false} RunStep(s: string, p: nat, list: List, isArray: bool)
    requires ListAt(s, p, list, isArray)
    ensures list.Nil? ==> RunEnd(s, p, isArray) == p
    ensures list.Cons? && list.value.Node? ==> RunEnd(s, p, isArray) == ValueAt(p, list)
    ensures list.Cons? && list.value.Leaf? ==>
              RunEnd(s, p, isArray)
              == if list.rest.Cons? then RunEnd(s, RestAt(p, list), isArray) else SeparatorAt(p, list)
  {
    hide At, ListAt, Text, ListText, SeparatedText, LooseList, Loose, Blank, ScalarEnd, CommaFollows, SeparatorEnd,
      ColonEnd, StringEnd, SpaceEnd, ValueEnd, SeparatorAt, RestAt, ClosingAt, IsControl, ValueAt, KeyText;
    if list.Nil? {
      RunStepNil(s, p, isArray);
    } else if Bare(list) {
      RunStepBare(s, p, list, isArray);
    } else {
      KeyPassed(s, p, list, isArray);
      HeadFirst(s, p, list, isArray);
      SeparatorSkipped(s, p, list, isArray);
      if list.rest.Cons? && !list.comma {
        ConsLoose(s, p, list, isArray);
        SeparatedAt(s, p, list, isArray);
        RunStepBare(s, RestAt(p, list), list.rest, isArray);
      }
    }
  }

  /** What follows a whole nested collection that ends at j. */
  ghost function After(s: string, j: nat, stack: string): Status {
    if stack == "" then Success(j) else Collect(s, Resume(s, j, Top(stack)), stack)
  }

  lemma {:induction false} PushPop(stack: string, c: char)
    ensures Top(stack + [c]) == c && Pop(stack + [c]) == stack
  {
  }

  lemma {:induction false} CloseStep(s: string, i: nat, stack: string, isArray: bool)
    requires i < |s| && s[i] == Closing(isArray)
    ensures Collect(s, i, stack + [Opening(isArray)]) == After(s, i + 1, stack)
  {
    PushPop(stack, Opening(isArray));
  }

  /** The stack machine consumes a collection and leaves the stack as it was. */
  lemma {:induction false} NodeConsumed(s: string, i: nat, v: Json, stack: string)
    requires Loose(v) && v.Node? && At(s, i, Text(v)) && |stack| + Depth(v) <= JSON_MAX_DEPTH
    ensures Collect(s, i, stack) == After(s, i + |Text(v)|, stack)
    decreases v, 0
  {
    hide Loose, LooseList, At, ListAt, Text, ListText, ClosingAt, Resume, After, ScalarsEnd, RunEnd, SpaceEnd;
    NodeAt(s, i, v);
    NodeStart(s, i, v);
    ListConsumed(s, ListStart(i, v), v.list, v.isArray, stack);
  }

  function ListStart(i: nat, v: Json): nat
    requires v.Node?
  {
    i + 1 + |v.lead|
  }

  lemma {:induction false} NodeAt(s: string, i: nat, v: Json)
    requires Loose(v) && v.Node? && At(s, i, Text(v))
    ensures i < |s| && s[i] == Opening(v.isArray) && At(s, i + 1, v.lead) && Blank(v.lead)
    ensures ListAt(s, ListStart(i, v), v.list, v.isArray)
    ensures ClosingAt(ListStart(i, v), v.list) + 1 == i + |Text(v)|
  {
    hide At, ListText;
    var open, close := Opening(v.isArray), Closing(v.isArray);
    AtConcat(s, i, [open], v.lead + (ListText(v.list) + [close]));
    AtConcat(s, i + 1, v.lead, ListText(v.list) + [close]);
    AtFirst(s, i, open);
  }

  lemma {:induction false} NodeStart(s: string, i: nat, v: Json)
    requires Loose(v) && v.Node? && At(s, i, Text(v))
    ensures ScalarsEnd(s, i + 1, Opening(v.isArray)) == RunEnd(s, ListStart(i, v), v.isArray)
    ensures SpaceEnd(s, i + 1) == ListStart(i, v)
  {
    hide Loose, At, ListAt, Text, ArrayScalarsEnd, ObjectScalarsEnd, SpaceEnd, ClosingAt;
    NodeAt(s, i, v);
    ListFirst(s, ListStart(i, v), v.list, v.isArray);
    SpaceSkipped(s, i + 1, v.lead);
  }

  /** Values, commas and the closing bracket, with the opening one on the stack. */
  lemma {:induction false} ListConsumed(s: string, p: nat, list: List, isArray: bool, stack: string)
    requires ListAt(s, p, list, isArray) && |stack| + 1 + ListDepth(list) <= JSON_MAX_DEPTH
    ensures Collect(s, RunEnd(s, p, isArray), stack + [Opening(isArray)])
         == After(s, ClosingAt(p, list) + 1, stack)
    decreases list, 1
  {
    hide At, ListAt, Text, ListText, LooseList, Loose, CommaFollows, SeparatorEnd, Collect, ScalarsEnd, RunEnd,
      ClosingAt, ValueAt, SeparatorAt, RestAt;
    RunStep(s, p, list, isArray);
    if list.Nil? {
      NilAt(s, p, isArray);
      CloseStep(s, p, stack, isArray);
    } else {
      SeparatedAt(s, p, list, isArray);
      if list.value.Node? {
        ConsLoose(s, p, list, isArray);
        ConsAt(s, p, list, isArray);
        NodeConsumed(s, ValueAt(p, list), list.value, stack + [Opening(isArray)]);
        ResumeStep(s, p, list, isArray);
        PushPop(stack, Opening(isArray));
      }
      if list.rest.Nil? {
        CloseStep(s, SeparatorAt(p, list), stack, isArray);
      } else {
        ListConsumed(s, RestAt(p, list), list.rest, isArray, stack);
      }
    }
  }

  /** With more nesting than the stack takes, the machine stops at the first bracket too many. */
  lemma {:induction false} NodeTooDeep(s: string, i: nat, v: Json, stack: string)
    requires Loose(v) && v.Node? && At(s, i, Text(v))
    requires |stack| <= JSON_MAX_DEPTH < |stack| + Depth(v)
    ensures Collect(s, i, stack) == MaxDepthExceeded
    decreases v, 0
  {
    hide Loose, LooseList, At, ListAt, Text, ListText, ClosingAt, ScalarsEnd, RunEnd, SpaceEnd;
    NodeAt(s, i, v);
    NodeStart(s, i, v);
    if |stack| < JSON_MAX_DEPTH {
      ListTooDeep(s, ListStart(i, v), v.list, v.isArray, stack);
    }
  }

  lemma {:induction false} ListTooDeep(s: string, p: nat, list: List, isArray: bool, stack: string)
    requires ListAt(s, p, list, isArray) && |stack| < JSON_MAX_DEPTH < |stack| + 1 + ListDepth(list)
    ensures Collect(s, RunEnd(s, p, isArray), stack + [Opening(isArray)]) == MaxDepthExceeded
    decreases list, 1
  {
    hide At, ListAt, Text, ListText, LooseList, Loose, CommaFollows, SeparatorEnd, Collect, ScalarsEnd, RunEnd,
      ClosingAt, ValueAt, SeparatorAt, RestAt;
    RunStep(s, p, list, isArray);
    SeparatedAt(s, p, list, isArray);
    var open := stack + [Opening(isArray)];
    if |open| + Depth(list.value) > JSON_MAX_DEPTH {
      ConsLoose(s, p, list, isArray);
      ConsAt(s, p, list, isArray);
      NodeTooDeep(s, ValueAt(p, list), list.value, open);
    } else {
      if list.value.Node? {
        ConsLoose(s, p, list, isArray);
        ConsAt(s, p, list, isArray);
        NodeConsumed(s, ValueAt(p, list), list.value, open);
        ResumeStep(s, p, list, isArray);
        PushPop(stack, Opening(isArray));
      }
      ListTooDeep(s, RestAt(p, list), list.rest, isArray, stack);
    }
  }

  /** Behind a nested collection scanning goes on as it does behind a scalar. */
  lemma {:induction false} ResumeStep(s: string, p: nat, list: List, isArray: bool)
    requires ListAt(s, p, list, isArray) && list.Cons?
    ensures Resume(s, ValueEnd(p, list), Opening(isArray))
         == if list.rest.Cons? then RunEnd(s, RestAt(p, list), isArray) else SeparatorAt(p, list)
  {
    hide ListAt, CommaFollows, SeparatorEnd, ValueEnd, SeparatorAt, RestAt, ArrayScalarsEnd, ObjectScalarsEnd, SpaceEnd,
      ClosingAt, RunEnd, Bare;
    SeparatorSkipped(s, p, list, isArray);
    SeparatedAt(s, p, list, isArray);
    if list.rest.Cons? && list.comma {
      ListFirst(s, RestAt(p, list), list.rest, isArray);
      NoSpace(s, RestAt(p, list));
      RunIsScalars(s, RestAt(p, list), isArray);
    } else if list.rest.Cons? {
      ConsLoose(s, p, list, isArray);
      RunStepBare(s, RestAt(p, list), list.rest, isArray);
    }
  }

  /** Without white space in front, a run is all that skipping scalars does. */
  lemma {:induction false} RunIsScalars(s: string, p: nat, isArray: bool)
    requires SpaceEnd(s, p) == p
    ensures ScalarsEnd(s, p, Opening(isArray)) == RunEnd(s, p, isArray)
  {
    hide ArrayScalarsEnd, ObjectScalarsEnd, SpaceEnd;
  }

  lemma {:induction false} NoSpace(s: string, i: nat)
    requires i >= |s| || !IsSpace(s[i])
    ensures SpaceEnd(s, i) == i
  {
  }

  /** JSON_Validate; the length is the length of the string. */
  datatype Answer = JSONSuccess | JSONIllegalDocument | JSONMaxDepthExceeded | JSONPartial | JSONBadParameter
                  | JSONNotFound

  function AnswerOf(status: Status): Answer {
    match status
    case Success(_) => JSONSuccess
    case IllegalDocument => JSONIllegalDocument
    case MaxDepthExceeded => JSONMaxDepthExceeded
    case Partial => JSONPartial
  }

  /** A scalar or a collection in white space. */
  function Validity(s: string): Answer {
    if s == "" then JSONBadParameter else
    var i := SpaceEnd(s, 0);
    var status := if ScalarEnd(s, i).Past? then Success(ScalarEnd(s, i).index) else Collect(s, i, "");
    if status.Success? && SpaceEnd(s, status.index) < |s| then JSONIllegalDocument else AnswerOf(status)
  }

  method Validate(s: string) returns (answer: Answer)
    ensures answer == Validity(s)
  {
    if s == "" {
      return JSONBadParameter;
    }
    var i := SkipSpace(s, 0);
    var ok;
    ok, i := SkipAnyScalar(s, i);
    if ok {
      answer := JSONSuccess;
    } else {
      var status;
      status, i := SkipCollection(s, i);
      answer := AnswerOf(status);
    }
    if answer == JSONSuccess && i < |s| {
      i := SkipSpace(s, i);
      if i != |s| {
        answer := JSONIllegalDocument;
      }
    }
  }

  /** Where a value starts in its document and how far the scanner gets from there. */
  lemma {:induction false} DocumentScanned(before: string, v: Json, behind: string)
    requires Loose(v) && Blank(before) && Blank(behind)
    ensures var s := before + Text(v) + behind;
      && SpaceEnd(s, 0) == |before| < |s|
      && At(s, |before|, Text(v)) && Delimited(s, |before| + |Text(v)|)
      && SpaceEnd(s, |before| + |Text(v)|) == |s|
  {
    hide At, Text, Loose, Blank, SpaceEnd;
    var s := before + Text(v) + behind;
    var e := |before| + |Text(v)|;
    DocumentParts(before, Text(v), behind);
    if |behind| > 0 {
      BlankFirst(s, e, behind);
    }
    ValueFirst(s, |before|, v);
    SpaceSkipped(s, 0, before);
    SpaceSkipped(s, e, behind);
  }

  lemma {:induction false} DocumentParts(a: string, b: string, c: string)
    ensures At(a + b + c, 0, a) && At(a + b + c, |a|, b) && At(a + b + c, |a| + |b|, c)
  {
  }

  /** A text the code can read, with any white space, is accepted if and only if it nests at most 32 deep. */
  lemma {:induction false} EveryLooseTextIsAccepted(s: string, before: string, v: Json, behind: string)
    requires Loose(v) && Blank(before) && Blank(behind) && s == before + Text(v) + behind
    ensures Validity(s) == if Depth(v) <= 32 then JSONSuccess else JSONMaxDepthExceeded
  {
    hide At, Text, ScalarEnd, SpaceEnd, Loose, Blank, Delimited, Collect;
    DocumentScanned(before, v, behind);
    ValueFirst(s, |before|, v);
    if v.Node? && Depth(v) <= JSON_MAX_DEPTH {
      NodeConsumed(s, |before|, v, "");
    } else if v.Node? {
      NodeTooDeep(s, |before|, v, "");
    }
  }

  /** Something behind a collection makes a document illegal, and an empty buffer is a bad parameter. */
  lemma {:induction false} TrailingIsIllegal(before: string, v: Json, behind: string, rest: string)
    requires Loose(v) && v.Node? && Depth(v) <= 32 && Blank(before) && Blank(behind)
    requires rest != "" && !IsWhiteSpace(rest[0])
    ensures Validity(before + Text(v) + (behind + rest)) == JSONIllegalDocument && Validity("") == JSONBadParameter
  {
    hide At, Text, Loose, Blank, Validity;
    DocumentParts(before, Text(v), behind + rest);
    var s := before + Text(v) + (behind + rest);
    AtConcat(s, |before| + |Text(v)|, behind, rest);
    TrailingRefused(s, before, v, behind, rest);
    EmptyRefused();
  }

  lemma {:induction false} EmptyRefused()
    ensures Validity("") == JSONBadParameter
  {
  }

  lemma {:induction false} TrailingRefused(s: string, before: string, v: Json, behind: string, rest: string)
    requires Loose(v) && v.Node? && Depth(v) <= 32 && Blank(before) && Blank(behind)
    requires rest != "" && !IsWhiteSpace(rest[0])
    requires At(s, 0, before) && At(s, |before|, Text(v)) && At(s, |before| + |Text(v)|, behind)
    requires At(s, |before| + |Text(v)| + |behind|, rest)
    ensures Validity(s) == JSONIllegalDocument
  {
    hide At, Text, SpaceEnd, Loose, Blank, Collect, Depth, Validity, ScalarEnd;
    var i, e := |before|, |before| + |Text(v)|;
    NodeRead(s, i, v);
    SpaceSkipped(s, 0, before);
    RestStops(s, e, behind, rest);
    MoreBehind(s, i, e);
  }

  lemma {:induction false} NodeRead(s: string, i: nat, v: Json)
    requires Loose(v) && v.Node? && Depth(v) <= 32 && At(s, i, Text(v))
    ensures i < |s| && !IsSpace(s[i]) && ScalarEnd(s, i).Absent? && Collect(s, i, "") == Success(i + |Text(v)|)
  {
    hide At, Text, Loose, Collect, ScalarEnd, ListAt, After;
    NodeAt(s, i, v);
    OpeningStops(s, i, v);
    NodeConsumed(s, i, v, "");
    NoScalar(s, i);
    AfterWhole(s, i + |Text(v)|);
  }

  lemma {:induction false} RestStops(s: string, e: nat, behind: string, rest: string)
    requires Blank(behind) && At(s, e, behind) && At(s, e + |behind|, rest) && rest != "" && !IsWhiteSpace(rest[0])
    ensures SpaceEnd(s, e) < |s|
  {
    hide At, SpaceEnd, Blank;
    AtChar(s, e + |behind|, rest, 0);
    SpaceSkipped(s, e, behind);
  }

  lemma {:induction false} MoreBehind(s: string, i: nat, e: nat)
    requires s != "" && SpaceEnd(s, 0) == i && ScalarEnd(s, i).Absent? && Collect(s, i, "") == Success(e)
    requires SpaceEnd(s, e) < |s|
    ensures Validity(s) == JSONIllegalDocument
  {
    hide ScalarEnd, SpaceEnd, Collect;
  }

  lemma {:induction false} OpeningStops(s: string, i: nat, v: Json)
    requires v.Node? && i < |s| && s[i] == Opening(v.isArray)
    ensures IsOpen(s[i]) && !IsSpace(s[i])
  {
  }

  lemma {:induction false} AfterWhole(s: string, j: nat)
    ensures After(s, j, "") == Success(j)
  {
  }

  /** A text of RFC 8259, with any white space, is accepted if and only if it nests at most 32 deep. */
  lemma {:induction false} EveryTextIsAccepted(s: string, before: string, v: Json, behind: string)
    requires Valid(v) && Blank(before) && Blank(behind) && s == before + Text(v) + behind
    ensures Validity(s) == if Depth(v) <= 32 then JSONSuccess else JSONMaxDepthExceeded
  {
    hide Valid, Loose, Text, Validity, Blank, Depth;
    ValidIsLoose(v);
    EveryLooseTextIsAccepted(s, before, v, behind);
  }
}
