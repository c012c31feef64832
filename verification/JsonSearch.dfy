/** The path search of core_json.c: JSON_SearchConst returns the slice a walk down the tree would return. */
module JsonSearch {

  import opened JsonScanner
  import opened JsonText
  import opened JsonValidator
  import opened JsonEscapes

  // ----- the search as the source runs it

  datatype Slice = Slice(start: nat, length: nat) | NoSlice

  function NextValueEnd(s: string, i: nat): (end: End)
    ensures end.Past? ==> i < end.index <= |s|
  {
    if ScalarEnd(s, i).Past? then ScalarEnd(s, i)
    else if Collect(s, i, "").Success? then Past(Collect(s, i, "").index)
    else Absent
  }

  method NextValue(s: string, start: nat) returns (ok: bool, next: nat, value: nat, length: nat)
    ensures ok <==> NextValueEnd(s, start).Past?
    ensures ok ==> next == NextValueEnd(s, start).index && value == start && value + length == next
    ensures !ok ==> next == start
  {
    value, length := start, 0;
    ok, next := SkipAnyScalar(s, start);
    if !ok {
      var status;
      status, next := SkipCollection(s, next);
      ok := status.Success?;
    }
    if ok {
      length := next - start;
    }
  }

  datatype Pair = Pair(key: nat, keyLength: nat, value: nat, end: nat) | NoPair

  function PairAt(s: string, i: nat): (pair: Pair)
    ensures pair.Pair? ==> i < pair.value < pair.end <= |s| && pair.key + pair.keyLength < pair.end
  {
    if StringEnd(s, i).Absent? then NoPair else
    var k := StringEnd(s, i).index;
    var c := SpaceEnd(s, k);
    if c >= |s| || s[c] != ':' then NoPair else
    var v := SpaceEnd(s, c + 1);
    if NextValueEnd(s, v).Absent? then NoPair else Pair(i + 1, k - i - 2, v, NextValueEnd(s, v).index)
  }

  method NextKeyValuePair(s: string, start: nat)
    returns (ok: bool, next: nat, key: nat, keyLength: nat, value: nat, valueLength: nat)
    ensures ok <==> PairAt(s, start).Pair?
    ensures ok ==> PairAt(s, start) == Pair(key, keyLength, value, next) && next == value + valueLength
    ensures !ok ==> next == start
  {
    hide StringEnd, SpaceEnd, NextValueEnd;
    next, key, keyLength, value, valueLength := start, 0, 0, 0, 0;
    var i;
    ok, i := SkipString(s, start);
    if ok {
      key, keyLength := start + 1, i - start - 2;
      i := SkipSpace(s, i);
      if i < |s| && s[i] == ':' {
        i := SkipSpace(s, i + 1);
        ok, i, value, valueLength := NextValue(s, i);
        if ok {
          next := i;
        }
      } else {
        ok := false;
      }
    }
  }

  function MembersSearch(s: string, query: string, i: nat): (found: Slice)
    ensures found.Slice? ==> found.length > 0 && found.start + found.length <= |s|
    decreases |s| - i
  {
    if i >= |s| then NoSlice else
    var pair := PairAt(s, i);
    if pair.NoPair? then NoSlice
    else if pair.keyLength == |query| && At(s, pair.key, query) then Slice(pair.value, pair.end - pair.value)
    else if CommaFollows(s, pair.end) then MembersSearch(s, query, SeparatorEnd(s, pair.end))
    else NoSlice
  }

  function ObjectSearched(s: string, query: string): (found: Slice)
    ensures found.Slice? ==> found.length > 0 && found.start + found.length <= |s|
  {
    var i := SpaceEnd(s, 0);
    if i < |s| && s[i] == '{' then MembersSearch(s, query, SpaceEnd(s, i + 1)) else NoSlice
  }

  method ObjectSearch(s: string, query: string) returns (found: Slice)
    ensures found == ObjectSearched(s, query)
  {
    hide PairAt, CommaFollows, SeparatorEnd, SpaceEnd, At;
    var i := SkipSpace(s, 0);
    if i < |s| && s[i] == '{' {
      i := SkipSpace(s, i + 1);
      while i < |s|
        invariant ObjectSearched(s, query) == MembersSearch(s, query, i)
        decreases |s| - i
      {
        var ok, next, key, keyLength, value, valueLength := NextKeyValuePair(s, i);
        if !ok {
          break;
        }
        if |query| == keyLength {
          var equal := EqualAt(s, key, query);
          if equal {
            return Slice(value, valueLength);
          }
        }
        var comma;
        comma, i := SkipSpaceAndComma(s, next);
        if !comma {
          return NoSlice;
        }
      }
    }
    found := NoSlice;
  }

  function ElementsSearch(s: string, index: nat, i: nat): (found: Slice)
    ensures found.Slice? ==> found.length > 0 && found.start + found.length <= |s|
    decreases |s| - i
  {
    if i >= |s| || NextValueEnd(s, i).Absent? then NoSlice else
    var end := NextValueEnd(s, i).index;
    if index == 0 then Slice(i, end - i)
    else if CommaFollows(s, end) then ElementsSearch(s, index - 1, SeparatorEnd(s, end))
    else NoSlice
  }

  function ArraySearched(s: string, index: nat): (found: Slice)
    ensures found.Slice? ==> found.length > 0 && found.start + found.length <= |s|
  {
    var i := SpaceEnd(s, 0);
    if i < |s| && s[i] == '[' then ElementsSearch(s, index, SpaceEnd(s, i + 1)) else NoSlice
  }

  method ArraySearch(s: string, queryIndex: nat) returns (found: Slice)
    ensures found == ArraySearched(s, queryIndex)
  {
    hide NextValueEnd, CommaFollows, SeparatorEnd, SpaceEnd;
    var i := SkipSpace(s, 0);
    var currentIndex := 0;
    if i < |s| && s[i] == '[' {
      i := SkipSpace(s, i + 1);
      while i < |s|
        invariant 0 <= currentIndex <= queryIndex
        invariant ArraySearched(s, queryIndex) == ElementsSearch(s, queryIndex - currentIndex, i)
        decreases |s| - i
      {
        var ok, next, value, valueLength := NextValue(s, i);
        if !ok {
          break;
        }
        if currentIndex == queryIndex {
          return Slice(value, valueLength);
        }
        var comma;
        comma, i := SkipSpaceAndComma(s, next);
        if !comma {
          return NoSlice;
        }
        currentIndex := currentIndex + 1;
      }
    }
    found := NoSlice;
  }

  // ----- queries

  predicate IsSeparator(c: char) { c == '.' }

  predicate IsPartCharacter(c: char) { !IsSeparator(c) && c != '[' }

  function PartEnd(q: string, i: nat): (j: nat)
    ensures i <= j && (i <= |q| ==> j <= |q|)
    decreases |q| - i
  {
    if i < |q| && IsPartCharacter(q[i]) then PartEnd(q, i + 1) else i
  }

  method SkipQueryPart(q: string, start: nat) returns (ok: bool, i: nat)
    ensures i == PartEnd(q, start) && (ok <==> start < i)
  {
    i := start;
    while i < |q| && IsPartCharacter(q[i])
      invariant start <= i && PartEnd(q, start) == PartEnd(q, i)
    {
      i := i + 1;
    }
    ok := i > start;
  }

  datatype Outcome = Hit(start: nat, length: nat) | Miss | BadQuery

  /** The number between brackets from i on, if it can be converted. */
  function QueryIndex(q: string, i: nat): int {
    if DigitsEnd(q, i) > i then Clipped(Decimal(q, i, DigitsEnd(q, i))) else -1
  }

  /** Where a query part that starts at i ends, or Absent when the part is malformed. */
  function StepEnd(q: string, i: nat): (end: End)
    requires i < |q|
    ensures end.Past? ==> i < end.index <= |q|
  {
    if q[i] == '[' then
      var d := DigitsEnd(q, i + 1);
      if QueryIndex(q, i + 1) < 0 || d >= |q| || q[d] != ']' then Absent else Past(d + 1)
    else
      var e := PartEnd(q, i);
      if e == i || e == |q| - 1 then Absent else Past(e)
  }

  function StepSearched(s: string, q: string, i: nat): (found: Slice)
    requires i < |q| && StepEnd(q, i).Past?
    ensures found.Slice? ==> found.length > 0 && found.start + found.length <= |s|
  {
    if q[i] == '[' then ArraySearched(s, QueryIndex(q, i + 1)) else ObjectSearched(s, q[i..StepEnd(q, i).index])
  }

  function SeparatorPassed(q: string, i: nat): (j: nat)
    ensures i <= j && (i <= |q| ==> j <= |q|)
  {
    if i < |q| && IsSeparator(q[i]) then i + 1 else i
  }

  function MultiSearched(s: string, q: string, i: nat, start: nat, length: nat): (outcome: Outcome)
    requires start + length <= |s|
    ensures outcome.Hit? ==> outcome.start + outcome.length <= |s| && (length > 0 ==> outcome.length > 0)
    decreases |q| - i
  {
    if i >= |q| then Hit(start, length)
    else if StepEnd(q, i).Absent? then BadQuery
    else
      var found := StepSearched(s[start..start + length], q, i);
      if found.NoSlice? then Miss
      else MultiSearched(s, q, SeparatorPassed(q, StepEnd(q, i).index), start + found.start, found.length)
  }

  /** One part of the query, searched in one value. */
  method SearchPart(s: string, q: string, start: nat) returns (end: End, found: Slice)
    requires start < |q|
    ensures end == StepEnd(q, start)
    ensures end.Past? ==> found == StepSearched(s, q, start)
  {
    hide ArraySearched, ObjectSearched, Decimal, Clipped;
    found := NoSlice;
    var i := start;
    if q[i] == '[' {
      var queryIndex := -1;
      i := i + 1;
      var ok, j, value := SkipDigits(q, i);
      if ok {
        queryIndex := value;
      }
      i := j;
      if queryIndex < 0 || i >= |q| || q[i] != ']' {
        return Absent, found;
      }
      i := i + 1;
      found := ArraySearch(s, queryIndex);
    } else {
      var ok;
      ok, i := SkipQueryPart(q, i);
      if !ok || i == |q| - 1 {
        return Absent, found;
      }
      found := ObjectSearch(s, q[start..i]);
    }
    end := Past(i);
  }

  method MultiSearch(s: string, q: string) returns (outcome: Outcome)
    ensures outcome == MultiSearched(s, q, 0, 0, |s|)
  {
    hide StepEnd, StepSearched;
    var i: nat, start: nat, length: nat := 0, 0, |s|;
    while i < |q|
      invariant start + length <= |s|
      invariant MultiSearched(s, q, 0, 0, |s|) == MultiSearched(s, q, i, start, length)
      decreases |q| - i
    {
      var end, found := SearchPart(s[start..start + length], q, i);
      if end == Absent {
        return BadQuery;
      }
      if found == NoSlice {
        return Miss;
      }
      start, length := start + found.start, found.length;
      i := end.index;
      if i < |q| && IsSeparator(q[i]) {
        i := i + 1;
      }
    }
    outcome := Hit(start, length);
  }

  datatype Kind = StringKind | ObjectKind | ArrayKind | TrueKind | FalseKind | NullKind | NumberKind

  function GetType(c: char): Kind {
    match c
    case '"' => StringKind
    case '{' => ObjectKind
    case '[' => ArrayKind
    case 't' => TrueKind
    case 'f' => FalseKind
    case 'n' => NullKind
    case _ => NumberKind
  }

  datatype Result = Value(start: nat, length: int, kind: Kind) | Failure(answer: Answer)

  /** Quotes are stripped from a string. */
  function Searched(s: string, q: string): Result {
    if s == "" || q == "" then Failure(JSONBadParameter) else
    match MultiSearched(s, q, 0, 0, |s|)
    case BadQuery => Failure(JSONBadParameter)
    case Miss => Failure(JSONNotFound)
    case Hit(start, length) =>
      var kind := GetType(s[start]);
      if kind == StringKind then Value(start + 1, length - 2, kind) else Value(start, length, kind)
  }

  method SearchConst(s: string, q: string) returns (result: Result)
    ensures result == Searched(s, q)
  {
    if s == "" || q == "" {
      return Failure(JSONBadParameter);
    }
    var outcome := MultiSearch(s, q);
    match outcome
    case BadQuery => result := Failure(JSONBadParameter);
    case Miss => result := Failure(JSONNotFound);
    case Hit(start, length) =>
      var value, valueLength := start, length as int;
      var kind := GetType(s[value]);
      if kind == StringKind {
        value := value + 1;
        valueLength := valueLength - 2;
      }
      result := Value(value, valueLength, kind);
  }

  // ----- the walk down the tree

  /** A key, as it is written between its quotes, or an index, as it is written between its brackets. */
  datatype Step = Member(name: string) | Element(digits: string)

  ghost predicate ValidStep(step: Step) {
    match step
    case Member(name) => |name| > 0 && forall k :: 0 <= k < |name| ==> name[k] != '.' && name[k] != '['
    case Element(digits) => |digits| > 0 && AllDigits(digits) && Decimal(digits, 0, |digits|) <= 2147483639
  }

  ghost predicate ValidPath(path: seq<Step>) {
    forall k :: 0 <= k < |path| ==> ValidStep(path[k])
  }

  function StepText(step: Step): string {
    match step
    case Member(name) => name
    case Element(digits) => ['['] + (digits + [']'])
  }

  /** `a[0].b`: a dot in front of every key but the first. */
  function PathText(path: seq<Step>): string {
    if path == [] then ""
    else
      StepText(path[0])
      + ((if |path| > 1 && path[1].Member? then ['.'] else "") + PathText(path[1..]))
  }

  /** A value and where its text starts. */
  datatype Place = Place(offset: nat, value: Json) | Nowhere

  /** The first member with this key. */
  function FindMember(list: List, at: nat, name: string): Place
    decreases list
  {
    if list.Nil? then Nowhere
    else if list.key.Key? && CharactersText(list.key.name) == name then Place(ValueAt(at, list), list.value)
    else FindMember(list.rest, RestAt(at, list), name)
  }

  function FindElement(list: List, at: nat, index: nat): Place
    decreases list
  {
    if list.Nil? then Nowhere
    else if index == 0 then Place(ValueAt(at, list), list.value)
    else FindElement(list.rest, RestAt(at, list), index - 1)
  }

  function Find(v: Json, at: nat, step: Step): Place
    requires step.Element? ==> AllDigits(step.digits)
  {
    if v.Leaf? then Nowhere
    else match step
      case Member(name) => if v.isArray then Nowhere else FindMember(v.list, ListStart(at, v), name)
      case Element(digits) =>
        if v.isArray then FindElement(v.list, ListStart(at, v), Decimal(digits, 0, |digits|)) else Nowhere
  }

  function Follow(v: Json, at: nat, path: seq<Step>): Place
    requires ValidPath(path)
    decreases |path|
  {
    if path == [] then Place(at, v)
    else
      var next := Find(v, at, path[0]);
      if next.Nowhere? then Nowhere else Follow(next.value, next.offset, path[1..])
  }

  // ----- inside one collection

  ghost function SliceOf(place: Place): Slice {
    if place.Nowhere? then NoSlice else Slice(place.offset, |Text(place.value)|)
  }

  lemma {:induction false} ConsValid(list: List, isArray: bool)
    requires ValidList(list, isArray) && list.Cons?
    ensures ValidKey(list.key, isArray) && Valid(list.value) && ValidList(list.rest, isArray)
    ensures list.rest.Cons? ==> list.comma
  {
  }

  /** The scanner takes a value in a list for exactly its text. */
  lemma {:induction false} ValueScanned(s: string, p: nat, list: List, isArray: bool)
    requires ListAt(s, p, list, isArray) && list.Cons? && Depth(list.value) <= JSON_MAX_DEPTH
    ensures NextValueEnd(s, ValueAt(p, list)) == Past(ValueEnd(p, list))
  {
    hide At, ListAt, Text, ScalarEnd, Collect, Loose, LooseList, LooseKey, ValueAt, SeparatorAt, SeparatedText, Depth;
    HeadFirst(s, p, list, isArray);
    if list.value.Node? {
      ConsLoose(s, p, list, isArray);
      ConsAt(s, p, list, isArray);
      NodeConsumed(s, ValueAt(p, list), list.value, "");
    }
  }

  /** The key text lies between the quotes. */
  lemma {:induction false} KeyTextAt(s: string, p: nat, chars: seq<Character>)
    requires At(s, p, StringText(chars))
    ensures At(s, p + 1, CharactersText(chars))
  {
    hide At, CharactersText;
    assert StringText(chars) == ['"'] + (CharactersText(chars) + ['"']);
    AtConcat(s, p, ['"'], CharactersText(chars) + ['"']);
    AtConcat(s, p + 1, CharactersText(chars), ['"']);
  }

  lemma {:induction false} SameText(s: string, i: nat, a: string, b: string)
    requires At(s, i, a) && |a| == |b|
    ensures At(s, i, b) <==> a == b
  {
  }

  lemma {:induction false} PairScanned(s: string, p: nat, list: List)
    requires ListAt(s, p, list, false) && list.Cons? && Depth(list.value) <= JSON_MAX_DEPTH
    requires ValidList(list, false)
    ensures list.key.Key?
    ensures PairAt(s, p) == Pair(p + 1, |CharactersText(list.key.name)|, ValueAt(p, list), ValueEnd(p, list))
    ensures At(s, p + 1, CharactersText(list.key.name))
  {
    hide At, ListAt, Text, KeyText, StringEnd, SpaceEnd, NextValueEnd, Valid, ValidList, Loose, LooseList,
      LooseKey, ValueEnd, SeparatorAt, Depth, CharactersText, Blank, SeparatedText;
    ConsValid(list, false);
    ConsLoose(s, p, list, false);
    ConsAt(s, p, list, false);
    HeadFirst(s, p, list, false);
    KeySkipped(s, p, list.key);
    ValueScanned(s, p, list, false);
    KeyAt(s, p, list.key);
    KeyTextAt(s, p, list.key.name);
  }

  lemma {:induction false} NoPairAtEnd(s: string, p: nat)
    requires ListAt(s, p, Nil, false)
    ensures PairAt(s, p) == NoPair && p < |s|
  {
    hide ListAt, StringEnd;
    NilAt(s, p, false);
    NoScalar(s, p);
  }

  lemma {:induction false} NoValueAtEnd(s: string, p: nat)
    requires ListAt(s, p, Nil, true)
    ensures NextValueEnd(s, p) == Absent
  {
    hide ListAt, ScalarEnd;
    NilAt(s, p, true);
    NoScalar(s, p);
  }

  lemma {:induction false} MembersFound(s: string, p: nat, list: List, name: string)
    requires ListAt(s, p, list, false) && ListDepth(list) <= JSON_MAX_DEPTH
    requires ValidList(list, false)
    ensures MembersSearch(s, name, p) == SliceOf(FindMember(list, p, name))
    decreases list
  {
    hide At, ListAt, ValidList, Valid, PairAt, CommaFollows, SeparatorEnd, Text, CharactersText, Depth,
      SeparatorAt, RestAt, ClosingAt, SeparatedText, ValueAt;
    if list.Nil? {
      NoPairAtEnd(s, p);
    } else {
      DepthsInside(list);
      ConsValid(list, false);
      PairScanned(s, p, list);
      if |name| == |CharactersText(list.key.name)| {
        SameText(s, p + 1, CharactersText(list.key.name), name);
      }
      SeparatorSkipped(s, p, list, false);
      SeparatedAt(s, p, list, false);
      if list.rest.Cons? {
        MembersFound(s, RestAt(p, list), list.rest, name);
      }
    }
  }

  lemma {:induction false} DepthsInside(list: List)
    requires list.Cons?
    ensures Depth(list.value) <= ListDepth(list) && ListDepth(list.rest) <= ListDepth(list)
  {
  }

  lemma {:induction false} ElementsFound(s: string, p: nat, list: List, index: nat)
    requires ListAt(s, p, list, true) && ListDepth(list) <= JSON_MAX_DEPTH
    requires ValidList(list, true)
    ensures ElementsSearch(s, index, p) == SliceOf(FindElement(list, p, index))
    decreases list
  {
    hide At, ListAt, ValidList, Valid, NextValueEnd, CommaFollows, SeparatorEnd, Text, Depth, SeparatorAt,
      RestAt, ClosingAt, SeparatedText, KeyText;
    if list.Nil? {
      NoValueAtEnd(s, p);
    } else {
      DepthsInside(list);
      ConsValid(list, true);
      KeyPassed(s, p, list, true);
      ValueScanned(s, p, list, true);
      SeparatorSkipped(s, p, list, true);
      SeparatedAt(s, p, list, true);
      if list.rest.Cons? && index > 0 {
        ElementsFound(s, RestAt(p, list), list.rest, index - 1);
      }
    }
  }

  /** A value alone in white space. */
  ghost predicate DocumentAt(s: string, i: nat, v: Json) {
    && Valid(v) && Depth(v) <= JSON_MAX_DEPTH
    && i <= |s| && Blank(s[..i]) && At(s, i, Text(v)) && Delimited(s, i + |Text(v)|)
  }

  lemma {:induction false} DocumentStart(s: string, i: nat, v: Json)
    requires DocumentAt(s, i, v)
    ensures SpaceEnd(s, 0) == i < |s|
    ensures v.Leaf? ==> !IsOpen(s[i])
    ensures v.Node? ==> s[i] == Opening(v.isArray) && SpaceEnd(s, i + 1) == ListStart(i, v)
    ensures v.Node? ==> ListAt(s, ListStart(i, v), v.list, v.isArray) && ListDepth(v.list) <= JSON_MAX_DEPTH
    ensures v.Node? ==> ValidList(v.list, v.isArray)
  {
    hide At, Text, Loose, LooseList, ValidList, Delimited, SpaceEnd, ListAt, Blank, ScalarEnd;
    ValidIsLoose(v);
    ValueFirst(s, i, v);
    Prefix(s, i);
    SpaceSkipped(s, 0, s[..i]);
    if v.Node? {
      NodeAt(s, i, v);
      NodeStart(s, i, v);
    }
  }

  lemma {:induction false} Prefix(s: string, i: nat)
    requires i <= |s|
    ensures At(s, 0, s[..i])
  {
  }

  lemma {:induction false} ObjectFound(s: string, i: nat, v: Json, step: Step)
    requires DocumentAt(s, i, v) && step.Member?
    ensures ObjectSearched(s, step.name) == SliceOf(Find(v, i, step))
  {
    hide DocumentAt, ListAt, SpaceEnd, MembersSearch, FindMember, ListStart, ListDepth;
    DocumentStart(s, i, v);
    if v.Node? && !v.isArray {
      MembersFound(s, ListStart(i, v), v.list, step.name);
    }
  }

  lemma {:induction false} ArrayFound(s: string, i: nat, v: Json, step: Step)
    requires DocumentAt(s, i, v) && step.Element? && AllDigits(step.digits)
    ensures ArraySearched(s, Decimal(step.digits, 0, |step.digits|)) == SliceOf(Find(v, i, step))
  {
    hide DocumentAt, ListAt, SpaceEnd, ElementsSearch, FindElement, ListStart, ListDepth, Decimal;
    DocumentStart(s, i, v);
    if v.Node? && v.isArray {
      ElementsFound(s, ListStart(i, v), v.list, Decimal(step.digits, 0, |step.digits|));
    }
  }

  // ----- along a path

  /** The text of a path fills q from i on. */
  ghost predicate PathAt(q: string, i: nat, path: seq<Step>) {
    ValidPath(path) && At(q, i, PathText(path)) && i + |PathText(path)| == |q|
  }

  /** What follows the first step: nothing, a dot and a key, or a bracket. */
  function TailText(path: seq<Step>): string
    requires path != []
  {
    (if |path| > 1 && path[1].Member? then ['.'] else "") + PathText(path[1..])
  }

  lemma {:induction false} TailAt(q: string, e: nat, path: seq<Step>)
    requires path != [] && ValidPath(path) && At(q, e, TailText(path)) && e + |TailText(path)| == |q|
    ensures PathAt(q, SeparatorPassed(q, e), path[1..])
    ensures e != |q| - 1
    ensures e < |q| ==> q[e] == '.' || q[e] == '['
  {
    hide At;
    var rest := path[1..];
    if |path| > 1 {
      StepFirst(rest);
      if path[1].Member? {
        AtConcat(q, e, ['.'], PathText(rest));
        AtFirst(q, e, '.');
      } else {
        assert TailText(path) == PathText(rest);
        AtChar(q, e, PathText(rest), 0);
      }
    } else {
      assert TailText(path) == PathText(rest);
    }
  }

  lemma {:induction false} StepFirst(path: seq<Step>)
    requires path != [] && ValidPath(path)
    ensures |PathText(path)| >= 1 && (path[0].Element? ==> |PathText(path)| >= 3 && PathText(path)[0] == '[')
    ensures path[0].Member? ==> PathText(path)[0] == path[0].name[0]
  {
    assert ValidStep(path[0]);
  }

  lemma {:induction false} PartRun(q: string, i: nat, j: nat)
    requires i <= j <= |q| && (forall k :: i <= k < j ==> IsPartCharacter(q[k])) && (j < |q| ==> !IsPartCharacter(q[j]))
    ensures PartEnd(q, i) == j
    decreases j - i
  {
    if i < j {
      PartRun(q, i + 1, j);
    }
  }

  lemma {:induction false} DecimalMoves(q: string, i: nat, digits: string, n: nat)
    requires At(q, i, digits) && AllDigits(digits) && n <= |digits|
    ensures forall k :: i <= k < i + n ==> IsDigit(q[k])
    ensures Decimal(q, i, i + n) == Decimal(digits, 0, n)
    decreases n
  {
    hide At, HexToInt;
    AtLength(q, i, digits);
    if n > 0 {
      AtChar(q, i, digits, n - 1);
      DecimalMoves(q, i, digits, n - 1);
    }
  }

  lemma {:induction false} MemberParsed(q: string, i: nat, path: seq<Step>)
    requires PathAt(q, i, path) && path != [] && path[0].Member?
    ensures i < |q| && q[i] != '[' && StepEnd(q, i) == Past(i + |StepText(path[0])|)
    ensures q[i..i + |StepText(path[0])|] == path[0].name
    ensures PathAt(q, SeparatorPassed(q, i + |StepText(path[0])|), path[1..])
  {
    hide PathAt;
    var name := path[0].name;
    var e := i + |name|;
    StepAt(q, i, path);
    TailAt(q, e, path);
    forall k | i <= k < e ensures IsPartCharacter(q[k]) {
      AtChar(q, i, name, k - i);
    }
    PartRun(q, i, e);
  }

  lemma {:induction false} StepAt(q: string, i: nat, path: seq<Step>)
    requires PathAt(q, i, path) && path != []
    ensures At(q, i, StepText(path[0])) && ValidStep(path[0]) && ValidPath(path)
    ensures var e := i + |StepText(path[0])|;
      At(q, e, TailText(path)) && e + |TailText(path)| == |q|
  {
    hide At;
    AtConcat(q, i, StepText(path[0]), TailText(path));
  }

  lemma {:induction false} ElementParsed(q: string, i: nat, path: seq<Step>)
    requires PathAt(q, i, path) && path != [] && path[0].Element?
    ensures i < |q| && q[i] == '[' && StepEnd(q, i) == Past(i + |StepText(path[0])|)
    ensures AllDigits(path[0].digits) && QueryIndex(q, i + 1) == Decimal(path[0].digits, 0, |path[0].digits|)
    ensures PathAt(q, SeparatorPassed(q, i + |StepText(path[0])|), path[1..])
  {
    hide PathAt, At, Decimal;
    var digits := path[0].digits;
    StepAt(q, i, path);
    TailAt(q, i + |StepText(path[0])|, path);
    AtConcat(q, i, ['['], digits + [']']);
    AtConcat(q, i + 1, digits, [']']);
    AtFirst(q, i, '[');
    AtFirst(q, i + 1 + |digits|, ']');
    DigitsAccepted(q, i + 1, digits);
    DecimalMoves(q, i + 1, digits, |digits|);
  }

  /** One step of the query lands where one step down the tree lands. */
  lemma {:induction false} StepFound(s: string, k: nat, v: Json, q: string, i: nat, path: seq<Step>)
    requires DocumentAt(s, k, v) && PathAt(q, i, path) && path != []
    ensures ValidPath(path) && i < |q| && StepEnd(q, i).Past?
    ensures StepSearched(s, q, i) == SliceOf(Find(v, k, path[0]))
    ensures PathAt(q, SeparatorPassed(q, StepEnd(q, i).index), path[1..])
  {
    hide DocumentAt, PathAt, ArraySearched, ObjectSearched, Find, StepEnd, QueryIndex, StepText, PathText, TailText, At,
      SliceOf, SeparatorPassed, ValidStep, Decimal;
    StepAt(q, i, path);
    if path[0].Member? {
      MemberParsed(q, i, path);
      ObjectFound(s, k, v, path[0]);
    } else {
      ElementParsed(q, i, path);
      ArrayFound(s, k, v, path[0]);
    }
  }

  /** A value in a list is again a document of its own. */
  lemma {:induction false} PlaceAt(s: string, p: nat, list: List, isArray: bool)
    requires ListAt(s, p, list, isArray) && ListDepth(list) <= JSON_MAX_DEPTH && list.Cons?
    requires ValidList(list, isArray)
    ensures At(s, ValueAt(p, list), Text(list.value)) && Valid(list.value) && Depth(list.value) <= JSON_MAX_DEPTH
  {
    hide At, ListAt, Valid, ValidList, ValueAt, Text, Depth;
    ConsAt(s, p, list, isArray);
    ConsValid(list, isArray);
    DepthsInside(list);
  }

  /** What stands at a place is the text of its value. */
  ghost predicate Stands(s: string, place: Place) {
    place.Place? ==>
      At(s, place.offset, Text(place.value)) && Valid(place.value) && Depth(place.value) <= JSON_MAX_DEPTH
  }

  lemma {:induction false} MemberStands(s: string, p: nat, list: List, name: string)
    requires ListAt(s, p, list, false) && ListDepth(list) <= JSON_MAX_DEPTH
    requires ValidList(list, false)
    ensures Stands(s, FindMember(list, p, name))
    decreases list
  {
    hide At, ListAt, Valid, ValidList, Text, Depth, ValueAt, RestAt, SeparatorAt, ClosingAt, CharactersText;
    if list.Cons? {
      PlaceAt(s, p, list, false);
      ConsValid(list, false);
      SeparatedAt(s, p, list, false);
      DepthsInside(list);
      if list.rest.Cons? {
        MemberStands(s, RestAt(p, list), list.rest, name);
      }
    }
  }

  lemma {:induction false} ElementStands(s: string, p: nat, list: List, index: nat)
    requires ListAt(s, p, list, true) && ListDepth(list) <= JSON_MAX_DEPTH
    requires ValidList(list, true)
    ensures Stands(s, FindElement(list, p, index))
    decreases list
  {
    hide At, ListAt, Valid, ValidList, Text, Depth, ValueAt, RestAt, SeparatorAt, ClosingAt;
    if list.Cons? {
      PlaceAt(s, p, list, true);
      ConsValid(list, true);
      SeparatedAt(s, p, list, true);
      DepthsInside(list);
      if list.rest.Cons? && index > 0 {
        ElementStands(s, RestAt(p, list), list.rest, index - 1);
      }
    }
  }

  lemma {:induction false} FindStands(s: string, k: nat, v: Json, step: Step)
    requires DocumentAt(s, k, v) && (step.Element? ==> AllDigits(step.digits))
    ensures Stands(s, Find(v, k, step))
  {
    hide DocumentAt, ListAt, FindMember, FindElement, ListStart, ListDepth, Decimal, Stands;
    DocumentStart(s, k, v);
    if Find(v, k, step).Nowhere? {
      NowhereStands(s);
    } else if v.isArray {
      ElementStands(s, ListStart(k, v), v.list, Decimal(step.digits, 0, |step.digits|));
    } else {
      MemberStands(s, ListStart(k, v), v.list, step.name);
    }
  }

  lemma {:induction false} NowhereStands(s: string)
    ensures Stands(s, Nowhere)
  {
  }

  // ----- the theorem

  ghost function Moved(place: Place, d: nat): Place {
    if place.Nowhere? then Nowhere else Place(place.offset + d, place.value)
  }

  lemma {:induction false} MembersMove(list: List, at: nat, d: nat, name: string)
    ensures FindMember(list, at + d, name) == Moved(FindMember(list, at, name), d)
    decreases list
  {
    hide CharactersText, KeyText, Text;
    if list.Cons? {
      MembersMove(list.rest, RestAt(at, list), d, name);
    }
  }

  lemma {:induction false} ElementsMove(list: List, at: nat, d: nat, index: nat)
    ensures FindElement(list, at + d, index) == Moved(FindElement(list, at, index), d)
    decreases list
  {
    hide KeyText, Text;
    if list.Cons? && index > 0 {
      ElementsMove(list.rest, RestAt(at, list), d, index - 1);
    }
  }

  lemma {:induction false} FindMoves(v: Json, at: nat, d: nat, step: Step)
    requires step.Element? ==> AllDigits(step.digits)
    ensures Find(v, at + d, step) == Moved(Find(v, at, step), d)
  {
    hide FindMember, FindElement, Decimal;
    if v.Node? {
      match step
      case Member(name) =>
        MembersMove(v.list, ListStart(at, v), d, name);
      case Element(digits) =>
        ElementsMove(v.list, ListStart(at, v), d, Decimal(digits, 0, |digits|));
    }
  }

  lemma {:induction false} AtInside(s: string, start: nat, length: nat, k: nat, t: string)
    requires start + length <= |s| && At(s[start..start + length], k, t)
    ensures At(s, start + k, t) && start + k + |t| <= start + length
  {
    var slice := s[start..start + length];
    var inner, outer := slice[k..k + |t|], s[start + k..start + k + |t|];
    forall n | 0 <= n < |t| ensures inner[n] == outer[n] {
      assert slice[k + n] == s[start + k + n];
    }
    assert inner == outer;
  }

  /** The text of a value, cut out, is a document. */
  lemma {:induction false} CutOut(s: string, o: nat, v: Json)
    requires At(s, o, Text(v)) && Valid(v) && Depth(v) <= JSON_MAX_DEPTH
    ensures o + |Text(v)| <= |s| && DocumentAt(s[o..o + |Text(v)|], 0, v)
  {
    hide Text, Valid, Depth;
    var t := s[o..o + |Text(v)|];
    assert t[0..|t|] == t;
  }

  ghost function OutcomeOf(place: Place): Outcome {
    if place.Nowhere? then Miss else Hit(place.offset, |Text(place.value)|)
  }

  lemma {:induction false} PathFollowed(s: string, start: nat, length: nat, k: nat, v: Json, q: string, i: nat,
                                        path: seq<Step>)
    requires start + length <= |s| && DocumentAt(s[start..start + length], k, v)
    requires PathAt(q, i, path)
    ensures ValidPath(path)
    ensures path == [] ==> MultiSearched(s, q, i, start, length) == Hit(start, length)
    ensures path != [] ==> MultiSearched(s, q, i, start, length) == OutcomeOf(Follow(v, start + k, path))
    ensures Stands(s, Follow(v, start + k, path))
    decreases |path|
  {
    hide At, DocumentAt, PathText, StepEnd, StepSearched, Find, Stands, Valid, Text, SeparatorPassed, Depth;
    PathEnds(q, i, path);
    if path == [] {
      DocumentStands(s, start, length, k, v);
    } else {
      var slice := s[start..start + length];
      StepFound(slice, k, v, q, i, path);
      FindStands(slice, k, v, path[0]);
      FindMoves(v, k, start, path[0]);
      var found := Find(v, k, path[0]);
      if found.Nowhere? {
        NowhereStands(s);
      } else {
        StandsInside(s, start, length, found);
        PathFollowed(s, start + found.offset, |Text(found.value)|, 0, found.value, q,
                     SeparatorPassed(q, StepEnd(q, i).index), path[1..]);
      }
    }
  }

  lemma {:induction false} PathEnds(q: string, i: nat, path: seq<Step>)
    requires PathAt(q, i, path)
    ensures ValidPath(path) && i + |PathText(path)| == |q|
    ensures path == [] ==> i == |q|
    ensures path != [] ==> ValidStep(path[0])
  {
  }

  lemma {:induction false} DocumentStands(s: string, start: nat, length: nat, k: nat, v: Json)
    requires start + length <= |s| && DocumentAt(s[start..start + length], k, v)
    ensures Stands(s, Place(start + k, v))
  {
    hide At, Text, Valid, Depth;
    AtInside(s, start, length, k, Text(v));
  }

  lemma {:induction false} StandsInside(s: string, start: nat, length: nat, place: Place)
    requires start + length <= |s| && place.Place? && Stands(s[start..start + length], place)
    ensures start + place.offset + |Text(place.value)| <= |s|
    ensures DocumentAt(s[start + place.offset..start + place.offset + |Text(place.value)|], 0, place.value)
  {
    hide At, Text, Valid, Depth, DocumentAt;
    AtInside(s, start, length, place.offset, Text(place.value));
    CutOut(s, start + place.offset, place.value);
  }

  // ----- the answer

  /** The type a value has by its first character. */
  function KindOf(v: Json): Kind {
    match v
    case Leaf(True) => TrueKind
    case Leaf(False) => FalseKind
    case Leaf(Null) => NullKind
    case Leaf(Str(_)) => StringKind
    case Leaf(Num(_)) => NumberKind
    case Node(isArray, _, _) => if isArray then ArrayKind else ObjectKind
  }

  lemma {:induction false} KindRead(s: string, o: nat, v: Json)
    requires At(s, o, Text(v)) && Valid(v)
    ensures o < |s| && GetType(s[o]) == KindOf(v)
  {
    hide At, StringText, NumberText, ListText;
    AtLength(s, o, Text(v));
    match v
    case Leaf(True) => AtChar(s, o, TRUE, 0);
    case Leaf(False) => AtChar(s, o, FALSE, 0);
    case Leaf(Null) => AtChar(s, o, NULL, 0);
    case Leaf(Str(chars)) => AtChar(s, o, StringText(chars), 0);
    case Leaf(Num(n)) =>
      NumberFirst(n);
      AtChar(s, o, NumberText(n), 0);
    case Node(isArray, lead, list) =>
      assert Text(v)[0] == Opening(isArray);
      AtChar(s, o, Text(v), 0);
      if isArray {
        assert s[o] == '[';
      } else {
        assert s[o] == '{';
      }
  }

  lemma {:induction false} NumberFirst(n: Number)
    requires ValidNumber(n)
    ensures |NumberText(n)| > 0 && (NumberText(n)[0] == '-' || IsDigit(NumberText(n)[0]))
  {
    hide NumberText;
    var t := NumberText(n);
    assert At(t, 0, t) by {
      assert t[0..|t|] == t;
    }
    NumberAccepted(t, 0, n);
  }

  /** What a caller is shown of a value: its text, or for a string the characters between the quotes. */
  function Shown(v: Json): string {
    match v
    case Leaf(Str(chars)) => CharactersText(chars)
    case _ => Text(v)
  }

  function ShownAt(place: Place): nat
    requires place.Place?
  {
    if KindOf(place.value) == StringKind then place.offset + 1 else place.offset
  }

  lemma {:induction false} StandsShown(s: string, place: Place)
    requires place.Place? && Stands(s, place)
    ensures At(s, ShownAt(place), Shown(place.value))
    ensures KindOf(place.value) == StringKind ==> |Shown(place.value)| == |Text(place.value)| - 2
    ensures KindOf(place.value) != StringKind ==> Shown(place.value) == Text(place.value)
  {
    hide At, CharactersText, StringText;
    if KindOf(place.value) == StringKind {
      KeyTextAt(s, place.offset, place.value.scalar.chars);
      StringLength(place.value.scalar.chars);
    }
  }

  lemma {:induction false} StringLength(chars: seq<Character>)
    ensures |StringText(chars)| == |CharactersText(chars)| + 2
  {
  }

  /** The search on a tree whose escapes are put together in pairs. */
  lemma {:induction false} ValidValueFound(s: string, before: string, v: Json, behind: string, path: seq<Step>,
                                           place: Place)
    requires Valid(v) && Depth(v) <= JSON_MAX_DEPTH && Blank(before) && Blank(behind)
    requires s == before + Text(v) + behind
    requires ValidPath(path) && path != [] && place == Follow(v, |before|, path)
    ensures place.Nowhere? ==> Searched(s, PathText(path)) == Failure(JSONNotFound)
    ensures place.Place? ==>
              Searched(s, PathText(path)) == Value(ShownAt(place), |Shown(place.value)|, KindOf(place.value))
    ensures place.Place? ==> At(s, ShownAt(place), Shown(place.value))
  {
    hide At, DocumentAt, Valid, Depth, Text, Stands, Follow, PathText, KindOf, Shown, Blank, GetType, ValidStep,
      ValidPath, MultiSearched;
    var q := PathText(path);
    WholeDocument(before, v, behind);
    WholePath(path);
    PathFollowed(s, 0, |s|, |before|, v, q, 0, path);
    if place.Place? {
      StandsShown(s, place);
      PlaceKind(s, place);
    }
  }

  // ----- on the full grammar

  function MergedPlace(place: Place): Place {
    if place.Nowhere? then Nowhere else Place(place.offset, MergedTree(place.value))
  }

  ghost predicate Sound(place: Place) {
    place.Place? ==> Rfc(place.value) && PairedTree(place.value)
  }

  /** Putting escapes together moves nothing. */
  lemma {:induction false} MergedMoves(list: List, at: nat, isArray: bool)
    requires RfcList(list, isArray) && PairedList(list) && list.Cons?
    ensures var m := MergedList(list);
      && m.Cons? && m.value == MergedTree(list.value) && m.rest == MergedList(list.rest)
      && ValueAt(at, m) == ValueAt(at, list) && RestAt(at, m) == RestAt(at, list) && m.key.Key? == list.key.Key?
      && (list.key.Key? ==> CharactersText(m.key.name) == CharactersText(list.key.name))
    ensures Rfc(list.value) && PairedTree(list.value) && RfcList(list.rest, isArray) && PairedList(list.rest)
  {
    hide Paired, RfcCharacters, ValidCharacters, CharactersText, Merged, Blank, Text;
    MergedIsValid(list.value);
    if list.key.Key? {
      MergedText(list.key.name);
    }
  }

  lemma {:induction false} MemberMerged(list: List, at: nat, isArray: bool, name: string)
    requires RfcList(list, isArray) && PairedList(list)
    ensures Sound(FindMember(list, at, name))
    ensures FindMember(MergedList(list), at, name) == MergedPlace(FindMember(list, at, name))
    decreases list
  {
    hide ValueAt, RestAt, MergedList, MergedTree, CharactersText, RfcList, PairedList, Rfc, PairedTree;
    if list.Cons? {
      MergedMoves(list, at, isArray);
      MemberMerged(list.rest, RestAt(at, list), isArray, name);
    } else {
      NilMerged();
    }
  }

  lemma {:induction false} ElementMerged(list: List, at: nat, isArray: bool, index: nat)
    requires RfcList(list, isArray) && PairedList(list)
    ensures Sound(FindElement(list, at, index))
    ensures FindElement(MergedList(list), at, index) == MergedPlace(FindElement(list, at, index))
    decreases list
  {
    hide ValueAt, RestAt, MergedList, MergedTree, CharactersText, RfcList, PairedList, Rfc, PairedTree;
    if list.Cons? {
      MergedMoves(list, at, isArray);
      if index > 0 {
        ElementMerged(list.rest, RestAt(at, list), isArray, index - 1);
      }
    } else {
      NilMerged();
    }
  }

  lemma {:induction false} NilMerged()
    ensures MergedList(Nil) == Nil
  {
  }

  lemma {:induction false} FindMerged(v: Json, at: nat, step: Step)
    requires Rfc(v) && PairedTree(v) && ValidStep(step)
    ensures Sound(Find(v, at, step)) && Find(MergedTree(v), at, step) == MergedPlace(Find(v, at, step))
  {
    hide MergedList, RfcList, PairedList, Sound, FindMember, FindElement, Paired, RfcCharacters;
    if v.Node? && v.isArray == step.Element? {
      match step
      case Member(name) => MemberMerged(v.list, ListStart(at, v), v.isArray, name);
      case Element(digits) => ElementMerged(v.list, ListStart(at, v), v.isArray, Decimal(digits, 0, |digits|));
    }
    SoundNowhere();
  }

  lemma {:induction false} SoundNowhere()
    ensures Sound(Nowhere)
  {
  }

  lemma {:induction false} FollowMerged(v: Json, at: nat, path: seq<Step>)
    requires Rfc(v) && PairedTree(v) && ValidPath(path)
    ensures Sound(Follow(v, at, path)) && Follow(MergedTree(v), at, path) == MergedPlace(Follow(v, at, path))
    decreases |path|
  {
    hide MergedTree, Rfc, PairedTree, Find;
    if path != [] {
      FindMerged(v, at, path[0]);
      var next := Find(v, at, path[0]);
      if next.Place? {
        FollowMerged(next.value, next.offset, path[1..]);
      }
    }
  }

  lemma {:induction false} MergedShown(place: Place)
    requires place.Place? && Sound(place)
    ensures Shown(MergedTree(place.value)) == Shown(place.value)
    ensures KindOf(MergedTree(place.value)) == KindOf(place.value)
  {
    hide Paired, RfcCharacters, ValidCharacters, CharactersText, Merged, Text;
    MergedIsValid(place.value);
    if place.value.Leaf? && place.value.scalar.Str? {
      MergedText(place.value.scalar.chars);
    }
  }

  /** On a text of RFC 8259 nested at most 32 deep whose `\u` escapes name characters, in any white space, a path of
      keys and indexes finds exactly the slice of the value the tree has there, the first one among equal keys, or
      nothing when the tree has none. */
  lemma {:induction false} SearchFindsTheValue(s: string, before: string, v: Json, behind: string, path: seq<Step>,
                                               place: Place)
    requires RfcDocument(s, before, v, behind) && Depth(v) <= 32 && Escapes(s, false)
    requires ValidPath(path) && path != [] && place == Follow(v, |before|, path)
    ensures place.Nowhere? ==> Searched(s, PathText(path)) == Failure(JSONNotFound)
    ensures place.Place? ==>
              Searched(s, PathText(path)) == Value(ShownAt(place), |Shown(place.value)|, KindOf(place.value))
    ensures place.Place? ==> At(s, ShownAt(place), Shown(place.value))
  {
    hide At, Valid, Depth, Text, Follow, PathText, KindOf, Shown, Blank, ValidStep, ValidPath, Rfc, PairedTree,
      MergedTree, Escapes, Searched, Sound;
    RfcTextAcceptedIff(s, before, v, behind);
    MergedIsValid(v);
    FollowMerged(v, |before|, path);
    ValidValueFound(s, before, MergedTree(v), behind, path, MergedPlace(place));
    if place.Place? {
      MergedShown(place);
    }
  }

  // ----- queries that are refused

  /** A query that starts with an empty key, is one key with a separator or bracket behind it and nothing more, or
      starts with a bracket that holds no index, one too large to convert, or is not closed. */
  ghost predicate StartsBadly(q: string) {
    || q == "" || q[0] == '.'
    || (q[0] == '[' && NoIndex(q))
    || (exists n :: KeyAndNoMore(q, n))
  }

  ghost predicate NoIndex(q: string)
    requires q != ""
  {
    forall digits: string :: At(q, 1, digits + [']']) && digits != "" && AllDigits(digits) ==>
      Decimal(digits, 0, |digits|) > 2147483639
  }

  /** Key characters up to the last character, which is none. */
  ghost predicate KeyAndNoMore(q: string, n: nat) {
    && 0 < n == |q| - 1 && !IsPartCharacter(q[n])
    && forall k :: 0 <= k < n ==> IsPartCharacter(q[k])
  }

  /** Such a query is a bad parameter in every buffer, and so is an empty buffer. */
  lemma {:induction false} BadQueryRefused(s: string, q: string)
    requires s == "" || StartsBadly(q)
    ensures Searched(s, q) == Failure(JSONBadParameter)
  {
    if s != "" && q != "" {
      if n :| KeyAndNoMore(q, n) {
        KeyRun(q, 0, n);
      } else if q[0] == '[' {
        NoStep(q);
      }
    }
  }

  lemma {:induction false} KeyRun(q: string, i: nat, n: nat)
    requires i <= n < |q| && !IsPartCharacter(q[n]) && forall k :: i <= k < n ==> IsPartCharacter(q[k])
    ensures PartEnd(q, i) == n
    decreases n - i
  {
    if i < n {
      KeyRun(q, i + 1, n);
    }
  }

  lemma {:induction false} NoStep(q: string)
    requires q != "" && q[0] == '[' && NoIndex(q)
    ensures StepEnd(q, 0) == Absent
  {
    hide DigitsEnd, Decimal, At;
    var d := DigitsEnd(q, 1);
    if 1 < d < |q| && q[d] == ']' {
      var digits := q[1..d];
      DigitsHere(q, d);
      DecimalMoves(q, 1, digits, |digits|);
    }
  }

  lemma {:induction false} DigitsHere(q: string, d: nat)
    requires 1 < d < |q| && d == DigitsEnd(q, 1) && q[d] == ']'
    ensures var digits := q[1..d]; At(q, 1, digits) && At(q, 1, digits + [']']) && AllDigits(digits)
  {
    hide DigitsEnd;
    var digits := q[1..d];
    assert forall k :: 0 <= k < |digits| ==> digits[k] == q[k + 1];
  }

  lemma {:induction false} PlaceKind(s: string, place: Place)
    requires place.Place? && Stands(s, place)
    ensures place.offset < |s| && GetType(s[place.offset]) == KindOf(place.value)
  {
    hide At, Text, Valid, GetType, KindOf;
    KindRead(s, place.offset, place.value);
  }

  lemma {:induction false} WholeDocument(before: string, v: Json, behind: string)
    requires Valid(v) && Depth(v) <= JSON_MAX_DEPTH && Blank(before) && Blank(behind)
    ensures var s := before + Text(v) + behind;
      s != "" && s[0..|s|] == s && DocumentAt(s, |before|, v)
  {
    hide At, Valid, Loose, Depth, Text, Blank, SpaceEnd, Delimited;
    ValidIsLoose(v);
    var s := before + Text(v) + behind;
    DocumentScanned(before, v, behind);
    assert s[..|before|] == before;
  }

  lemma {:induction false} WholePath(path: seq<Step>)
    requires ValidPath(path) && path != []
    ensures PathText(path) != "" && PathAt(PathText(path), 0, path)
  {
    hide PathText, ValidStep;
    StepFirst(path);
    assert PathText(path)[0..|PathText(path)|] == PathText(path);
  }
}
