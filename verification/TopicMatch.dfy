/** Topic filter matching of core_mqtt.c against the level-by-level definition of section 4.7 of
    MQTT 3.1.1. */
module TopicMatch {

  // ----- the definition

  /** A topic split at its separators; there is always at least one level. */
  function Levels(topic: string): (levels: seq<string>)
    ensures levels != []
  {
    if topic == "" then [""]
    else if topic[0] == '/' then [""] + Levels(topic[1..])
    else var rest := Levels(topic[1..]); [[topic[0]] + rest[0]] + rest[1..]
  }

  /** `+` stands for one level, `#` for any number of remaining levels, none included. */
  predicate MatchLevels(name: seq<string>, filter: seq<string>) {
    if filter == ["#"] then true
    else if filter == [] || name == [] then filter == [] && name == []
    else (filter[0] == "+" || filter[0] == name[0]) && MatchLevels(name[1..], filter[1..])
  }

  predicate StartsWithWildcard(filter: string) {
    filter != "" && (filter[0] == '+' || filter[0] == '#')
  }

  /** Names starting with `$` are out of reach of a leading wildcard. */
  predicate TopicMatches(name: string, filter: string)
    requires name != ""
  {
    !(name[0] == '$' && StartsWithWildcard(filter)) && MatchLevels(Levels(name), Levels(filter))
  }

  predicate WildcardFree(s: string) {
    '+' !in s && '#' !in s
  }

  /** A wildcard takes a whole level and `#` only the last one. */
  predicate WellFormed(levels: seq<string>) {
    levels != [] ==>
      && (WildcardFree(levels[0]) || levels[0] == "+" || levels == ["#"])
      && WellFormed(levels[1..])
  }

  // ----- what the code computes, on the rest of the name and of the filter

  function LevelEnd(s: string): (n: nat)
    ensures n <= |s| && (n < |s| ==> s[n] == '/')
    ensures forall i :: 0 <= i < n ==> s[i] != '/'
  {
    if s == "" || s[0] == '/' then 0 else 1 + LevelEnd(s[1..])
  }

  lemma {:induction false} LevelEndIs(s: string, n: nat)
    requires n <= |s| && (n < |s| ==> s[n] == '/')
    requires forall i :: 0 <= i < n ==> s[i] != '/'
    ensures LevelEnd(s) == n
  {
    if n > 0 { LevelEndIs(s[1..], n - 1); }
  }

  /** The two endings that match although filter characters remain. */
  predicate EndsInWildcard(filter: string) {
    || (|filter| == 3 && filter[1] == '/' && filter[2] == '#')
    || (|filter| == 2 && filter[0] == '/' && (filter[1] == '+' || filter[1] == '#'))
  }

  /** The two-index loop; `start` says that a filter level starts here. */
  predicate Scan(name: string, filter: string, start: bool)
    decreases |name|
  {
    if name == "" || filter == "" then name == "" && filter == ""
    else if name[0] == filter[0] then
      (|name| == 1 && EndsInWildcard(filter)) || Scan(name[1..], filter[1..], filter[0] == '/')
    else if filter[0] == '+' && start then
      var k := LevelEnd(name);
      if k == |name| then filter == "+"
      else |filter| > 1 && filter[1] == '/' && Scan(name[k + 1..], filter[2..], true)
    else filter == "#" && start
  }

  /** strncmp over equally long texts: equal up to the end or to a NUL both have in the same place. */
  predicate StrnEqual(a: string, b: string)
    requires |a| == |b|
  {
    a == "" || (a[0] == b[0] && (a[0] == '\0' || StrnEqual(a[1..], b[1..])))
  }

  /** MQTT_MatchTopic: the same text as far as strncmp looks, or a scan unless the `$` rule forbids it. */
  predicate CodeMatches(name: string, filter: string)
    requires name != "" && filter != ""
  {
    (|name| == |filter| && StrnEqual(name, filter))
    || (!(name[0] == '$' && StartsWithWildcard(filter)) && Scan(name, filter, true))
  }

  // ----- the code

  type Length = n: int | 0 <= n < 0x1_0000

  method MatchEndWildcardsSpecialCases(filter: string, filterIndex: Length) returns (matchFound: bool)
    requires filterIndex < |filter| < 0x1_0000
    ensures matchFound <==> EndsInWildcard(filter[filterIndex..])
  {
    matchFound := false;
    if |filter| >= 3 && filterIndex == |filter| - 3
       && filter[filterIndex + 1] == '/' && filter[filterIndex + 2] == '#' {
      matchFound := true;
    }
    if filterIndex == |filter| - 2 && filter[filterIndex] == '/' {
      matchFound := filter[filterIndex + 1] == '+' || filter[filterIndex + 1] == '#';
    }
  }

  /** What is left of the scan after one step that did not stop it. */
  predicate Remaining(name: string, filter: string, nameIndex: int, filterIndex: int)
    requires 0 <= nameIndex <= |name| && 0 <= filterIndex <= |filter|
  {
    Scan(name[nameIndex..], filter[filterIndex..], filterIndex == 0 || filter[filterIndex - 1] == '/')
  }

  method MatchWildcards(name: string, filter: string, nameIndex: Length, filterIndex: Length)
    returns (stop: bool, isMatch: bool, newNameIndex: Length, newFilterIndex: Length)
    requires nameIndex < |name| < 0x1_0000 && filterIndex < |filter| < 0x1_0000
    requires name[nameIndex] != filter[filterIndex]
    ensures nameIndex <= newNameIndex < |name| && filterIndex <= newFilterIndex < |filter|
    ensures stop ==> isMatch == Remaining(name, filter, nameIndex, filterIndex)
    ensures !stop ==> !isMatch && Remaining(name, filter, nameIndex, filterIndex)
                                  == Remaining(name, filter, newNameIndex + 1, newFilterIndex + 1)
  {
    stop, isMatch, newNameIndex, newFilterIndex := false, false, nameIndex, filterIndex;
    ghost var n, f := name[nameIndex..], filter[filterIndex..];
    var locationIsValid := filterIndex == 0 || filter[filterIndex - 1] == '/';
    if filter[filterIndex] == '+' && locationIsValid {
      var nextLevelInName, nextLevelInFilter := false, false;
      var i := nameIndex as int;
      while i < |name|
        invariant nameIndex <= i <= |name|
        invariant forall k :: nameIndex <= k < i ==> name[k] != '/'
      {
        if name[i] == '/' {
          nextLevelInName := true;
          break;
        }
        i := i + 1;
      }
      LevelEndIs(n, i - nameIndex);
      if filterIndex < |filter| - 1 && filter[filterIndex + 1] == '/' {
        nextLevelInFilter := true;
      }
      if nextLevelInName && !nextLevelInFilter {
        newNameIndex := i;
        stop := true;
      } else if nextLevelInName {
        newNameIndex := i;
        newFilterIndex := filterIndex + 1;
        assert name[i + 1..] == n[i - nameIndex + 1..] && filter[filterIndex + 2..] == f[2..];
      } else {
        newNameIndex := i - 1;
        assert name[i..] == "" && filter[filterIndex + 1..] == f[1..];
      }
    } else if filter[filterIndex] == '#' && filterIndex == |filter| - 1 && locationIsValid {
      isMatch := true;
      stop := true;
    } else {
      stop := true;
    }
  }

  method MatchTopicFilter(name: string, filter: string) returns (matchFound: bool)
    requires 0 < |name| < 0x1_0000 && 0 < |filter| < 0x1_0000
    ensures matchFound == Scan(name, filter, true)
  {
    matchFound := false;
    var stop := false;
    var nameIndex: int, filterIndex: int := 0, 0;
    assert name[0..] == name && filter[0..] == filter;
    while nameIndex < |name| && filterIndex < |filter|
      invariant nameIndex <= |name| && filterIndex <= |filter|
      invariant 0 <= nameIndex && 0 <= filterIndex
      invariant !matchFound && !stop && Remaining(name, filter, nameIndex, filterIndex) == Scan(name, filter, true)
    {
      if name[nameIndex] == filter[filterIndex] {
        assert name[nameIndex..][1..] == name[nameIndex + 1..];
        assert filter[filterIndex..][1..] == filter[filterIndex + 1..];
        if nameIndex == |name| - 1 {
          matchFound := MatchEndWildcardsSpecialCases(filter, filterIndex);
          assert |name[nameIndex..]| == 1;
        }
      } else {
        stop, matchFound, nameIndex, filterIndex := MatchWildcards(name, filter, nameIndex, filterIndex);
      }
      if matchFound || stop {
        assert matchFound == Scan(name, filter, true);
        break;
      }
      nameIndex := nameIndex + 1;
      filterIndex := filterIndex + 1;
    }
    if !matchFound {
      matchFound := nameIndex == |name| && filterIndex == |filter|;
    }
  }

  datatype MatchResult = BadParameter | Result(isMatch: bool)

  method MatchTopic(name: string, filter: string) returns (r: MatchResult)
    requires |name| < 0x1_0000 && |filter| < 0x1_0000
    ensures r.BadParameter? <==> name == "" || filter == ""
    ensures r.Result? ==> r.isMatch == CodeMatches(name, filter)
  {
    if name == "" || filter == "" {
      return BadParameter;
    }
    var matchStatus := false;
    if |name| == |filter| {
      matchStatus := StrnEqual(name, filter);
    }
    if !matchStatus {
      var startsWithWildcard := filter[0] == '+' || filter[0] == '#';
      if !(name[0] == '$' && startsWithWildcard) {
        matchStatus := MatchTopicFilter(name, filter);
      }
    }
    r := Result(matchStatus);
  }

  // ----- the code against the definition

  /** The filters on which the code falls short: their last levels are `+/+`, `+/#` or `+//#`. */
  predicate BlindTail(levels: seq<string>) {
    || levels == ["+", "+"]
    || levels == ["+", "#"]
    || levels == ["+", "", "#"]
    || (levels != [] && BlindTail(levels[1..]))
  }

  /** The rest of a well-formed filter, from the start or from the middle of a level. */
  predicate WellFormedRest(filter: string, start: bool) {
    WellFormed(Levels(filter)) && (!start ==> WildcardFree(Levels(filter)[0]))
  }

  lemma {:induction false} LevelsSplit(s: string)
    ensures var k := LevelEnd(s);
            Levels(s) == [s[..k]] + (if k == |s| then [] else Levels(s[k + 1..]))
  {
    if s != "" && s[0] != '/' {
      LevelsSplit(s[1..]);
      var k := LevelEnd(s);
      assert s[..k] == [s[0]] + s[1..][..k - 1];
      if k < |s| { assert s[1..][k..] == s[k + 1..]; }
    }
  }

  lemma IsHash(filter: string)
    ensures MatchLevels([], Levels(filter)) <==> filter == "#"
  {
    LevelsSplit(filter);
    if Levels(filter) == ["#"] {
      assert LevelEnd(filter) == |filter| && filter[..|filter|] == filter;
    }
    if filter == "#" {
      LevelEndIs(filter, 1);
      assert filter[..1] == filter;
    }
  }

  /** The filters that match a name consisting of one empty level. */
  predicate MatchesEmpty(filter: string) {
    filter == "" || filter == "+" || filter == "#" || filter == "/#" || filter == "+/#"
  }

  lemma {:induction false} MatchEmptyLevel(filter: string)
    ensures MatchLevels([""], Levels(filter)) <==> MatchesEmpty(filter)
  {
    LevelsSplit(filter);
    var k := LevelEnd(filter);
    hide Levels, LevelEnd;
    if k == |filter| {
      assert filter[..k] == filter;
      assert "/#"[0] == '/' && "+/#"[1] == '/';
      assert MatchLevels([""], [filter]) <==> filter == "" || filter == "+" || filter == "#";
    } else {
      IsHash(filter[k + 1..]);
      MatchEmptySplit(filter, k);
      assert Levels(filter)[1..] == Levels(filter[k + 1..]);
    }
  }

  lemma {:induction false} MatchEmptySplit(filter: string, k: nat)
    requires k < |filter| && filter[k] == '/' && forall i :: 0 <= i < k ==> filter[i] != '/'
    ensures MatchesEmpty(filter) <==> filter[k + 1..] == "#" && (filter[..k] == "" || filter[..k] == "+")
  {
    if filter[k + 1..] == "#" {
      assert |filter| == k + 2 && filter[k + 1] == "#"[0];
      if k == 1 && filter[0] == '+' {
        assert filter == "+/#" && filter[..k] == "+";
      }
      if k == 0 {
        assert filter == "/#";
      }
    }
    if filter == "/#" { assert k == 0 && filter[1..] == "#"; }
    if filter == "+/#" { assert k == 1 && filter[2..] == "#"; }
  }

  // ----- one step of the scan, on the levels

  /** Inside a level, an equal character keeps the verdict. */
  lemma {:induction false} LiteralStep(name: string, filter: string, start: bool)
    requires name != "" && filter != "" && name[0] == filter[0]
    requires WildcardFree(name) && WellFormedRest(filter, start)
    ensures WellFormedRest(filter[1..], filter[0] == '/') && WildcardFree(name[1..])
    ensures MatchLevels(Levels(name), Levels(filter)) == MatchLevels(Levels(name[1..]), Levels(filter[1..]))
    ensures BlindTail(Levels(filter[1..])) == BlindTail(Levels(filter))
  {
    var n, f := Levels(name), Levels(filter);
    var n', f' := Levels(name[1..]), Levels(filter[1..]);
    if filter[0] == '/' {
      assert n[1..] == n' && f[1..] == f';
    } else {
      assert f[0][0] == filter[0] && n[0][0] == name[0];
      assert n[1..] == n'[1..] && f[1..] == f'[1..];
      assert WildcardFree(f[0]) by { FirstLevelPlain(filter, start); }
      assert f'[0] == f[0][1..] && n'[0] == n[0][1..];
      assert (f[0] == n[0]) == (f'[0] == n'[0]) by {
        assert f[0] == [f[0][0]] + f[0][1..] && n[0] == [n[0][0]] + n[0][1..];
      }
    }
  }

  /** A level that starts with a plain character has no wildcard. */
  lemma {:induction false} FirstLevelPlain(filter: string, start: bool)
    requires WellFormedRest(filter, start) && filter != "" && filter[0] != '+' && filter[0] != '#'
    ensures WildcardFree(Levels(filter)[0]) && Levels(filter)[0] != "+"
  {
  }

  /** A `+` level is skipped together with the name level it stands for. */
  lemma {:induction false} PlusStep(name: string, filter: string)
    requires name != "" && filter != "" && filter[0] == '+'
    requires WellFormedRest(filter, true)
    ensures var k := LevelEnd(name);
            if k == |name| || |filter| == 1 then
              MatchLevels(Levels(name), Levels(filter)) <==> k == |name| && (filter == "+" || filter == "+/#")
            else
              && filter[1] == '/' && WellFormedRest(filter[2..], true)
              && MatchLevels(Levels(name), Levels(filter)) == MatchLevels(Levels(name[k + 1..]), Levels(filter[2..]))
  {
    LevelsSplit(name);
    PlusLevel(filter);
    FirstLevelGone(Levels(name), Levels(filter));
    hide Levels, LevelEnd, MatchLevels;
    if |filter| > 1 {
      IsHash(filter[2..]);
      assert Levels(filter)[1..] == Levels(filter[2..]);
      PlusTexts(filter);
    } else {
      assert filter == "+" && |"+/#"| == 3;
      NoLevelsLeft(Levels(name)[1..]);
    }
  }

  lemma {:induction false} FirstLevelGone(name: seq<string>, filter: seq<string>)
    requires name != [] && filter != [] && filter[0] == "+"
    ensures MatchLevels(name, filter) == MatchLevels(name[1..], filter[1..])
  {
  }

  lemma {:induction false} NoLevelsLeft(name: seq<string>)
    ensures MatchLevels(name, []) <==> name == []
  {
  }

  lemma {:induction false} PlusLevel(filter: string)
    requires filter != "" && filter[0] == '+' && WellFormedRest(filter, true)
    ensures if |filter| == 1 then Levels(filter) == ["+"]
            else filter[1] == '/' && Levels(filter) == ["+"] + Levels(filter[2..])
  {
    LevelsSplit(filter);
    var k := LevelEnd(filter);
    assert filter[..k][0] == '+';
    assert Levels(filter)[0] == "+";
    assert k == 1;
  }

  /** Different characters, no wildcard at work: no match. */
  lemma {:induction false} MismatchStep(name: string, filter: string, start: bool)
    requires name != "" && filter != "" && name[0] != filter[0] && filter[0] != '+' && filter[0] != '#'
    requires WildcardFree(name) && WellFormedRest(filter, start)
    ensures !MatchLevels(Levels(name), Levels(filter))
  {
    FirstLevelPlain(filter, start);
    LevelsSplit(name);
    LevelsSplit(filter);
    var j, k := LevelEnd(name), LevelEnd(filter);
    assert name[..j] != filter[..k] by {
      if j > 0 && k > 0 { assert name[..j][0] != filter[..k][0]; }
    }
  }

  lemma {:induction false} HashFilter(filter: string, start: bool)
    requires filter != "" && filter[0] == '#' && WellFormedRest(filter, start)
    ensures filter == "#" && start
  {
    LevelsSplit(filter);
    var k := LevelEnd(filter);
    assert filter[..k][0] == '#';
    assert Levels(filter) == ["#"];
    assert k == |filter| && filter[..k] == filter;
  }

  lemma {:induction false} PlusStarts(filter: string, start: bool)
    requires filter != "" && filter[0] == '+' && WellFormedRest(filter, start)
    ensures start
  {
    LevelsSplit(filter);
    assert filter[..LevelEnd(filter)][0] == '+';
  }

  // ----- the theorems

  /** The scan never matches what the definition does not, and only misses filters with a blind tail. */
  lemma {:induction false} ScanAgainstLevels(name: string, filter: string, start: bool)
    requires name != "" && WildcardFree(name) && WellFormedRest(filter, start)
    ensures Scan(name, filter, start) ==> MatchLevels(Levels(name), Levels(filter))
    ensures !BlindTail(Levels(filter)) ==> Scan(name, filter, start) == MatchLevels(Levels(name), Levels(filter))
    decreases |name|
  {
    hide Levels, MatchLevels, BlindTail, WellFormedRest, MatchesEmpty, WildcardFree;
    if filter == "" {
      EmptyFilter(name);
    } else if name[0] == filter[0] {
      LiteralStep(name, filter, start);
      if |name| == 1 {
        LastCharacter(name, filter, start);
      } else {
        ScanAgainstLevels(name[1..], filter[1..], filter[0] == '/');
      }
    } else if filter[0] == '+' {
      PlusStarts(filter, start);
      PlusStep(name, filter);
      PlusTail(filter);
      var k := LevelEnd(name);
      if k < |name| && |filter| > 1 {
        if k + 1 < |name| {
          SuffixWildcardFree(name, k + 1);
          ScanAgainstLevels(name[k + 1..], filter[2..], true);
        } else {
          assert name[k + 1..] == "";
          EmptyRest(filter[2..]);
          assert Scan(name, filter, start) == Scan(name[k + 1..], filter[2..], true);
          assert Scan(name, filter, start) == (filter[2..] == "");
        }
      }
    } else if filter[0] == '#' {
      HashFilter(filter, start);
      EverythingMatchesHash(name);
    } else {
      MismatchStep(name, filter, start);
    }
  }

  lemma {:induction false} ShortLevels(filter: string)
    requires MatchesEmpty(filter)
    ensures Levels(filter) == if filter == "/#" then ["", "#"] else if filter == "+/#" then ["+", "#"] else [filter]
  {
    LevelsSplit("#");
    LevelEndIs("#", 1);
    assert "#"[..1] == "#";
    LevelsSplit(filter);
    if filter == "/#" {
      assert filter[1..] == "#" && filter[..0] == "";
    } else if filter == "+/#" {
      LevelEndIs(filter, 1);
      assert filter[2..] == "#" && filter[..1] == "+";
    } else {
      LevelEndIs(filter, |filter|);
      assert filter[..|filter|] == filter;
    }
  }

  /** Where a filter starting with `+` can fail to match: exactly on a blind tail. */
  lemma {:induction false} PlusTail(filter: string)
    requires filter != "" && filter[0] == '+' && WellFormedRest(filter, true)
    ensures filter == "+/#" ==> BlindTail(Levels(filter))
    ensures |filter| > 1 ==> (BlindTail(Levels(filter[2..])) ==> BlindTail(Levels(filter)))
    ensures |filter| > 1 && MatchesEmpty(filter[2..]) && filter[2..] != "" ==> BlindTail(Levels(filter))
  {
    PlusLevel(filter);
    if filter == "+/#" { ShortLevels(filter); }
    if |filter| > 1 {
      assert Levels(filter)[1..] == Levels(filter[2..]);
      if MatchesEmpty(filter[2..]) { ShortLevels(filter[2..]); }
    }
  }

  /** The last character of the name, equal to the filter's. */
  lemma {:induction false} LastCharacter(name: string, filter: string, start: bool)
    requires |name| == 1 && filter != "" && name[0] == filter[0]
    requires WildcardFree(name) && WellFormedRest(filter, start)
    ensures Scan(name, filter, start) ==> MatchLevels(Levels(name), Levels(filter))
    ensures !BlindTail(Levels(filter)) ==> Scan(name, filter, start) == MatchLevels(Levels(name), Levels(filter))
  {
    var rest := filter[1..];
    LiteralStep(name, filter, start);
    assert name[1..] == "";
    assert Scan(name, filter, start) <==> EndsInWildcard(filter) || rest == "";
    EndsInWildcardRest(filter);
    MatchEmptyLevel(rest);
    hide MatchLevels, Scan, EndsInWildcard, WildcardFree;
    if MatchesEmpty(rest) {
      PlainRest(rest, filter[0] == '/');
    }
  }

  lemma {:induction false} EndsInWildcardRest(filter: string)
    requires filter != ""
    ensures var rest := filter[1..];
            EndsInWildcard(filter) <==> rest == "/#" || (filter[0] == '/' && (rest == "+" || rest == "#"))
  {
    assert filter == [filter[0]] + filter[1..];
  }

  lemma {:induction false} PlainRest(rest: string, start: bool)
    requires MatchesEmpty(rest) && WellFormedRest(rest, start)
    ensures !start ==> rest == "" || rest == "/#"
    ensures rest == "+/#" ==> BlindTail(Levels(rest))
  {
    ShortLevels(rest);
    assert !WildcardFree("+") && !WildcardFree("#");
  }

  lemma {:induction false} EmptyFilter(name: string)
    requires name != ""
    ensures !MatchLevels(Levels(name), Levels(""))
  {
    LevelsSplit(name);
  }

  lemma {:induction false} EverythingMatchesHash(name: string)
    ensures MatchLevels(Levels(name), Levels("#"))
  {
    IsHash("#");
  }

  lemma {:induction false} SuffixWildcardFree(name: string, k: nat)
    requires WildcardFree(name) && k <= |name|
    ensures WildcardFree(name[k..])
  {
  }

  /** The name is used up after an empty last level. */
  lemma {:induction false} EmptyRest(filter: string)
    ensures MatchLevels(Levels(""), Levels(filter)) <==> MatchesEmpty(filter)
    ensures filter == "" ==> MatchesEmpty(filter)
  {
    MatchEmptyLevel(filter);
  }

  /** A NUL that is not the last character, with no wildcard in front of it: strncmp stops there. Section 4.7.3 of
      MQTT 3.1.1 allows no NUL in a filter. */
  predicate NulTrap(filter: string) {
    && filter != "" && filter[0] != '+' && filter[0] != '#'
    && if filter[0] == '\0' then |filter| > 1 else NulTrap(filter[1..])
  }

  /** Without a NUL there is no trap. */
  lemma {:induction false} NoNulNoTrap(filter: string)
    requires '\0' !in filter
    ensures !NulTrap(filter)
  {
    if filter != "" {
      assert filter[0] in filter;
      NoNulNoTrap(filter[1..]);
    }
  }

  /** Without a trap, equal for strncmp is equal. */
  lemma {:induction false} StrnEqualIsEqual(name: string, filter: string)
    requires |name| == |filter| && WildcardFree(name) && !NulTrap(filter) && StrnEqual(name, filter)
    ensures name == filter
  {
    if name != "" {
      assert name[0] in name;
      if name[0] != '\0' {
        StrnEqualIsEqual(name[1..], filter[1..]);
        assert name == [name[0]] + name[1..] && filter == [filter[0]] + filter[1..];
      }
    }
  }

  /** MQTT_MatchTopic is sound, and complete for filters without a blind tail. */
  lemma {:induction false} MatchTopicAgrees(name: string, filter: string)
    requires name != "" && filter != "" && WildcardFree(name) && WellFormed(Levels(filter)) && !NulTrap(filter)
    ensures CodeMatches(name, filter) ==> TopicMatches(name, filter)
    ensures !BlindTail(Levels(filter)) ==> CodeMatches(name, filter) == TopicMatches(name, filter)
  {
    ScanAgainstLevels(name, filter, true);
    if |name| == |filter| && StrnEqual(name, filter) {
      StrnEqualIsEqual(name, filter);
      MatchesItself(Levels(name));
    }
  }

  lemma {:induction false} MatchesItself(levels: seq<string>)
    ensures MatchLevels(levels, levels)
  {
    if levels != [] { MatchesItself(levels[1..]); }
  }

  // ----- every blind tail does lose a name

  /** A name that a filter with a blind tail should match but does not. */
  function Missed(filter: string): string
    decreases |filter|
  {
    if filter == "+/+" || filter == "+//#" then "a/"
    else if filter == "+/#" || filter == "" then "a"
    else if filter[0] == '+' && |filter| > 1 then "a/" + Missed(filter[2..])
    else [filter[0]] + Missed(filter[1..])
  }

  lemma {:induction false} MissedOnTail(filter: string)
    requires filter == "+/+" || filter == "+//#" || filter == "+/#"
    requires WellFormedRest(filter, true)
    ensures MatchLevels(Levels(Missed(filter)), Levels(filter)) && !Scan(Missed(filter), filter, true)
  {
    var name := Missed(filter);
    PlusStep(name, filter);
    LevelEndIs(name, 1);
    if filter != "+/#" {
      assert name[2..] == "" && (filter[2..] == "+" || filter[2..] == "/#");
      EmptyRest(filter[2..]);
    }
  }

  lemma {:induction false} BlindAfterPlus(filter: string)
    requires filter != "" && filter[0] == '+' && WellFormedRest(filter, true) && BlindTail(Levels(filter))
    requires filter != "+/+" && filter != "+//#" && filter != "+/#"
    ensures |filter| > 1 && filter[1] == '/' && WellFormedRest(filter[2..], true) && BlindTail(Levels(filter[2..]))
  {
    PlusLevel(filter);
    OneLevelIsNotBlind("+");
    hide Levels, BlindTail;
    var rest := filter[2..];
    BlindAfterFirst(Levels(filter), Levels(rest));
    TextOfLevels(rest);
    PlusTexts(filter);
  }

  lemma {:induction false} PlusTexts(filter: string)
    requires |filter| > 1 && filter[0] == '+' && filter[1] == '/'
    ensures filter[2..] == "+" ==> filter == "+/+"
    ensures filter[2..] == "#" <==> filter == "+/#"
    ensures filter[2..] == "/#" ==> filter == "+//#"
  {
    var rest := filter[2..];
    assert forall i :: 0 <= i < |rest| ==> filter[i + 2] == rest[i];
    assert |filter| == |rest| + 2;
    if filter == "+/#" { assert rest == "#"; }
  }

  lemma {:induction false} OneLevelIsNotBlind(level: string)
    ensures !BlindTail([level])
  {
    assert [level][1..] == [];
  }

  lemma {:induction false} BlindAfterFirst(levels: seq<string>, rest: seq<string>)
    requires levels == ["+"] + rest && BlindTail(levels)
    ensures rest == ["+"] || rest == ["#"] || rest == ["", "#"] || BlindTail(rest)
  {
    assert levels[1..] == rest;
  }

  lemma {:induction false} TextOfLevels(s: string)
    ensures Levels(s) == ["+"] ==> s == "+"
    ensures Levels(s) == ["#"] ==> s == "#"
    ensures Levels(s) == ["", "#"] ==> s == "/#"
  {
    LevelsSplit(s);
    var k := LevelEnd(s);
    hide Levels, LevelEnd;
    assert Levels(s)[0] == s[..k];
    if k == |s| {
      assert s[..k] == s && |Levels(s)| == 1;
    } else {
      assert Levels(s)[1..] == Levels(s[k + 1..]) && |Levels(s)| > 1;
      IsHash(s[k + 1..]);
      assert Levels(s) == ["", "#"] ==> Levels(s)[1..] == ["#"];
      if s[..k] == "" && s[k + 1..] == "#" {
        assert |s| == 2 && s[1] == s[k + 1..][0];
      }
    }
  }

  lemma {:induction false} MissedAfterPlus(filter: string)
    requires |filter| > 1 && filter[0] == '+' && filter[1] == '/' && WellFormedRest(filter, true)
    requires filter != "+/+" && filter != "+//#" && filter != "+/#"
    requires var m := Missed(filter[2..]);
             m != "" && WildcardFree(m) && MatchLevels(Levels(m), Levels(filter[2..])) && !Scan(m, filter[2..], true)
    ensures var name := Missed(filter);
            WildcardFree(name) && MatchLevels(Levels(name), Levels(filter)) && !Scan(name, filter, true)
  {
    var name := Missed(filter);
    assert name == "a/" + Missed(filter[2..]) && name[2..] == Missed(filter[2..]);
    PlusStep(name, filter);
    LevelEndIs(name, 1);
  }

  lemma {:induction false} MissedIsMissed(filter: string, start: bool)
    requires WellFormedRest(filter, start) && BlindTail(Levels(filter))
    ensures Missed(filter) != "" && WildcardFree(Missed(filter))
    ensures MatchLevels(Levels(Missed(filter)), Levels(filter)) && !Scan(Missed(filter), filter, start)
    decreases |filter|
  {
    if filter == "+/+" || filter == "+//#" || filter == "+/#" {
      PlusStarts(filter, start);
      MissedOnTail(filter);
    } else if filter == "" {
      OneLevelIsNotBlind("");
      assert false;
    } else if filter[0] == '+' {
      PlusStarts(filter, start);
      BlindAfterPlus(filter);
      MissedIsMissed(filter[2..], true);
      MissedAfterPlus(filter);
    } else if filter[0] == '#' {
      HashFilter(filter, start);
      ShortLevels(filter);
      OneLevelIsNotBlind(filter);
      assert false;
    } else {
      var name := Missed(filter);
      assert name[1..] == Missed(filter[1..]);
      LiteralStep([filter[0]], filter, start);
      MissedIsMissed(filter[1..], filter[0] == '/');
      assert WildcardFree(name);
      LiteralStep(name, filter, start);
    }
  }

  // ----- every trap takes a wrong name for a match

  /** A text of the same length that differs at once. */
  function Fill(text: string): (fill: string)
    requires text != ""
    ensures |fill| == |text|
  {
    [if text[0] == 'x' then 'y' else 'x'] + seq(|text| - 1, _ => 'x')
  }

  /** A name that a filter with a trap should not match but does. */
  function Trapped(filter: string): (name: string)
    requires NulTrap(filter)
    ensures |name| == |filter|
  {
    [filter[0]] + if filter[0] == '\0' then Fill(filter[1..]) else Trapped(filter[1..])
  }

  lemma {:induction false} TrappedIsWrong(filter: string, start: bool)
    requires NulTrap(filter) && WellFormedRest(filter, start)
    ensures WildcardFree(Trapped(filter)) && StrnEqual(Trapped(filter), filter)
    ensures !MatchLevels(Levels(Trapped(filter)), Levels(filter))
    decreases |filter|
  {
    hide Levels, MatchLevels, BlindTail, WellFormedRest;
    var name := Trapped(filter);
    var rest := filter[1..];
    assert name[0] == filter[0];
    LiteralStep([filter[0]], filter, start);
    if filter[0] == '\0' {
      assert name[1..] == Fill(rest);
      LiteralStep(name, filter, start);
      PlainFirst(rest);
      MismatchStep(Fill(rest), rest, false);
    } else {
      assert name[1..] == Trapped(rest);
      TrappedIsWrong(rest, filter[0] == '/');
      LiteralStep(name, filter, start);
    }
  }

  /** In the middle of a level no wildcard can stand. */
  lemma {:induction false} PlainFirst(filter: string)
    requires filter != "" && WellFormedRest(filter, false)
    ensures filter[0] != '+' && filter[0] != '#'
  {
    LevelsSplit(filter);
    assert LevelEnd(filter) > 0 ==> filter[..LevelEnd(filter)][0] == filter[0];
  }

  /** MQTT_MatchTopic decides a filter with well-placed wildcards correctly for every wildcard-free name if and only
      if the filter's last levels are not `+/+`, `+/#` or `+//#` and no NUL in it sets a trap. */
  lemma {:induction false} MatchTopicExactIff(filter: string)
    requires filter != "" && WellFormed(Levels(filter))
    ensures (forall name: string :: name != "" && WildcardFree(name) ==>
               CodeMatches(name, filter) == TopicMatches(name, filter))
            <==> !BlindTail(Levels(filter)) && !NulTrap(filter)
  {
    if NulTrap(filter) {
      TrappedIsWrong(filter, true);
      var name := Trapped(filter);
      assert CodeMatches(name, filter) && !TopicMatches(name, filter);
    } else if BlindTail(Levels(filter)) {
      MissedIsMissed(filter, true);
      var name := Missed(filter);
      MissedSafe(filter);
      assert !CodeMatches(name, filter) && TopicMatches(name, filter);
    } else {
      forall name: string | name != "" && WildcardFree(name)
        ensures CodeMatches(name, filter) == TopicMatches(name, filter)
      {
        MatchTopicAgrees(name, filter);
      }
    }
  }

  lemma {:induction false} MissedSafe(filter: string)
    requires filter != "" && WellFormed(Levels(filter)) && BlindTail(Levels(filter)) && WildcardFree(Missed(filter))
    requires Missed(filter) != "" && !NulTrap(filter)
    ensures |Missed(filter)| == |filter| ==> !StrnEqual(Missed(filter), filter)
    ensures !(Missed(filter)[0] == '$' && StartsWithWildcard(filter))
  {
    if |Missed(filter)| == |filter| && StrnEqual(Missed(filter), filter) {
      StrnEqualIsEqual(Missed(filter), filter);
      NoWildcardNoTail(filter);
    }
  }

  lemma {:induction false} NoWildcardNoTail(filter: string)
    requires WildcardFree(filter)
    ensures !BlindTail(Levels(filter))
  {
    LevelsPlain(filter);
    PlainNoTail(Levels(filter));
  }

  lemma {:induction false} LevelsPlain(s: string)
    requires WildcardFree(s)
    ensures forall i :: 0 <= i < |Levels(s)| ==> WildcardFree(Levels(s)[i])
  {
    if s != "" { LevelsPlain(s[1..]); }
  }

  lemma {:induction false} PlainNoTail(levels: seq<string>)
    requires forall i :: 0 <= i < |levels| ==> WildcardFree(levels[i])
    ensures !BlindTail(levels)
  {
    if levels != [] {
      assert '+' in "+" && WildcardFree(levels[0]);
      PlainNoTail(levels[1..]);
    }
  }
}
