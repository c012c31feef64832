/** What a successful skipCollection says about the brackets of the slice it consumed. */
module JsonBrackets {

  import opened JsonScanner
  import opened JsonValidator

  // ----- the definition

  datatype Nesting = Nested(open: string) | Broken

  /** The brackets left open by a word of brackets, starting with some open already. */
  function Unclosed(open: string, word: string): Nesting
    decreases |word|
  {
    if word == "" then Nested(open)
    else if IsOpen(word[0]) then Unclosed(open + [word[0]], word[1..])
    else if |open| > 0 && IsMatching(Top(open), word[0]) then Unclosed(Pop(open), word[1..])
    else Broken
  }

  /** A balanced word that first closes at its end and never nests deeper than the limit. */
  ghost predicate Balanced(open: string, word: string) {
    && Unclosed(open, word) == Nested("")
    && forall n :: 0 < n < |word| ==>
         Unclosed(open, word[..n]).Nested? && 1 <= |Unclosed(open, word[..n]).open| <= JSON_MAX_DEPTH
  }

  /** The brackets of s between i and j outside string literals. */
  function Word(s: string, i: nat, j: nat): string
    decreases |s| - i
  {
    if i >= j || i >= |s| then ""
    else if StringEnd(s, i).Past? then Word(s, StringEnd(s, i).index, j)
    else if IsOpen(s[i]) || IsClose(s[i]) then [s[i]] + Word(s, i + 1, j)
    else Word(s, i + 1, j)
  }

  // ----- tokens hold no brackets

  predicate IsPlain(c: char) {
    c != '"' && !IsOpen(c) && !IsClose(c)
  }

  lemma {:induction false} PlainRun(s: string, i: nat, k: nat, j: nat)
    requires i <= k <= j && k <= |s| && forall n :: i <= n < k ==> IsPlain(s[n])
    ensures Word(s, i, j) == Word(s, k, j)
    decreases k - i
  {
    if i < k {
      PlainRun(s, i + 1, k, j);
    }
  }

  lemma {:induction false} SpaceQuiet(s: string, i: nat, j: nat)
    requires SpaceEnd(s, i) <= j
    ensures Word(s, i, j) == Word(s, SpaceEnd(s, i), j)
    decreases |s| - i
  {
    if i < |s| && IsSpace(s[i]) {
      SpaceQuiet(s, i + 1, j);
    }
  }

  lemma {:induction false} PlainStep(s: string, i: nat, j: nat)
    requires i < |s| && i < j && IsPlain(s[i])
    ensures Word(s, i, j) == Word(s, i + 1, j)
  {
  }

  lemma {:induction false} DigitsQuiet(s: string, i: nat, j: nat)
    requires DigitsEnd(s, i) <= j
    ensures Word(s, i, j) == Word(s, DigitsEnd(s, i), j)
  {
    hide DigitsEnd, Word;
    if DigitsEnd(s, i) > i {
      PlainRun(s, i, DigitsEnd(s, i), j);
    }
  }

  lemma {:induction false} LiteralQuiet(s: string, i: nat, j: nat)
    requires LiteralEnd(s, i).Past? && LiteralEnd(s, i).index <= j
    ensures Word(s, i, j) == Word(s, LiteralEnd(s, i).index, j)
  {
    hide Word;
    var k := LiteralEnd(s, i).index;
    var t := if At(s, i, TRUE) then TRUE else if At(s, i, FALSE) then FALSE else NULL;
    forall n | i <= n < k ensures IsPlain(s[n]) {
      assert s[i + (n - i)] == t[n - i];
    }
    PlainRun(s, i, k, j);
  }

  lemma {:induction false} WholeQuiet(s: string, i: nat, j: nat)
    requires IntegerEnd(s, i).Past? && IntegerEnd(s, i).index <= j
    ensures Word(s, i, j) == Word(s, IntegerEnd(s, i).index, j)
  {
    hide Word;
    if s[i] == '0' {
      PlainStep(s, i, j);
    } else {
      DigitsQuiet(s, i, j);
    }
  }

  lemma {:induction false} DecimalsQuiet(s: string, i: nat, j: nat)
    requires DecimalsEnd(s, i) <= j
    ensures Word(s, i, j) == Word(s, DecimalsEnd(s, i), j)
  {
    hide Word, DigitsEnd;
    if DecimalsEnd(s, i) > i {
      PlainStep(s, i, j);
      DigitsQuiet(s, i + 1, j);
    }
  }

  lemma {:induction false} ExponentQuiet(s: string, i: nat, j: nat)
    requires ExponentEnd(s, i) <= j
    ensures Word(s, i, j) == Word(s, ExponentEnd(s, i), j)
  {
    hide Word, DigitsEnd;
    if ExponentEnd(s, i) > i {
      var d := ExponentDigits(s, i);
      PlainStep(s, i, j);
      if d == i + 2 {
        PlainStep(s, i + 1, j);
      }
      DigitsQuiet(s, d, j);
    }
  }

  lemma {:induction false} NumberQuiet(s: string, i: nat, j: nat)
    requires NumberEnd(s, i).Past? && NumberEnd(s, i).index <= j
    ensures Word(s, i, j) == Word(s, NumberEnd(s, i).index, j)
  {
    hide Word, IntegerEnd, DecimalsEnd, ExponentEnd;
    if SignEnd(s, i) > i {
      PlainStep(s, i, j);
    }
    var w := IntegerEnd(s, SignEnd(s, i)).index;
    WholeQuiet(s, SignEnd(s, i), j);
    DecimalsQuiet(s, w, j);
    ExponentQuiet(s, DecimalsEnd(s, w), j);
  }

  lemma {:induction false} ScalarQuiet(s: string, i: nat, j: nat)
    requires ScalarEnd(s, i).Past? && ScalarEnd(s, i).index <= j
    ensures Word(s, i, j) == Word(s, ScalarEnd(s, i).index, j)
  {
    hide LiteralEnd, NumberEnd;
    if StringEnd(s, i).Past? {
    } else if LiteralEnd(s, i).Past? {
      LiteralQuiet(s, i, j);
    } else {
      NumberQuiet(s, i, j);
    }
  }

  lemma {:induction false} SeparatorQuiet(s: string, i: nat, j: nat)
    requires SeparatorEnd(s, i) <= j
    ensures Word(s, i, j) == Word(s, SeparatorEnd(s, i), j)
  {
    hide Word;
    SpaceQuiet(s, i, j);
    if CommaFollows(s, i) {
      PlainStep(s, SpaceEnd(s, i), j);
      SpaceQuiet(s, SpaceEnd(s, i) + 1, j);
    }
  }

  lemma {:induction false} ArrayQuiet(s: string, i: nat, j: nat)
    requires ArrayScalarsEnd(s, i) <= j
    ensures Word(s, i, j) == Word(s, ArrayScalarsEnd(s, i), j)
    decreases |s| - i
  {
    hide Word, ScalarEnd, CommaFollows, SeparatorEnd;
    if i < |s| && ScalarEnd(s, i).Past? {
      var k := ScalarEnd(s, i).index;
      ScalarQuiet(s, i, j);
      SeparatorQuiet(s, k, j);
      if CommaFollows(s, k) {
        ArrayQuiet(s, SeparatorEnd(s, k), j);
      }
    }
  }

  lemma {:induction false} ColonQuiet(s: string, i: nat, j: nat)
    requires ColonEnd(s, i).Past? && ColonEnd(s, i).index <= j && ColonEnd(s, i).index <= |s|
    ensures Word(s, i, j) == Word(s, ColonEnd(s, i).index, j)
  {
    hide StringEnd, SpaceEnd;
    var k := SpaceEnd(s, StringEnd(s, i).index);
    SpaceQuiet(s, StringEnd(s, i).index, j);
    PlainStep(s, k, j);
    SpaceQuiet(s, k + 1, j);
  }

  lemma {:induction false} ObjectQuiet(s: string, i: nat, j: nat)
    requires ObjectScalarsEnd(s, i) <= j
    ensures Word(s, i, j) == Word(s, ObjectScalarsEnd(s, i), j)
    decreases |s| - i
  {
    hide Word, ColonEnd, ScalarEnd, CommaFollows, SeparatorEnd;
    if i < |s| && ColonEnd(s, i).Past? {
      var v := ColonEnd(s, i).index;
      if v < |s| && IsOpen(s[v]) {
        ColonQuiet(s, i, j);
      } else if ScalarEnd(s, v).Past? {
        var k := ScalarEnd(s, v).index;
        ColonQuiet(s, i, j);
        ScalarQuiet(s, v, j);
        SeparatorQuiet(s, k, j);
        if CommaFollows(s, k) {
          ObjectQuiet(s, SeparatorEnd(s, k), j);
        }
      }
    }
  }

  lemma {:induction false} ScalarsQuiet(s: string, i: nat, mode: char, j: nat)
    requires ScalarsEnd(s, i, mode) <= j
    ensures Word(s, i, j) == Word(s, ScalarsEnd(s, i, mode), j)
  {
    hide Word, ArrayScalarsEnd, ObjectScalarsEnd;
    SpaceQuiet(s, i, j);
    if mode == '[' {
      ArrayQuiet(s, SpaceEnd(s, i), j);
    } else {
      ObjectQuiet(s, SpaceEnd(s, i), j);
    }
  }

  lemma {:induction false} ResumeQuiet(s: string, i: nat, mode: char, j: nat)
    requires Resume(s, i, mode) <= j
    ensures Word(s, i, j) == Word(s, Resume(s, i, mode), j)
  {
    hide Word, SeparatorEnd, CommaFollows, ScalarsEnd;
    SeparatorQuiet(s, i, j);
    if CommaFollows(s, i) {
      ScalarsQuiet(s, SeparatorEnd(s, i), mode, j);
    }
  }

  // ----- the theorem

  /** The brackets open after one more bracket. */
  function Push(open: string, c: char): string
    requires IsOpen(c) || |open| > 0
  {
    if IsOpen(c) then open + [c] else Pop(open)
  }

  lemma {:induction false} PrependBracket(open: string, c: char, word: string)
    requires IsOpen(c) || (|open| > 0 && IsMatching(Top(open), c))
    requires 1 <= |Push(open, c)| <= JSON_MAX_DEPTH
    requires Balanced(Push(open, c), word)
    ensures Balanced(open, [c] + word)
  {
    var longer := [c] + word;
    assert longer[1..] == word;
    forall n | 0 < n < |longer|
      ensures Unclosed(open, longer[..n]).Nested? && 1 <= |Unclosed(open, longer[..n]).open| <= JSON_MAX_DEPTH
    {
      assert longer[..n][1..] == word[..n - 1];
      if n == 1 {
        assert word[..0] == "";
      }
    }
  }

  lemma {:induction false} BracketFirst(s: string, i: nat, j: nat)
    requires i < |s| && i < j && (IsOpen(s[i]) || IsClose(s[i]))
    ensures Word(s, i, j) == [s[i]] + Word(s, i + 1, j)
  {
  }

  lemma {:induction false} LastBracket(s: string, i: nat, open: string)
    requires i < |s| && |open| == 1 && IsClose(s[i]) && IsMatching(Top(open), s[i])
    ensures Word(s, i, i + 1) == [s[i]] && Balanced(open, [s[i]])
  {
    assert [s[i]][1..] == "" && Pop(open) == "";
  }

  lemma {:induction false} CollectedIsBalanced(s: string, i: nat, open: string)
    requires |open| <= JSON_MAX_DEPTH && Collect(s, i, open).Success?
    ensures Balanced(open, Word(s, i, Collect(s, i, open).index))
    decreases |s| - i
  {
    hide Word, Balanced, ScalarsEnd, Resume;
    var j, c := Collect(s, i, open).index, s[i];
    BracketFirst(s, i, j);
    if IsOpen(c) {
      CollectedIsBalanced(s, ScalarsEnd(s, i + 1, c), open + [c]);
      ScalarsQuiet(s, i + 1, c, j);
      PrependBracket(open, c, Word(s, i + 1, j));
    } else if |open| == 1 {
      LastBracket(s, i, open);
    } else {
      var next := Resume(s, i + 1, Top(Pop(open)));
      CollectedIsBalanced(s, next, Pop(open));
      ResumeQuiet(s, i + 1, Top(Pop(open)), j);
      PrependBracket(open, c, Word(s, i + 1, j));
    }
  }

  /** Whenever skipCollection succeeds, the brackets it consumed, outside strings, are balanced, first close at
      the index it returns, and never nest beyond the limit. */
  lemma {:induction false} SkippedCollectionIsBalanced(s: string, start: nat)
    requires Collect(s, start, "").Success?
    ensures start < Collect(s, start, "").index <= |s|
    ensures Balanced("", Word(s, start, Collect(s, start, "").index))
  {
    CollectedIsBalanced(s, start, "");
  }
}
