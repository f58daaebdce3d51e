/**
 * The pieces of Python's `re` that the checker's three patterns use, written
 * out as predicates on a string and a position: the word boundary `\b`,
 * literals matched with `re.IGNORECASE`, a greedy `\s*`, and `re.search`
 * trying every start position from left to right.
 */
module Patterns {
  import opened Text

  /** `\b` at index `i`: a word character on exactly one side of `i`. */
  predicate IsBoundary(s: string, i: nat)
    requires i <= |s|
  {
    (0 < i && IsWordChar(s[i - 1])) != (i < |s| && IsWordChar(s[i]))
  }

  /** `lit` occurs at `i` when letter case is ignored. */
  predicate FoldOccursAt(s: string, i: nat, lit: string) {
    i + |lit| <= |s| && forall k | 0 <= k < |lit| :: Lower(s[i + k]) == Lower(lit[k])
  }

  /** An exact occurrence is also one when case is ignored. */
  lemma ExactIsFolded(s: string, i: nat, lit: string)
    requires OccursAt(s, i, lit)
    ensures FoldOccursAt(s, i, lit)
  {
    forall k | 0 <= k < |lit| ensures Lower(s[i + k]) == Lower(lit[k]) {
      assert s[i + k] == s[i..i + |lit|][k];
    }
  }

  /** `lit` occurs at `i`, letter case ignored, and is followed by `\b`. */
  predicate WordAt(s: string, i: nat, lit: string) {
    FoldOccursAt(s, i, lit) && IsBoundary(s, i + |lit|)
  }

  /** The end of the run of whitespace that starts at `i`: greedy `\s*`. */
  function SkipSpaces(s: string, i: nat): (j: nat)
    requires i <= |s|
    ensures i <= j <= |s|
    ensures forall k | i <= k < j :: IsSpace(s[k])
    ensures j < |s| ==> !IsSpace(s[j])
    decreases |s| - i
  {
    if i < |s| && IsSpace(s[i]) then SkipSpaces(s, i + 1) else i
  }

  /**
   * `first\s*second\b` at `i`, letter case ignored, as the regex engine
   * tries it: `\s*` takes the whole run of whitespace first.
   */
  predicate SpacedWordsAt(s: string, i: nat, first: string, second: string) {
    FoldOccursAt(s, i, first) && WordAt(s, SkipSpaces(s, i + |first|), second)
  }

  /** Only whitespace from `from` to `j`, and `second` followed by `\b` at `j`. */
  ghost predicate SpacesThenWord(s: string, from: nat, j: nat, second: string) {
    from <= j <= |s| && (forall k | from <= k < j :: IsSpace(s[k])) && WordAt(s, j, second)
  }

  /** `first\s*second\b` at `i` for some length of the whitespace run. */
  ghost predicate SpacedWordsSpec(s: string, i: nat, first: string, second: string) {
    && FoldOccursAt(s, i, first)
    && var from := i + |first|;
       exists j: nat :: SpacesThenWord(s, from, j, second)
  }

  /**
   * When the second word starts with a letter, taking all whitespace at once
   * finds a match exactly when some split into whitespace and word does, so
   * the engine's backtracking into `\s*` never changes the outcome.
   */
  lemma GreedySpacesSuffice(s: string, i: nat, first: string, second: string)
    requires second != [] && IsAsciiLetter(second[0])
    ensures SpacedWordsAt(s, i, first, second) <==> SpacedWordsSpec(s, i, first, second)
  {
    if FoldOccursAt(s, i, first) {
      var from := i + |first|;
      var g := SkipSpaces(s, from);
      if SpacedWordsAt(s, i, first, second) {
        assert SpacesThenWord(s, from, g, second);
      }
      if SpacedWordsSpec(s, i, first, second) {
        var j: nat :| SpacesThenWord(s, from, j, second);
        assert Lower(s[j + 0]) == Lower(second[0]);
        FoldedLetterIsNoSpace(s[j], second[0]);
        assert g == j;
      }
    }
  }

  /**
   * `re.search` with a pattern that is tried at every start position from
   * `i` up to the end of `s`: `at(s, j)` says whether it matches at `j`.
   */
  predicate SearchFrom(s: string, i: nat, at: (string, nat) -> bool)
    decreases |s| + 1 - i
  {
    i <= |s| && (at(s, i) || SearchFrom(s, i + 1, at))
  }

  /** The search succeeds exactly when the pattern matches at some position. */
  lemma {:induction false} SearchFromIff(s: string, i: nat, at: (string, nat) -> bool)
    ensures SearchFrom(s, i, at) <==> exists j :: i <= j <= |s| && at(s, j)
    decreases |s| + 1 - i
  {
    if i <= |s| {
      SearchFromIff(s, i + 1, at);
      assert (exists j :: i <= j <= |s| && at(s, j))
         <==> at(s, i) || exists j :: i + 1 <= j <= |s| && at(s, j);
    }
  }
}
