/**
 * `_plan_has_prd_trace`: whether a plan document shows a link to the
 * requirements (a "PRD Trace" heading, a requirement ID) or declares itself
 * infrastructure or technical-debt work. The answer is a plain yes or no.
 */
module PlanTrace {
  import opened Text
  import opened Patterns
  import opened ReqIds

  /** `\bPRD\s*Trace\b` (ignoring case) matches at `i`, as the engine tries it. */
  predicate PrdTraceAt(s: string, i: nat) {
    i <= |s| && IsBoundary(s, i) && SpacedWordsAt(s, i, "PRD", "Trace")
  }

  /** `\bPRD\s*Trace\b` matches at `i` with some whitespace run between the words. */
  ghost predicate PrdTraceSpecAt(s: string, i: nat) {
    i <= |s| && IsBoundary(s, i) && SpacedWordsSpec(s, i, "PRD", "Trace")
  }

  /** `\b(infra|infrastructure|debt|tech\s*debt)\b` (ignoring case) matches at `i`. */
  predicate InfraDebtAt(s: string, i: nat) {
    && i <= |s|
    && IsBoundary(s, i)
    && (|| WordAt(s, i, "infra")
        || WordAt(s, i, "infrastructure")
        || WordAt(s, i, "debt")
        || SpacedWordsAt(s, i, "tech", "debt"))
  }

  /** The same alternation with any whitespace run inside `tech\s*debt`. */
  ghost predicate InfraDebtSpecAt(s: string, i: nat) {
    && i <= |s|
    && IsBoundary(s, i)
    && (|| WordAt(s, i, "infra")
        || WordAt(s, i, "infrastructure")
        || WordAt(s, i, "debt")
        || SpacedWordsSpec(s, i, "tech", "debt"))
  }

  /** `re.search(r"\bPRD\s*Trace\b", text, flags=re.IGNORECASE)` succeeds. */
  predicate MentionsPrdTrace(text: string) {
    SearchFrom(text, 0, PrdTraceAt)
  }

  /** `re.search(r"\b(infra|infrastructure|debt|tech\s*debt)\b", ...)` succeeds. */
  predicate MentionsInfraOrDebt(text: string) {
    SearchFrom(text, 0, InfraDebtAt)
  }

  /** Chinese for "infrastructure". */
  const InfraMarker: string := "基础设施"
  /** Chinese for "paying off (technical) debt". */
  const DebtMarker: string := "偿债"

  /** `_plan_has_prd_trace`: the four tests in the source's order, first success wins. */
  predicate PlanHasPrdTrace(text: string) {
    if MentionsPrdTrace(text) then true
    else if Contains(text, "Req ID") || Contains(text, "REQ-") then true
    else if MentionsInfraOrDebt(text) then true
    else if Contains(text, InfraMarker) || Contains(text, DebtMarker) then true
    else false
  }

  /**
   * A plan document passes exactly when one of the four tests holds: the
   * trace heading occurs, `Req ID` or `REQ-` occurs, an infrastructure or
   * debt word occurs, or one of the two Chinese markers occurs.
   */
  lemma PlanHasPrdTraceIff(text: string)
    ensures PlanHasPrdTrace(text) <==>
      || (exists i: nat :: PrdTraceSpecAt(text, i))
      || Contains(text, "Req ID") || Contains(text, "REQ-")
      || (exists i: nat :: InfraDebtSpecAt(text, i))
      || Contains(text, InfraMarker) || Contains(text, DebtMarker)
  {
    SearchFromIff(text, 0, PrdTraceAt);
    SearchFromIff(text, 0, InfraDebtAt);
    forall i: nat ensures PrdTraceAt(text, i) <==> PrdTraceSpecAt(text, i) {
      GreedySpacesSuffice(text, i, "PRD", "Trace");
    }
    forall i: nat ensures InfraDebtAt(text, i) <==> InfraDebtSpecAt(text, i) {
      GreedySpacesSuffice(text, i, "tech", "debt");
    }
  }

  /**
   * A plan document from which an identifier is extracted always passes,
   * since every identifier contains `REQ-`: no flagged plan document adds
   * anything to the plan identifiers.
   */
  lemma IdsImplyTrace(text: string)
    requires IdsIn(text) != {}
    ensures PlanHasPrdTrace(text)
  {
    IdsHaveIdShape(text);
  }

  /** Contrapositive form used by the report: a flagged document has no identifiers. */
  lemma FlaggedHasNoIds(text: string)
    requires !PlanHasPrdTrace(text)
    ensures IdsIn(text) == {}
  {
    if IdsIn(text) != {} {
      IdsImplyTrace(text);
    }
  }

  // ---------------------------------------------------------------------
  // Examples

  lemma IdReferenceIsTrace()
    ensures PlanHasPrdTrace("See REQ-001")
  {
    assert OccursAt("See REQ-001", 4, "REQ-");
  }

  /** The word `infrastructure` after a non-word character and before one is a trace. */
  lemma InfrastructureWordIsTrace(before: string, after: string, rest: string)
    requires before != [] && !IsWordChar(before[|before| - 1])
    requires after != [] && !IsWordChar(after[0])
    ensures MentionsInfraOrDebt(before + "infrastructure" + after + rest)
  {
    var word := "infrastructure";
    var s := before + word + after + rest;
    var i := |before|;
    assert s[i - 1] == before[i - 1] && s[i] == word[0] && s[i + 14] == after[0] && s[i + 13] == word[13];
    assert OccursAt(s, i, word) by { assert s[i..i + 14] == word; }
    ExactIsFolded(s, i, word);
    assert InfraDebtAt(s, i);
    SearchFromIff(s, 0, InfraDebtAt);
  }

  /** The note of the example, cut around its keyword. */
  lemma InfrastructureNotePieces()
    ensures "This is " + "infrastructure" + " cleanup, " + "no direct requirement."
         == "This is infrastructure cleanup, no direct requirement."
  {
    assert "This is " + "infrastructure" + " cleanup, " == "This is infrastructure cleanup, ";
    assert "This is infrastructure cleanup, " + "no direct requirement."
        == "This is infrastructure cleanup, no direct requirement.";
  }

  lemma InfrastructureNoteIsTrace()
    ensures PlanHasPrdTrace("This is infrastructure cleanup, no direct requirement.")
  {
    InfrastructureWordIsTrace("This is ", " cleanup, ", "no direct requirement.");
    InfrastructureNotePieces();
  }

  lemma JoinedHeadingIsTrace()
    ensures PlanHasPrdTrace("## prdtrace")
  {
    var s := "## prdtrace";
    assert SkipSpaces(s, 6) == 6;
    assert PrdTraceAt(s, 3);
    SearchFromIff(s, 0, PrdTraceAt);
  }

  lemma TechDebtWithoutSpaceIsTrace()
    ensures PlanHasPrdTrace("TechDebt")
  {
    var s := "TechDebt";
    assert SkipSpaces(s, 4) == 4;
    assert InfraDebtAt(s, 0);
    SearchFromIff(s, 0, InfraDebtAt);
  }

  /** `s` from index `i` on is made of lower-case ASCII letters only. */
  predicate LowerLettersFrom(s: string, i: nat)
    decreases |s| - i
  {
    i >= |s| || ('a' <= s[i] <= 'z' && LowerLettersFrom(s, i + 1))
  }

  predicate LowerLetters(s: string) {
    LowerLettersFrom(s, 0)
  }

  lemma {:induction false} LowerLettersFromAt(s: string, i: nat, k: nat)
    requires LowerLettersFrom(s, i) && i <= k < |s|
    ensures 'a' <= s[k] <= 'z'
    decreases k - i
  {
    if i < k {
      LowerLettersFromAt(s, i + 1, k);
    }
  }

  lemma LowerLettersAt(s: string, k: nat)
    requires LowerLetters(s) && k < |s|
    ensures 'a' <= s[k] <= 'z'
  {
    LowerLettersFromAt(s, 0, k);
  }

  /** A word of lower-case letters holds no string that starts with anything else. */
  lemma LowerLettersMiss(s: string, sub: string)
    requires LowerLetters(s) && sub != [] && !('a' <= sub[0] <= 'z')
    ensures !Contains(s, sub)
  {
    forall i | 0 <= i <= |s| ensures !OccursAt(s, i, sub) {
      if i + |sub| <= |s| {
        LowerLettersAt(s, i);
        assert s[i..i + |sub|][0] == s[i];
      }
    }
  }

  /** Inside a word of lower-case letters no position is a word boundary. */
  lemma LowerLettersInside(s: string, i: nat)
    requires LowerLetters(s) && 0 < i < |s|
    ensures !IsBoundary(s, i)
  {
    LowerLettersAt(s, i - 1);
    LowerLettersAt(s, i);
  }

  /** A lower-case word not starting with `p` holds no `\bPRD\s*Trace\b`. */
  lemma LowerWordHasNoPrdTrace(s: string)
    requires LowerLetters(s) && s != [] && s[0] != 'p'
    ensures !MentionsPrdTrace(s)
  {
    SearchFromIff(s, 0, PrdTraceAt);
    forall i: nat | i <= |s| ensures !PrdTraceAt(s, i) {
      if 0 < i < |s| {
        LowerLettersInside(s, i);
      } else if i == 0 {
        assert Lower(s[0]) != Lower("PRD"[0]);
      }
    }
  }

  /** In a lower-case word the infrastructure or debt alternation can only match at the start. */
  lemma LowerWordInfraDebtAtStart(s: string)
    requires LowerLetters(s) && s != [] && !InfraDebtAt(s, 0)
    ensures !MentionsInfraOrDebt(s)
  {
    SearchFromIff(s, 0, InfraDebtAt);
    forall i: nat | 0 < i < |s| ensures !InfraDebtAt(s, i) {
      LowerLettersInside(s, i);
    }
  }

  /** `\binfra` and `\binfrastructure` both occur at the start of "infrastructures" and fail the closing `\b`. */
  lemma InfrastructuresFailsAtStart()
    ensures !InfraDebtAt("infrastructures", 0)
  {
    var s := "infrastructures";
    LowerLettersInside(s, 5);
    LowerLettersInside(s, 14);
    assert !WordAt(s, 0, "infra");
    assert !WordAt(s, 0, "infrastructure");
    assert Lower(s[0]) != Lower("debt"[0]) && Lower(s[0]) != Lower("tech"[0]);
  }

  /**
   * A keyword inside a longer word is no match: in "infrastructures" both
   * `infra` and `infrastructure` occur at the start but fail the closing `\b`.
   */
  lemma EmbeddedWordIsNoTrace()
    ensures !PlanHasPrdTrace("infrastructures")
  {
    assert LowerLetters("infrastructures");
    var s := "infrastructures";
    LowerWordHasNoPrdTrace(s);
    InfrastructuresFailsAtStart();
    LowerWordInfraDebtAtStart(s);
    LowerLettersMiss(s, "Req ID");
    LowerLettersMiss(s, "REQ-");
    LowerLettersMiss(s, InfraMarker);
    LowerLettersMiss(s, DebtMarker);
  }
}
