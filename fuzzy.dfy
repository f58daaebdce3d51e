/**
 * The fuzzy-term scan: the list of discouraged phrases (the defaults and the
 * comma-separated extras of `--fuzzy-terms`) and `_find_fuzzy_terms_in_file`,
 * which reports every line that contains one of them.
 */
module Fuzzy {
  import opened Text
  import opened Findings

  /** `DEFAULT_FUZZY_TERMS`: vague acceptance phrases and scope escapes. */
  const DefaultFuzzyTerms: seq<string> := [
    "差不多", "尽量", "优化一下", "提升一下", "应该没问题",
    "看起来不错", "跑起来不崩", "后面再说", "先写着", "先随便"
  ]

  // ---------------------------------------------------------------------
  // The term list

  /** `[t.strip() for t in parts if t.strip()]`. */
  function StrippedNonEmpty(parts: seq<string>): seq<string> {
    if parts == [] then []
    else
      var t := Strip(parts[0]);
      (if t != [] then [t] else []) + StrippedNonEmpty(parts[1..])
  }

  /** The extra terms given on the command line; none when the argument is blank. */
  function ExtraTerms(arg: string): seq<string> {
    if Strip(arg) != [] then StrippedNonEmpty(Split(arg, ',')) else []
  }

  /** The term list: the defaults followed by the extras, in order. */
  function FuzzyTerms(arg: string): seq<string> {
    DefaultFuzzyTerms + ExtraTerms(arg)
  }

  /** A term is kept exactly when it is a non-blank part, stripped. */
  lemma {:induction false} StrippedNonEmptyIff(parts: seq<string>, t: string)
    ensures t in StrippedNonEmpty(parts) <==> t != [] && exists p | p in parts :: t == Strip(p)
  {
    if parts != [] {
      StrippedNonEmptyIff(parts[1..], t);
      if exists p | p in parts :: t == Strip(p) {
        var p :| p in parts && t == Strip(p);
        if p != parts[0] { assert p in parts[1..]; }
      }
      if exists p | p in parts[1..] :: t == Strip(p) {
        var p :| p in parts[1..] && t == Strip(p);
        assert p in parts;
      }
    }
  }

  lemma {:induction false} StrippedNonEmptyOfBlanks(parts: seq<string>)
    requires forall p | p in parts :: AllSpaces(p)
    ensures StrippedNonEmpty(parts) == []
  {
    if parts != [] {
      StrippedNonEmptyOfBlanks(parts[1..]);
    }
  }

  /** A blank argument has only blank parts, so it yields no terms even unguarded. */
  lemma BlankArgumentHasNoTerms(arg: string)
    requires Strip(arg) == []
    ensures StrippedNonEmpty(Split(arg, ',')) == []
  {
    var parts := Split(arg, ',');
    forall p | p in parts ensures AllSpaces(p) {
      forall k | 0 <= k < |p| ensures IsSpace(p[k]) {
        assert p[k] in p;
        var m :| 0 <= m < |arg| && arg[m] == p[k];
      }
    }
    StrippedNonEmptyOfBlanks(parts);
  }

  /** Stripping only removes characters. */
  lemma StripKeepsChars(p: string, c: char)
    ensures c in Strip(p) ==> c in p
  {
    var t := Strip(p);
    if c in t {
      var a :| TrimmedAt(p, a, t);
      var k :| 0 <= k < |t| && t[k] == c;
      assert p[a + k] == t[k];
    }
  }

  /** The guard on a blank argument changes nothing: blank arguments have no non-blank parts. */
  lemma ExtraTermsIgnoreGuard(arg: string)
    ensures ExtraTerms(arg) == StrippedNonEmpty(Split(arg, ','))
  {
    if Strip(arg) == [] {
      BlankArgumentHasNoTerms(arg);
    }
  }

  /** The extras are exactly the stripped, non-blank comma-separated parts of the argument. */
  lemma ExtraTermsIff(arg: string, t: string)
    ensures t in ExtraTerms(arg) <==> t != [] && exists p | p in Split(arg, ',') :: t == Strip(p)
  {
    ExtraTermsIgnoreGuard(arg);
    StrippedNonEmptyIff(Split(arg, ','), t);
  }

  /** Each extra term is non-empty, comma-free and without surrounding whitespace. */
  lemma ExtraTermsShape(arg: string, t: string)
    requires t in ExtraTerms(arg)
    ensures t != [] && ',' !in t && !IsSpace(t[0]) && !IsSpace(t[|t| - 1])
  {
    ExtraTermsIff(arg, t);
    var p :| p in Split(arg, ',') && t == Strip(p);
    StripKeepsChars(p, ',');
  }

  /** A string that neither starts nor ends with whitespace is its own strip. */
  lemma StripOfUnpadded(s: string)
    requires s != [] && !IsSpace(s[0]) && !IsSpace(s[|s| - 1])
    ensures Strip(s) == s
  {
    var t := Strip(s);
    var a :| TrimmedAt(s, a, t);
    assert t != [] by { assert !AllSpaces(s) by { assert !IsSpace(s[0]); } }
  }

  /** One space either side is removed. */
  lemma StripOfPadded(core: string)
    requires core != [] && !IsSpace(core[0]) && !IsSpace(core[|core| - 1])
    ensures Strip([' '] + core + [' ']) == core
  {
    var s := [' '] + core + [' '];
    var t := Strip(s);
    var a :| TrimmedAt(s, a, t);
    assert t != [] by { assert !AllSpaces(s) by { assert s[1] == core[0]; } }
    assert t[0] == s[a] && t[|t| - 1] == s[a + |t| - 1];
    assert IsSpace(s[0]) && !IsSpace(s[1]) && IsSpace(s[|s| - 1]) && !IsSpace(s[|s| - 2]);
    assert a == 1;
    assert t == s[1..|s| - 1];
    assert s[1..|s| - 1] == core;
  }

  lemma SplitExample()
    ensures Split(" TBD , ,later", ',') == [" TBD ", " ", "later"]
  {
    var parts := [" TBD ", " ", "later"];
    assert Join(parts, ',') == " TBD , ,later";
    SplitJoin(parts, ',');
  }

  lemma StrippedNonEmptyCons(p: string, rest: seq<string>)
    ensures StrippedNonEmpty([p] + rest)
            == (if Strip(p) != [] then [Strip(p)] else []) + StrippedNonEmpty(rest)
  {
    assert ([p] + rest)[1..] == rest;
  }

  /** Three parts, the middle one blank, keep the other two stripped. */
  lemma StrippedThree(a: string, b: string, c: string, x: string, y: string)
    requires Strip(a) == x && x != [] && Strip(b) == [] && Strip(c) == y && y != []
    ensures StrippedNonEmpty([a, b, c]) == [x, y]
  {
    StrippedNonEmptyCons(c, []);
    StrippedNonEmptyCons(b, [c]);
    StrippedNonEmptyCons(a, [b, c]);
    assert [a, b, c] == [a] + [b, c];
    assert [b, c] == [b] + [c];
    assert [c] == [c] + [];
  }

  lemma StripPaddedExample()
    ensures Strip(" TBD ") == "TBD"
  {
    StripOfPadded("TBD");
    assert [' '] + "TBD" + [' '] == " TBD ";
  }

  lemma StripUnpaddedExample()
    ensures Strip(" ") == [] && Strip("later") == "later"
  {
    assert AllSpaces(" ");
    StripOfUnpadded("later");
  }

  lemma StrippedExample()
    ensures StrippedNonEmpty([" TBD ", " ", "later"]) == ["TBD", "later"]
  {
    StripPaddedExample();
    StripUnpaddedExample();
    StrippedThree(" TBD ", " ", "later", "TBD", "later");
  }

  lemma ExtraTermsExample()
    ensures ExtraTerms(" TBD , ,later") == ["TBD", "later"]
  {
    ExtraTermsIgnoreGuard(" TBD , ,later");
    SplitExample();
    StrippedExample();
  }

  /** Keeping the parts of `a + b` keeps those of `a`, then those of `b`. */
  lemma {:induction false} StrippedNonEmptyAppend(a: seq<string>, b: seq<string>)
    ensures StrippedNonEmpty(a + b) == StrippedNonEmpty(a) + StrippedNonEmpty(b)
  {
    if a == [] {
      assert a + b == b;
    } else {
      var t := a[1..];
      var k := if Strip(a[0]) != [] then [Strip(a[0])] else [];
      assert (a + b)[0] == a[0] && (a + b)[1..] == t + b;
      calc {
        StrippedNonEmpty(a + b);
        k + StrippedNonEmpty(t + b);
        { StrippedNonEmptyAppend(t, b); }
        k + (StrippedNonEmpty(t) + StrippedNonEmpty(b));
        (k + StrippedNonEmpty(t)) + StrippedNonEmpty(b);
        StrippedNonEmpty(a) + StrippedNonEmpty(b);
      }
    }
  }

  /** The positions of the parts that are not all whitespace (whose strip is kept), ascending. */
  ghost function KeptPositions(parts: seq<string>): (js: seq<nat>)
    ensures forall a, b | 0 <= a < b < |js| :: js[a] < js[b]
    ensures forall j :: j in js <==> 0 <= j < |parts| && !AllSpaces(parts[j])
    decreases |parts|
  {
    if parts == [] then []
    else
      var init := parts[..|parts| - 1];
      var js := KeptPositions(init);
      assert forall j | 0 <= j < |init| :: init[j] == parts[j];
      assert forall i | 0 <= i < |js| :: js[i] in js;
      js + (if AllSpaces(parts[|parts| - 1]) then [] else [|parts| - 1])
  }

  /**
   * The comprehension keeps one term per non-blank part, in the order of the
   * parts, repeats included: the `i`-th term is the `i`-th non-blank part, stripped.
   */
  lemma {:induction false} StrippedNonEmptyFollowsParts(parts: seq<string>)
    ensures |StrippedNonEmpty(parts)| == |KeptPositions(parts)|
    ensures forall i | 0 <= i < |KeptPositions(parts)| ::
              KeptPositions(parts)[i] < |parts|
              && StrippedNonEmpty(parts)[i] == Strip(parts[KeptPositions(parts)[i]])
    decreases |parts|
  {
    if parts != [] {
      var init, p := parts[..|parts| - 1], parts[|parts| - 1];
      StrippedNonEmptyFollowsParts(init);
      StrippedNonEmptySnoc(parts);
      var js, kept := KeptPositions(init), StrippedNonEmpty(init);
      var all, alljs := StrippedNonEmpty(parts), KeptPositions(parts);
      forall i | 0 <= i < |alljs|
        ensures alljs[i] < |parts| && all[i] == Strip(parts[alljs[i]])
      {
        if i < |js| {
          assert alljs[i] == js[i] && all[i] == kept[i] && init[js[i]] == parts[js[i]];
        } else {
          assert alljs[i] == |parts| - 1 && all[i] == Strip(p);
        }
      }
    }
  }

  /** Keeping the parts of a list with one more part at the end. */
  lemma StrippedNonEmptySnoc(parts: seq<string>)
    requires parts != []
    ensures StrippedNonEmpty(parts) == StrippedNonEmpty(parts[..|parts| - 1])
      + (if AllSpaces(parts[|parts| - 1]) then [] else [Strip(parts[|parts| - 1])])
  {
    var init, p := parts[..|parts| - 1], parts[|parts| - 1];
    var k := if AllSpaces(p) then [] else [Strip(p)];
    calc {
      StrippedNonEmpty(parts);
      { assert init + [p] == parts; }
      StrippedNonEmpty(init + [p]);
      { StrippedNonEmptyAppend(init, [p]); }
      StrippedNonEmpty(init) + StrippedNonEmpty([p]);
      { StrippedNonEmptyCons(p, []); assert [p] + [] == [p]; }
      StrippedNonEmpty(init) + (k + StrippedNonEmpty([]));
      { assert k + [] == k; }
      StrippedNonEmpty(init) + k;
    }
  }

  /**
   * The extra terms, one per non-blank comma-separated part of the argument,
   * in argument order and with repeats kept.
   */
  lemma ExtraTermsFollowParts(arg: string)
    ensures |ExtraTerms(arg)| == |KeptPositions(Split(arg, ','))|
    ensures forall i | 0 <= i < |KeptPositions(Split(arg, ','))| ::
              KeptPositions(Split(arg, ','))[i] < |Split(arg, ',')|
              && ExtraTerms(arg)[i] == Strip(Split(arg, ',')[KeptPositions(Split(arg, ','))[i]])
  {
    ExtraTermsIgnoreGuard(arg);
    StrippedNonEmptyFollowsParts(Split(arg, ','));
  }

  /** A term given twice is kept twice: `"a,a"` adds `["a", "a"]`. */
  lemma SplitRepeated()
    ensures Split("a,a", ',') == ["a", "a"]
  {
    SplitWithPrefix("a", "a", ',');
    SplitWithPrefix("a", [], ',');
    assert "a" + [','] + "a" == "a,a";
  }

  lemma RepeatedExtraTermsKept()
    ensures ExtraTerms("a,a") == ["a", "a"]
  {
    SplitRepeated();
    StripOfUnpadded("a");
    ExtraTermsIgnoreGuard("a,a");
    StrippedNonEmptyCons("a", ["a"]);
    StrippedNonEmptyCons("a", []);
    assert ["a"] + ["a"] == ["a", "a"];
  }

  // ---------------------------------------------------------------------
  // _find_fuzzy_terms_in_file

  /** The finding for `term` on line `lineNo` of the file at `path`. */
  function TermFinding(path: string, lineNo: nat, term: string): Finding {
    Finding(FuzzyTerm, path, lineNo, "Found fuzzy term: " + term)
  }

  /** `term and term in line`. */
  predicate Hits(line: string, term: string) {
    term != [] && Contains(line, term)
  }

  /** The findings for one line: one per term that hits, in term-list order. */
  function LineFindings(path: string, lineNo: nat, line: string, terms: seq<string>): seq<Finding>
    decreases |terms|
  {
    if terms == [] then []
    else
      var t := terms[|terms| - 1];
      LineFindings(path, lineNo, line, terms[..|terms| - 1])
      + (if Hits(line, t) then [TermFinding(path, lineNo, t)] else [])
  }

  /** The findings for a list of lines, the first numbered 1. */
  function LinesFindings(path: string, lines: seq<string>, terms: seq<string>): seq<Finding>
    decreases |lines|
  {
    if lines == [] then []
    else
      LinesFindings(path, lines[..|lines| - 1], terms)
      + LineFindings(path, |lines|, lines[|lines| - 1], terms)
  }

  /** The findings for one file. */
  function FileFindings(doc: Doc, terms: seq<string>): seq<Finding> {
    LinesFindings(doc.path, SplitLines(doc.text), terms)
  }

  /** The findings for a list of files, file after file. */
  function DocsFindings(docs: seq<Doc>, terms: seq<string>): seq<Finding>
    decreases |docs|
  {
    if docs == [] then []
    else DocsFindings(docs[..|docs| - 1], terms) + FileFindings(docs[|docs| - 1], terms)
  }

  /** The positions in the term list of the terms that hit `line`, ascending. */
  ghost function HitPositions(line: string, terms: seq<string>): (js: seq<nat>)
    ensures forall a, b | 0 <= a < b < |js| :: js[a] < js[b]
    ensures forall j :: j in js <==> 0 <= j < |terms| && Hits(line, terms[j])
    decreases |terms|
  {
    if terms == [] then []
    else
      var init := terms[..|terms| - 1];
      var js := HitPositions(line, init);
      assert forall j | 0 <= j < |init| :: init[j] == terms[j];
      assert forall i | 0 <= i < |js| :: js[i] in js;
      js + (if Hits(line, terms[|terms| - 1]) then [|terms| - 1] else [])
  }

  /**
   * A line yields exactly one finding per position of a term that is
   * non-empty and occurs in the line, in the order of the term list.
   */
  lemma {:induction false} LineFindingsFollowTerms(path: string, n: nat, line: string, terms: seq<string>)
    ensures |LineFindings(path, n, line, terms)| == |HitPositions(line, terms)|
    ensures forall i | 0 <= i < |HitPositions(line, terms)| ::
              HitPositions(line, terms)[i] < |terms|
              && LineFindings(path, n, line, terms)[i]
                 == TermFinding(path, n, terms[HitPositions(line, terms)[i]])
    decreases |terms|
  {
    if terms != [] {
      var init, t := terms[..|terms| - 1], terms[|terms| - 1];
      LineFindingsFollowTerms(path, n, line, init);
      var js, lf := HitPositions(line, init), LineFindings(path, n, line, init);
      var all, alljs := LineFindings(path, n, line, terms), HitPositions(line, terms);
      if Hits(line, t) {
        assert all == lf + [TermFinding(path, n, t)] && alljs == js + [|terms| - 1];
      } else {
        assert all == lf && alljs == js;
      }
      forall i | 0 <= i < |alljs|
        ensures alljs[i] < |terms| && all[i] == TermFinding(path, n, terms[alljs[i]])
      {
        if i < |js| {
          assert alljs[i] == js[i] && all[i] == lf[i] && init[js[i]] == terms[js[i]];
        }
      }
    }
  }

  /** A line's findings are exactly those of the terms that hit it. */
  lemma LineFindingsIff(path: string, n: nat, line: string, terms: seq<string>, f: Finding)
    ensures f in LineFindings(path, n, line, terms) <==>
      exists j | 0 <= j < |terms| :: Hits(line, terms[j]) && f == TermFinding(path, n, terms[j])
  {
    LineFindingsFollowTerms(path, n, line, terms);
    var js := HitPositions(line, terms);
    var lf := LineFindings(path, n, line, terms);
    if f in lf {
      var i :| 0 <= i < |lf| && lf[i] == f;
      assert js[i] in js;
    }
    if exists j | 0 <= j < |terms| :: Hits(line, terms[j]) && f == TermFinding(path, n, terms[j]) {
      var j :| 0 <= j < |terms| && Hits(line, terms[j]) && f == TermFinding(path, n, terms[j]);
      assert j in js;
      var i :| 0 <= i < |js| && js[i] == j;
      assert lf[i] == f;
    }
  }

  /** `f` is the finding for the term at position `j` on line `k + 1`, which it hits. */
  ghost predicate HitFinding(path: string, lines: seq<string>, terms: seq<string>, f: Finding, k: int, j: int) {
    && 0 <= k < |lines| && 0 <= j < |terms|
    && Hits(lines[k], terms[j]) && f == TermFinding(path, k + 1, terms[j])
  }

  /** The finding for a term that hits a line is among the findings of the line list. */
  lemma {:induction false} HitInLinesFindings(path: string, lines: seq<string>, terms: seq<string>,
                                              f: Finding, k: nat, j: nat)
    requires HitFinding(path, lines, terms, f, k, j)
    ensures f in LinesFindings(path, lines, terms)
    decreases |lines|
  {
    var init, last := lines[..|lines| - 1], |lines| - 1;
    if k < last {
      assert HitFinding(path, init, terms, f, k, j);
      HitInLinesFindings(path, init, terms, f, k, j);
    } else {
      LineFindingsIff(path, |lines|, lines[last], terms, f);
    }
  }

  /** Every finding of the line list is the finding for a term that hits one of its lines. */
  lemma {:induction false} LinesFindingsAreHits(path: string, lines: seq<string>, terms: seq<string>, f: Finding)
    requires f in LinesFindings(path, lines, terms)
    ensures exists k, j :: HitFinding(path, lines, terms, f, k, j)
    decreases |lines|
  {
    var init, last := lines[..|lines| - 1], |lines| - 1;
    assert LinesFindings(path, lines, terms)
           == LinesFindings(path, init, terms) + LineFindings(path, |lines|, lines[last], terms);
    if f in LineFindings(path, |lines|, lines[last], terms) {
      LineFindingsIff(path, |lines|, lines[last], terms, f);
      var j :| 0 <= j < |terms| && Hits(lines[last], terms[j])
               && f == TermFinding(path, |lines|, terms[j]);
      assert HitFinding(path, lines, terms, f, last, j);
    } else {
      LinesFindingsAreHits(path, init, terms, f);
      var k, j :| HitFinding(path, init, terms, f, k, j);
      assert HitFinding(path, lines, terms, f, k, j);
    }
  }

  /** Every finding of a line list names a hitting term and the line it hits, and back. */
  lemma LinesFindingsIff(path: string, lines: seq<string>, terms: seq<string>, f: Finding)
    ensures f in LinesFindings(path, lines, terms) <==>
      exists k, j :: HitFinding(path, lines, terms, f, k, j)
  {
    if f in LinesFindings(path, lines, terms) {
      LinesFindingsAreHits(path, lines, terms, f);
    }
    if exists k, j :: HitFinding(path, lines, terms, f, k, j) {
      var k, j :| HitFinding(path, lines, terms, f, k, j);
      HitInLinesFindings(path, lines, terms, f, k, j);
    }
  }

  /**
   * The findings of a line list are fuzzy-term findings for `path`, with line
   * numbers between 1 and the number of lines, in ascending line order.
   */
  lemma {:induction false} LinesFindingsOrdered(path: string, lines: seq<string>, terms: seq<string>)
    ensures forall f | f in LinesFindings(path, lines, terms) ::
              f.kind == FuzzyTerm && f.path == path && 1 <= f.lineNo <= |lines|
    ensures forall a, b | 0 <= a < b < |LinesFindings(path, lines, terms)| ::
              LinesFindings(path, lines, terms)[a].lineNo <= LinesFindings(path, lines, terms)[b].lineNo
    decreases |lines|
  {
    if lines != [] {
      var init := lines[..|lines| - 1];
      LinesFindingsOrdered(path, init, terms);
      var lf := LineFindings(path, |lines|, lines[|lines| - 1], terms);
      LineFindingsFollowTerms(path, |lines|, lines[|lines| - 1], terms);
      var pre := LinesFindings(path, init, terms);
      var all := pre + lf;
      assert forall f | f in lf :: f.lineNo == |lines| && f.kind == FuzzyTerm && f.path == path;
      forall a, b | 0 <= a < b < |all| ensures all[a].lineNo <= all[b].lineNo {
        if b < |pre| {
          assert all[a] == pre[a] && all[b] == pre[b];
        } else {
          assert all[b] in lf;
          if a < |pre| { assert all[a] in pre; } else { assert all[a] in lf; }
        }
      }
    }
  }

  /** Every finding of a line carries that line's number. */
  lemma LineFindingsOnLine(path: string, n: nat, line: string, terms: seq<string>)
    ensures forall i | 0 <= i < |LineFindings(path, n, line, terms)| ::
              LineFindings(path, n, line, terms)[i].lineNo == n
  {
    LineFindingsFollowTerms(path, n, line, terms);
  }

  /**
   * A file's findings on line `k + 1` are exactly that line's findings: one
   * per term that hits it, in term-list order. No finding has a line number
   * outside `1..|lines|`. With `LinesFindingsOrdered` this fixes the whole
   * list: line by line, and within a line in term order.
   */
  lemma {:induction false} LinesFindingsByLine(path: string, lines: seq<string>, terms: seq<string>)
    ensures forall k | 0 <= k < |lines| ::
              OnLine(LinesFindings(path, lines, terms), k + 1) == LineFindings(path, k + 1, lines[k], terms)
    ensures forall n: nat | n == 0 || |lines| < n :: OnLine(LinesFindings(path, lines, terms), n) == []
    decreases |lines|
  {
    if lines != [] {
      var init, last := lines[..|lines| - 1], |lines|;
      LinesFindingsByLine(path, init, terms);
      var pre, lf := LinesFindings(path, init, terms), LineFindings(path, last, lines[last - 1], terms);
      var all := LinesFindings(path, lines, terms);
      assert all == pre + lf;
      LineFindingsOnLine(path, last, lines[last - 1], terms);
      forall k | 0 <= k < |lines|
        ensures OnLine(all, k + 1) == LineFindings(path, k + 1, lines[k], terms)
      {
        OnLineAppend(pre, lf, k + 1);
        OnLineUniform(lf, last, k + 1);
        if k < |init| {
          assert init[k] == lines[k];
        }
      }
      forall n: nat | n == 0 || |lines| < n ensures OnLine(all, n) == [] {
        OnLineAppend(pre, lf, n);
        OnLineUniform(lf, last, n);
      }
    }
  }

  lemma {:induction false} DocsFindingsAreFuzzy(docs: seq<Doc>, terms: seq<string>)
    ensures AllOfKind(DocsFindings(docs, terms), FuzzyTerm)
    decreases |docs|
  {
    if docs != [] {
      DocsFindingsAreFuzzy(docs[..|docs| - 1], terms);
      var d := docs[|docs| - 1];
      LinesFindingsOrdered(d.path, SplitLines(d.text), terms);
    }
  }

  /** Every finding of a scanned file is a finding of the scan. */
  lemma {:induction false} FileFindingsInDocsFindings(docs: seq<Doc>, terms: seq<string>, k: nat, f: Finding)
    requires k < |docs| && f in FileFindings(docs[k], terms)
    ensures f in DocsFindings(docs, terms)
    decreases |docs|
  {
    var init := docs[..|docs| - 1];
    if k < |init| {
      assert init[k] == docs[k];
      FileFindingsInDocsFindings(init, terms, k, f);
    }
  }

  /** Every finding of the scan is a finding of one of the files scanned. */
  lemma {:induction false} DocsFindingsFromFiles(docs: seq<Doc>, terms: seq<string>, f: Finding)
    requires f in DocsFindings(docs, terms)
    ensures exists k | 0 <= k < |docs| :: f in FileFindings(docs[k], terms)
    decreases |docs|
  {
    var init, last := docs[..|docs| - 1], docs[|docs| - 1];
    if f in FileFindings(last, terms) {
      assert f in FileFindings(docs[|docs| - 1], terms);
    } else {
      DocsFindingsFromFiles(init, terms, f);
      var k :| 0 <= k < |init| && f in FileFindings(init[k], terms);
      assert init[k] == docs[k];
    }
  }

  /** One more term on a line: its finding, if it hits, goes last. */
  lemma LineFindingsStep(path: string, n: nat, line: string, terms: seq<string>, j: nat)
    requires j < |terms|
    ensures LineFindings(path, n, line, terms[..j + 1])
            == LineFindings(path, n, line, terms[..j])
               + (if Hits(line, terms[j]) then [TermFinding(path, n, terms[j])] else [])
  {
    var pre := terms[..j + 1];
    assert pre[..j] == terms[..j] && pre[j] == terms[j];
  }

  /** One more line: its findings go last. */
  lemma LinesFindingsStep(path: string, lines: seq<string>, terms: seq<string>, i: nat)
    requires i < |lines|
    ensures LinesFindings(path, lines[..i + 1], terms)
            == LinesFindings(path, lines[..i], terms) + LineFindings(path, i + 1, lines[i], terms)
  {
    var pre := lines[..i + 1];
    assert pre[..i] == lines[..i] && pre[i] == lines[i];
  }

  /** `_find_fuzzy_terms_in_file`: every line against every term, appending as it goes. */
  method FindFuzzyTermsInFile(doc: Doc, terms: seq<string>) returns (findings: seq<Finding>)
    ensures findings == FileFindings(doc, terms)
  {
    var lines := SplitLines(doc.text);
    findings := [];
    var idx := 0;
    while idx < |lines|
      invariant 0 <= idx <= |lines|
      invariant findings == LinesFindings(doc.path, lines[..idx], terms)
    {
      var line := lines[idx];
      ghost var before := findings;
      var j := 0;
      while j < |terms|
        invariant 0 <= j <= |terms|
        invariant findings == before + LineFindings(doc.path, idx + 1, line, terms[..j])
      {
        var term := terms[j];
        LineFindingsStep(doc.path, idx + 1, line, terms, j);
        if term != [] && Contains(line, term) {
          findings := findings + [TermFinding(doc.path, idx + 1, term)];
        }
        j := j + 1;
      }
      assert terms[..j] == terms;
      LinesFindingsStep(doc.path, lines, terms, idx);
      idx := idx + 1;
    }
    assert lines[..idx] == lines;
  }
}
