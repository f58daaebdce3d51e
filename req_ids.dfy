/**
 * Requirement identifiers: the pattern `\bREQ-\d{3}\b` (`REQ_ID_RE`), its
 * `findall`, and `_collect_req_ids`, which unions the matches of every file.
 */
module ReqIds {
  import opened Text
  import opened Patterns
  import opened Findings

  /** The shape of an identifier: `REQ-` and three digits. */
  predicate IsReqId(x: string) {
    |x| == 7 && x[..4] == "REQ-" && IsDigit(x[4]) && IsDigit(x[5]) && IsDigit(x[6])
  }

  /** `\bREQ-\d{3}\b` matches at index `i` of `s`. */
  predicate IdAt(s: string, i: nat) {
    && i + 7 <= |s|
    && IsBoundary(s, i)
    && OccursAt(s, i, "REQ-")
    && IsDigit(s[i + 4]) && IsDigit(s[i + 5]) && IsDigit(s[i + 6])
    && IsBoundary(s, i + 7)
  }

  /**
   * An identifier is found at `i` exactly when the seven characters there
   * have its shape, the `R` is not preceded by a word character and the
   * last digit is not followed by one.
   */
  lemma IdAtIff(s: string, i: nat)
    ensures IdAt(s, i) <==>
      && i + 7 <= |s|
      && IsReqId(s[i..i + 7])
      && (i == 0 || !IsWordChar(s[i - 1]))
      && (i + 7 == |s| || !IsWordChar(s[i + 7]))
  {
    if i + 7 <= |s| {
      assert s[i..i + 7][..4] == s[i..i + 4];
      if OccursAt(s, i, "REQ-") {
        assert s[i] == 'R';
      }
      if IsReqId(s[i..i + 7]) {
        assert s[i] == s[i..i + 7][0] == 'R';
        assert s[i + 6] == s[i..i + 7][6];
      }
    }
  }

  /** No match can start inside another one. */
  lemma NoOverlap(s: string, i: nat, j: nat)
    requires IdAt(s, i) && i < j < i + 7
    ensures !IdAt(s, j)
  {
    assert s[i..i + 4] == "REQ-";
    assert s[j] != 'R' by {
      if j < i + 4 {
        assert s[j] == s[i..i + 4][j - i];
      } else {
        assert IsDigit(s[j]);
      }
    }
    assert j + 4 <= |s| ==> s[j..j + 4][0] == s[j];
  }

  /**
   * `findall` scanning from index `i`: a match is recorded and the scan goes
   * on after it; otherwise the scan moves one character on.
   */
  function FindAllFrom(s: string, i: nat): (ids: seq<string>)
    decreases |s| - i
  {
    if i + 7 > |s| then []
    else if IdAt(s, i) then [s[i..i + 7]] + FindAllFrom(s, i + 7)
    else FindAllFrom(s, i + 1)
  }

  /** `REQ_ID_RE.findall(s)`: every match, in order, repeats included. */
  function FindAll(s: string): seq<string> {
    FindAllFrom(s, 0)
  }

  /** The identifiers of `s`: the text at every position where the pattern matches. */
  function IdsIn(s: string): set<string> {
    set i: nat | i + 7 <= |s| && IdAt(s, i) :: s[i..i + 7]
  }

  ghost predicate MatchedFrom(s: string, i: nat, x: string) {
    exists j: nat :: i <= j && IdAt(s, j) && x == s[j..j + 7]
  }

  lemma {:induction false} FindAllFromIff(s: string, i: nat, x: string)
    ensures x in FindAllFrom(s, i) <==> MatchedFrom(s, i, x)
    decreases |s| - i
  {
    if i + 7 <= |s| {
      var next := if IdAt(s, i) then i + 7 else i + 1;
      FindAllFromIff(s, next, x);
      if MatchedFrom(s, i, x) {
        var j: nat :| i <= j && IdAt(s, j) && x == s[j..j + 7];
        if j < next && j != i {
          NoOverlap(s, i, j);
        }
      }
    }
  }

  /** The distinct results of `findall` are exactly the identifiers of `s`. */
  lemma FindAllIsIdsIn(s: string)
    ensures (set x | x in FindAll(s)) == IdsIn(s)
  {
    forall x ensures x in FindAll(s) <==> x in IdsIn(s) {
      FindAllFromIff(s, 0, x);
    }
  }

  /** Everything extracted has the identifier's shape, and its text holds `REQ-`. */
  lemma IdsHaveIdShape(s: string)
    ensures forall x | x in IdsIn(s) :: IsReqId(x)
    ensures IdsIn(s) != {} ==> Contains(s, "REQ-")
  {
    forall x | x in IdsIn(s) ensures IsReqId(x) && Contains(s, "REQ-") {
      var i: nat :| i + 7 <= |s| && IdAt(s, i) && x == s[i..i + 7];
      IdAtIff(s, i);
      assert OccursAt(s, i, "REQ-");
    }
  }

  // ---------------------------------------------------------------------
  // The examples the identifier pattern is meant to accept and reject.

  lemma ExactTokenMatches()
    ensures IdsIn("REQ-001") == {"REQ-001"}
  {
    var s := "REQ-001";
    assert IdAt(s, 0);
    assert s[0..7] == s;
  }

  lemma FourDigitsDoNotMatch()
    ensures IdsIn("REQ-0012") == {}
  {
    var s := "REQ-0012";
    forall i: nat | i + 7 <= |s| ensures !IdAt(s, i) {
      if i == 1 { assert s[1] != 'R'; }
    }
  }

  lemma WordBeforeDoesNotMatch()
    ensures IdsIn("XREQ-001") == {}
  {
    var s := "XREQ-001";
    forall i: nat | i + 7 <= |s| ensures !IdAt(s, i) {
    }
  }

  lemma OneDigitDoesNotMatch()
    ensures IdsIn("REQ-1") == {}
  {
  }

  lemma LowerCaseDoesNotMatch()
    ensures IdsIn("req-001") == {}
  {
    var s := "req-001";
    forall i: nat | i + 7 <= |s| ensures !IdAt(s, i) {
      assert s[0] != 'R';
    }
  }

  lemma RepeatsCollapse()
    ensures FindAll("REQ-001 REQ-001") == ["REQ-001", "REQ-001"]
    ensures IdsIn("REQ-001 REQ-001") == {"REQ-001"}
  {
    var s := "REQ-001 REQ-001";
    assert IdAt(s, 0) && s[0..7] == "REQ-001";
    assert IdAt(s, 8) && s[8..15] == "REQ-001";
    assert !IdAt(s, 7) by { assert s[7] != 'R'; }
    assert FindAllFrom(s, 15) == [];
    assert FindAllFrom(s, 7) == FindAllFrom(s, 8);
    FindAllIsIdsIn(s);
  }

  // ---------------------------------------------------------------------
  // _collect_req_ids

  /** The identifiers of a list of files: the union of each file's identifiers. */
  function IdsInDocs(docs: seq<Doc>): set<string> {
    if docs == [] then {}
    else IdsInDocs(docs[..|docs| - 1]) + IdsIn(docs[|docs| - 1].text)
  }

  /** An identifier is collected exactly when some file contains it. */
  lemma {:induction false} IdsInDocsIff(docs: seq<Doc>, x: string)
    ensures x in IdsInDocs(docs) <==> exists k | 0 <= k < |docs| :: x in IdsIn(docs[k].text)
    decreases |docs|
  {
    if docs != [] {
      var init := docs[..|docs| - 1];
      IdsInDocsIff(init, x);
      if exists k | 0 <= k < |docs| :: x in IdsIn(docs[k].text) {
        var k :| 0 <= k < |docs| && x in IdsIn(docs[k].text);
        if k < |init| { assert docs[k] == init[k]; }
      }
      if exists k | 0 <= k < |init| :: x in IdsIn(init[k].text) {
        var k :| 0 <= k < |init| && x in IdsIn(init[k].text);
        assert docs[k] == init[k];
      }
    }
  }

  /** The collected set depends only on which files there are, not on their order or repeats. */
  lemma IdsInDocsOrderFree(a: seq<Doc>, b: seq<Doc>)
    requires forall d :: d in a <==> d in b
    ensures IdsInDocs(a) == IdsInDocs(b)
  {
    forall x ensures x in IdsInDocs(a) <==> x in IdsInDocs(b) {
      IdsInDocsIff(a, x);
      IdsInDocsIff(b, x);
      if x in IdsInDocs(a) {
        var k :| 0 <= k < |a| && x in IdsIn(a[k].text);
        assert a[k] in b;
        var m :| 0 <= m < |b| && b[m] == a[k];
      }
      if x in IdsInDocs(b) {
        var k :| 0 <= k < |b| && x in IdsIn(b[k].text);
        assert b[k] in a;
        var m :| 0 <= m < |a| && a[m] == b[k];
      }
    }
  }

  /** `_collect_req_ids`: grows the set with each file's `findall`. */
  method CollectReqIds(docs: seq<Doc>) returns (ids: set<string>)
    ensures ids == IdsInDocs(docs)
  {
    ids := {};
    var i := 0;
    while i < |docs|
      invariant 0 <= i <= |docs|
      invariant ids == IdsInDocs(docs[..i])
    {
      var found := FindAll(docs[i].text);
      FindAllIsIdsIn(docs[i].text);
      ids := ids + (set x | x in found);
      assert docs[..i + 1][..i] == docs[..i];
      i := i + 1;
    }
    assert docs[..i] == docs;
  }
}
