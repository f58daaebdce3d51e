/**
 * The values the checker passes around: the loaded Markdown files and the
 * `Finding` record it reports (`doc_hygiene_check.py`, lines 45-50).
 */
module Findings {

  /**
   * A Markdown file as the loader hands it over: the path it was found at and
   * its text (decoded as UTF-8 with replacement characters).
   */
  datatype Doc = Doc(path: string, text: string)

  /** The six kinds of finding; `KindName` gives the string the tool prints. */
  datatype Kind =
    | FuzzyTerm
    | MissingPrdDir
    | MissingPlanDir
    | NoReqIds
    | MissingPrdTrace
    | ReqUnreferenced

  function KindName(k: Kind): string {
    match k
    case FuzzyTerm => "fuzzy-term"
    case MissingPrdDir => "missing-prd-dir"
    case MissingPlanDir => "missing-plan-dir"
    case NoReqIds => "no-req-ids"
    case MissingPrdTrace => "missing-prd-trace"
    case ReqUnreferenced => "req-unreferenced"
  }

  /** The printed kind names tell the kinds apart. */
  lemma KindNamesDistinct(a: Kind, b: Kind)
    requires KindName(a) == KindName(b)
    ensures a == b
  {
  }

  /** The frozen dataclass `Finding`: what, where (path and 1-based line) and why. */
  datatype Finding = Finding(kind: Kind, path: string, lineNo: nat, message: string)

  /** The findings of `fs` that are of kind `k`, in order. */
  function OfKind(fs: seq<Finding>, k: Kind): seq<Finding> {
    if fs == [] then []
    else OfKind(fs[..|fs| - 1], k) + (if fs[|fs| - 1].kind == k then [fs[|fs| - 1]] else [])
  }

  lemma {:induction false} OfKindAppend(a: seq<Finding>, b: seq<Finding>, k: Kind)
    ensures OfKind(a + b, k) == OfKind(a, k) + OfKind(b, k)
    decreases |b|
  {
    if b == [] {
      assert a + b == a;
    } else {
      assert (a + b)[..|a + b| - 1] == a + b[..|b| - 1];
      OfKindAppend(a, b[..|b| - 1], k);
    }
  }

  /** A finding survives the filter exactly when it is in the list and of the kind asked for. */
  lemma {:induction false} OfKindIff(fs: seq<Finding>, k: Kind, f: Finding)
    ensures f in OfKind(fs, k) <==> f in fs && f.kind == k
    decreases |fs|
  {
    if fs != [] {
      var init := fs[..|fs| - 1];
      OfKindIff(init, k, f);
      assert fs == init + [fs[|fs| - 1]];
    }
  }

  /** The findings of `fs` reported on line `n`, in order. */
  function OnLine(fs: seq<Finding>, n: nat): seq<Finding> {
    if fs == [] then []
    else OnLine(fs[..|fs| - 1], n) + (if fs[|fs| - 1].lineNo == n then [fs[|fs| - 1]] else [])
  }

  lemma {:induction false} OnLineAppend(a: seq<Finding>, b: seq<Finding>, n: nat)
    ensures OnLine(a + b, n) == OnLine(a, n) + OnLine(b, n)
    decreases |b|
  {
    if b == [] {
      assert a + b == a;
    } else {
      assert (a + b)[..|a + b| - 1] == a + b[..|b| - 1];
      OnLineAppend(a, b[..|b| - 1], n);
    }
  }

  /** Filtering by line keeps a list all on that line and empties a list all on other lines. */
  lemma {:induction false} OnLineUniform(fs: seq<Finding>, m: nat, n: nat)
    requires forall i | 0 <= i < |fs| :: fs[i].lineNo == m
    ensures OnLine(fs, n) == if n == m then fs else []
    decreases |fs|
  {
    if fs != [] {
      var init := fs[..|fs| - 1];
      assert forall i | 0 <= i < |init| :: init[i] == fs[i];
      OnLineUniform(init, m, n);
      assert init + [fs[|fs| - 1]] == fs;
    }
  }

  predicate AllOfKind(fs: seq<Finding>, k: Kind) {
    forall f | f in fs :: f.kind == k
  }

  /** A run of findings all of one kind filters to itself or to nothing. */
  lemma {:induction false} OfKindUniform(fs: seq<Finding>, k: Kind, j: Kind)
    requires AllOfKind(fs, k)
    ensures OfKind(fs, j) == if j == k then fs else []
    decreases |fs|
  {
    if fs != [] {
      var init, last := fs[..|fs| - 1], fs[|fs| - 1];
      assert fs == init + [last];
      assert last in fs;
      assert AllOfKind(init, k) by {
        forall f | f in init ensures f.kind == k {
          assert f in fs;
        }
      }
      assert OfKind(fs, j) == OfKind(init, j) + (if last.kind == j then [last] else []);
      OfKindUniform(init, k, j);
    }
  }
}
